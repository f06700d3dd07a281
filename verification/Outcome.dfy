/**
 * One canonical chain as a block per occupied slot, and the outcome of a duty on it.
 * This is the reference that the dense, sparse and live pipelines are proved against.
 */
module Outcome {
  import opened Wrappers
  import opened Chain
  import opened Attestations
  import opened Rows
  import Bits

  datatype Block = Block(root: Root, parent: Root, attestations: seq<Attestation>)

  /** An absent slot was skipped. */
  type Canonical = map<Slot, Block>

  datatype Duty = Duty(validator: Validator, slot: Slot, committeeIndex: nat, position: nat)

  datatype Reward = Reward(
    source: int, target: int, head: int, inclusionDelay: Option<int>, inactivity: Option<int>)

  /** Root of the latest block at or before `slot`. */
  function RootAtOrBefore(chain: Canonical, slot: Slot): Option<Root> {
    if slot in chain then Some(chain[slot].root)
    else if slot == 0 then None
    else RootAtOrBefore(chain, slot - 1)
  }

  /** Occupied slots in `[lo, hi)`. */
  function BlocksBetween(chain: Canonical, lo: Slot, hi: Slot): nat {
    if lo >= hi then 0
    else BlocksBetween(chain, lo, hi - 1) + if hi - 1 in chain then 1 else 0
  }

  /** Does the block at `slot` carry a vote of `v`? */
  predicate Hit(view: EpochView, chain: Canonical, v: Validator, slot: Slot) {
    slot in chain && FirstVote(view, chain[slot].attestations, v).Some?
  }

  /** The earliest slot in `[lo, hi)` whose block carries a vote of `v`. */
  function EarliestHit(view: EpochView, chain: Canonical, v: Validator, lo: Slot, hi: Slot): Option<Slot> {
    if lo >= hi then None
    else EarliestHit(view, chain, v, lo, hi - 1).Or(if Hit(view, chain, v, hi - 1) then Some(hi - 1) else None)
  }

  lemma {:induction false} EarliestHitIsLeast(view: EpochView, chain: Canonical, v: Validator, lo: Slot, hi: Slot)
    ensures var hit := EarliestHit(view, chain, v, lo, hi);
            match hit
            case None => forall s :: lo <= s < hi ==> !Hit(view, chain, v, s)
            case Some(slot) => lo <= slot < hi && Hit(view, chain, v, slot)
                               && forall s :: lo <= s < slot ==> !Hit(view, chain, v, s)
    decreases hi
  {
    if lo < hi {
      EarliestHitIsLeast(view, chain, v, lo, hi - 1);
    }
  }

  /** What a duty row says about performance; the source mark is judged differently by dense scans. */
  datatype Performance = Performance(details: Details, head: Option<bool>, target: Option<bool>)

  /**
   * The outcome of `duty`: the first vote within the two-epoch window, its raw delay, the blocks after
   * the duty slot through inclusion, and its votes against the chain's own roots.
   */
  function Expected(view: EpochView, chain: Canonical, duty: Duty): Performance {
    match EarliestHit(view, chain, duty.validator, view.Start(), view.WindowEnd())
    case None => Performance(NO_DETAILS, None, None)
    case Some(slot) => if Hit(view, chain, duty.validator, slot) then ExpectedAt(view, chain, duty, slot)
                       else Performance(NO_DETAILS, None, None)
  }

  /** The outcome when the deciding vote is the one in the block at `slot`. */
  function ExpectedAt(view: EpochView, chain: Canonical, duty: Duty, slot: Slot): Performance
    requires Hit(view, chain, duty.validator, slot)
  {
    var vote := FirstVote(view, chain[slot].attestations, duty.validator).value;
    Performance(
      Details(true, Some(slot), Some(slot - duty.slot), Some(BlocksBetween(chain, duty.slot + 1, slot + 1))),
      Some(RootAtOrBefore(chain, duty.slot) == Some(vote.headRoot)),
      Some(vote.target.epoch == view.epoch && RootAtOrBefore(chain, view.Start()) == Some(vote.target.root)))
  }

  // ---- The outcome, read off the encoded attestations ----

  /** Some attestation of the block at `slot` has `v` in its attesting set, for the epoch of the view. */
  ghost predicate HoldsVote(view: EpochView, chain: Canonical, v: Validator, slot: Slot) {
    slot in chain && exists att <- chain[slot].attestations :: Attests(view, att, v)
  }

  ghost predicate IsLeastVote(view: EpochView, chain: Canonical, v: Validator, slot: Slot) {
    && view.Start() <= slot < view.WindowEnd() && HoldsVote(view, chain, v, slot)
    && forall s :: view.Start() <= s < slot ==> !HoldsVote(view, chain, v, s)
  }

  lemma HitIffHoldsVote(view: EpochView, chain: Canonical, v: Validator, slot: Slot)
    ensures Hit(view, chain, v, slot) <==> HoldsVote(view, chain, v, slot)
  {
    if slot in chain {
      FirstVoteIsFirst(view, chain[slot].attestations, v);
    }
  }

  lemma OneMoreOccupied(chain: Canonical, lo: Slot, hi: Slot)
    requires lo < hi
    ensures |set s | s in chain && lo <= s < hi|
         == |set s | s in chain && lo <= s < hi - 1| + if hi - 1 in chain then 1 else 0
  {
    var (below, all) := (set s | s in chain && lo <= s < hi - 1, set s | s in chain && lo <= s < hi);
    var last: Slot := hi - 1;
    if last in chain {
      assert all == below + {last};
    } else {
      assert all == below;
    }
  }

  /** Occupied slots are counted, each once. */
  lemma {:induction false} BlocksBetweenCounts(chain: Canonical, lo: Slot, hi: Slot)
    ensures BlocksBetween(chain, lo, hi) == |set s | s in chain && lo <= s < hi|
    decreases hi
  {
    if lo < hi {
      BlocksBetweenCounts(chain, lo, hi - 1);
      OneMoreOccupied(chain, lo, hi);
    } else {
      assert (set s | s in chain && lo <= s < hi) == {};
    }
  }

  /** The root is that of the newest block at or before the slot, and missing only when there is none. */
  lemma {:induction false} RootIsNewest(chain: Canonical, slot: Slot)
    ensures match RootAtOrBefore(chain, slot)
            case None => forall s :: s <= slot ==> s !in chain
            case Some(root) => exists s :: s in chain && IsNewest(chain, slot, s) && chain[s].root == root
  {
    if slot in chain {
      assert IsNewest(chain, slot, slot);
    } else if slot > 0 {
      RootIsNewest(chain, slot - 1);
      if RootAtOrBefore(chain, slot).Some? {
        var s :| s in chain && IsNewest(chain, slot - 1, s) && chain[s].root == RootAtOrBefore(chain, slot).value;
        assert IsNewest(chain, slot, s);
      }
    }
  }

  predicate IsNewest(chain: Canonical, slot: Slot, s: Slot) {
    s <= slot && s in chain && forall x :: s < x <= slot ==> x !in chain
  }

  lemma EarliestHitIsLeastVote(view: EpochView, chain: Canonical, v: Validator)
    ensures match EarliestHit(view, chain, v, view.Start(), view.WindowEnd())
            case None => forall s :: view.Start() <= s < view.WindowEnd() ==> !HoldsVote(view, chain, v, s)
            case Some(s) => Hit(view, chain, v, s) && IsLeastVote(view, chain, v, s)
  {
    EarliestHitIsLeast(view, chain, v, view.Start(), view.WindowEnd());
    forall s: Slot ensures Hit(view, chain, v, s) <==> HoldsVote(view, chain, v, s) {
      HitIffHoldsVote(view, chain, v, s);
    }
  }

  lemma ExpectedAtCounts(view: EpochView, chain: Canonical, duty: Duty, slot: Slot)
    requires Hit(view, chain, duty.validator, slot)
    ensures ExpectedAt(view, chain, duty, slot).details
         == Details(true, Some(slot), Some(slot - duty.slot), Some(|set b | b in chain && duty.slot < b <= slot|))
  {
    BlocksBetweenCounts(chain, duty.slot + 1, slot + 1);
    assert (set b | b in chain && duty.slot + 1 <= b < slot + 1) == (set b | b in chain && duty.slot < b <= slot);
  }

  /**
   * A duty is included if and only if a block of the window holds an attestation with the validator in its
   * attesting set; the inclusion is then in the first such block, and its delays are counted from the duty.
   */
  lemma ExpectedIffAttested(view: EpochView, chain: Canonical, duty: Duty)
    ensures var details := Expected(view, chain, duty).details;
      && (details.included <==>
            exists s :: view.Start() <= s < view.WindowEnd() && HoldsVote(view, chain, duty.validator, s))
      && (!details.included ==> details == NO_DETAILS)
      && (details.included ==>
            && details.inclusionSlot.Some? && var s := details.inclusionSlot.value;
            && IsLeastVote(view, chain, duty.validator, s)
            && details.delay == Some(s - duty.slot)
            && details.effectiveDelay == Some(|set b | b in chain && duty.slot < b <= s|))
  {
    EarliestHitIsLeastVote(view, chain, duty.validator);
    var hit := EarliestHit(view, chain, duty.validator, view.Start(), view.WindowEnd());
    if hit.Some? {
      ExpectedAtCounts(view, chain, duty, hit.value);
    }
  }

  /** The marks compare the first attestation of that block that has the validator with the chain's own roots. */
  lemma ExpectedMarks(view: EpochView, chain: Canonical, duty: Duty) returns (vote: AttestationData)
    requires Expected(view, chain, duty).details.included
    ensures var (expected, v) := (Expected(view, chain, duty), duty.validator);
      && expected.details.inclusionSlot.Some? && var s := expected.details.inclusionSlot.value;
      && s in chain
      && (exists i: nat :: IsFirst(view, chain[s].attestations, v, i) && vote == chain[s].attestations[i].data)
      && expected.head == Some(RootAtOrBefore(chain, duty.slot) == Some(vote.headRoot))
      && expected.target
         == Some(vote.target.epoch == view.epoch && RootAtOrBefore(chain, view.Start()) == Some(vote.target.root))
  {
    var s := Expected(view, chain, duty).details.inclusionSlot.value;
    EarliestHitIsLeast(view, chain, duty.validator, view.Start(), view.WindowEnd());
    FirstVoteIsFirst(view, chain[s].attestations, duty.validator);
    vote := FirstVote(view, chain[s].attestations, duty.validator).value;
  }

  function Performed(details: Details, marks: Marks): Performance {
    Performance(details, marks.head, marks.target)
  }

  // ---- Standing facts about a valid chain and its assignments ----

  ghost predicate VotesPrecedeBlocks(chain: Canonical) {
    forall slot <- chain :: forall att <- chain[slot].attestations :: att.data.slot < slot
  }

  /** The validator sits in committees of its duty slot only. */
  ghost predicate SeatedAt(committees: CommitteeMap, duty: Duty) {
    forall key <- committees :: duty.validator in committees[key] ==> key.0 == duty.slot
  }

  lemma {:induction false} SeatsHold(committees: CommitteeMap, slot: Slot, indices: seq<nat>, v: Validator)
    requires forall k <- indices :: (slot, k) in committees
    requires v in Seats(committees, slot, indices)
    ensures exists k :: (slot, k) in committees && v in committees[(slot, k)]
  {
    var n := |indices| - 1;
    if v !in committees[(slot, indices[n])] {
      SeatsHold(committees, slot, indices[..n], v);
    }
  }

  lemma VoteIsForDutySlot(view: EpochView, att: Attestation, duty: Duty)
    requires SeatedAt(view.committees, duty) && CarriesVote(view, att, duty.validator)
    ensures att.data.slot == duty.slot && EpochOf(view.spec, duty.slot) == view.epoch
  {
    var ballot := BallotOf(view.spec, view.committees, att).value;
    assert duty.validator in ballot.seats;
    if att.Electra? {
      SeatsHold(view.committees, att.data.slot, SetIndices(Bits.BitvectorOf(att.committeeBits)), duty.validator);
    }
  }

  /** A hit carries a vote for the duty slot, which lies in the epoch and strictly before the block. */
  lemma HitFacts(view: EpochView, chain: Canonical, duty: Duty, slot: Slot)
    requires SeatedAt(view.committees, duty) && VotesPrecedeBlocks(chain)
    requires Hit(view, chain, duty.validator, slot)
    ensures FirstVote(view, chain[slot].attestations, duty.validator).value.slot == duty.slot < slot
    ensures view.Start() <= duty.slot < view.End()
  {
    FirstVoteFacts(view, chain[slot].attestations, duty.validator);
    var vote := FirstVote(view, chain[slot].attestations, duty.validator).value;
    var att :| att in chain[slot].attestations && CarriesVote(view, att, duty.validator) && vote == att.data;
    VoteIsForDutySlot(view, att, duty);
    EpochOfBounds(view.spec, duty.slot, view.epoch);
  }

  lemma {:induction false} RootCarried(chain: Canonical, from: Slot, slot: Slot)
    requires from <= slot && forall s :: from < s <= slot ==> s !in chain
    ensures RootAtOrBefore(chain, slot) == RootAtOrBefore(chain, from)
  {
    if from < slot {
      RootCarried(chain, from, slot - 1);
    }
  }
}
