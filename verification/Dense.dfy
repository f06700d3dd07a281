/** The dense epoch pipeline (src/scanner/attestations/dense.rs). */
module Dense {
  import opened Wrappers
  import opened Chain
  import opened Attestations
  import opened Rows
  import opened Outcome

  /** Fetched slots, oldest first, with the block the node returned for each. */
  ghost predicate IsWindow(blocks: seq<(Slot, Option<Block>)>, chain: Canonical, lo: Slot) {
    forall i :: 0 <= i < |blocks| ==>
      blocks[i] == (lo + i, if lo + i in chain then Some(chain[lo + i]) else None)
  }

  method FetchBlocks(chain: Canonical, lo: Slot, hi: Slot) returns (blocks: seq<(Slot, Option<Block>)>)
    requires lo <= hi
    ensures |blocks| == hi - lo && IsWindow(blocks, chain, lo)
  {
    blocks := [];
    for slot := lo to hi
      invariant |blocks| == slot - lo && IsWindow(blocks, chain, lo)
    {
      blocks := blocks + [(slot, if slot in chain then Some(chain[slot]) else None)];
    }
  }

  method MissedSlots(blocks: seq<(Slot, Option<Block>)>, ghost chain: Canonical, lo: Slot) returns (missed: set<Slot>)
    requires IsWindow(blocks, chain, lo)
    ensures forall s :: s in missed <==> lo <= s < lo + |blocks| && s !in chain
  {
    missed := {};
    for i := 0 to |blocks|
      invariant forall s :: s in missed <==> lo <= s < lo + i && s !in chain
    {
      if blocks[i].1.None? {
        missed := missed + {blocks[i].0};
      }
    }
  }

  /** Every slot of the epoch gets its own root or the one carried over the skipped slots before it. */
  method BuildBlockRootMap(spec: Spec, chain: Canonical, start: Slot, blocks: seq<(Slot, Option<Block>)>)
    returns (r: Result<map<Slot, Root>>)
    requires |blocks| == spec.slotsPerEpoch && IsWindow(blocks, chain, start)
    ensures r.Ok? <==> exists s :: SaturatingSub(start, spec.slotsPerEpoch) <= s <= start && s in chain
    ensures r.Ok? ==> forall s :: s in r.value <==> start <= s < start + spec.slotsPerEpoch
    ensures r.Ok? ==> forall s :: start <= s < start + spec.slotsPerEpoch ==>
                                    RootAtOrBefore(chain, s) == Some(r.value[s])
  {
    var end := start + spec.slotsPerEpoch;
    var roots: map<Slot, Root> := map[];
    for i := 0 to |blocks|
      invariant forall s :: s in roots <==> start <= s < start + i && s in chain
      invariant forall s <- roots :: roots[s] == chain[s].root
    {
      if blocks[i].1.Some? {
        roots := roots[blocks[i].0 := blocks[i].1.value.root];
      }
    }

    var lastKnown: Option<Root> := None;
    if start > 0 && start !in roots {
      lastKnown := LookBack(chain, SaturatingSub(start, spec.slotsPerEpoch), start);
    }
    if start !in roots && lastKnown.None? {
      return Err(InconsistentBeaconData);
    }

    for slot := start to end
      invariant forall s :: s in roots <==> start <= s < slot || (slot <= s < end && s in chain)
      invariant forall s :: start <= s < slot ==> RootAtOrBefore(chain, s) == Some(roots[s])
      invariant forall s :: slot <= s < end && s in chain ==> roots[s] == chain[s].root
      invariant slot == start && start !in chain && start > 0 ==>
                  lastKnown.Some? && RootAtOrBefore(chain, start - 1) == lastKnown
      invariant slot > start ==> lastKnown.Some? && RootAtOrBefore(chain, slot - 1) == lastKnown
    {
      if slot in roots {
        lastKnown := Some(roots[slot]);
      } else {
        roots := roots[slot := lastKnown.value];
      }
    }
    assert start in roots && RootAtOrBefore(chain, start).Some?;
    return Ok(roots);
  }

  /** The newest block in `[lo, start)`. */
  method LookBack(chain: Canonical, lo: Slot, start: Slot) returns (root: Option<Root>)
    requires lo < start
    ensures root.Some? <==> exists s :: lo <= s < start && s in chain
    ensures root.Some? ==> RootAtOrBefore(chain, start - 1) == root
  {
    var prior := start;
    while prior > lo
      invariant lo <= prior <= start
      invariant forall s :: prior <= s < start ==> s !in chain
    {
      prior := prior - 1;
      if prior in chain {
        RootCarried(chain, prior, start - 1);
        return Some(chain[prior].root);
      }
    }
    return None;
  }

  /** The record of the earliest block in `[lo, hi)` that yields one. */
  ghost function Collected(view: EpochView, ctx: VoteContext, chain: Canonical, v: Validator, lo: Slot, hi: Slot)
    : Option<Inclusion>
  {
    if lo >= hi then None
    else Collected(view, ctx, chain, v, lo, hi - 1).Or(
           if hi - 1 in chain then FirstInclusion(view, chain[hi - 1].attestations, hi - 1, ctx, v) else None)
  }

  ghost predicate AllCollected(
    view: EpochView, ctx: VoteContext, chain: Canonical, scan: set<Validator>, lo: Slot, hi: Slot,
    inclusions: map<Validator, Inclusion>)
  {
    forall v :: (if v in scan then Collected(view, ctx, chain, v, lo, hi) else None) == Entry(inclusions, v)
  }

  method CollectInclusions(
    view: EpochView, blocks: seq<(Slot, Option<Block>)>, scan: set<Validator>, ctx: VoteContext,
    ghost chain: Canonical, ghost lo: Slot)
    returns (r: Result<map<Validator, Inclusion>>)
    requires IsWindow(blocks, chain, lo)
    ensures r.Ok? <==> forall s :: lo <= s < lo + |blocks| && s in chain ==>
      Extractable(view, chain[s].attestations, s, scan, ctx)
    ensures r.Ok? ==> AllCollected(view, ctx, chain, scan, lo, lo + |blocks|, r.value)
  {
    var inclusions: map<Validator, Inclusion> := map[];
    for i := 0 to |blocks|
      invariant forall s :: lo <= s < lo + i && s in chain ==> Extractable(view, chain[s].attestations, s, scan, ctx)
      invariant AllCollected(view, ctx, chain, scan, lo, lo + i, inclusions)
    {
      var (slot, block) := blocks[i];
      if block.Some? {
        var next := ExtractInclusions(view, block.value.attestations, slot, scan, ctx, inclusions);
        if next.Err? {
          return Err(next.error);
        }
        CollectedStep(view, ctx, chain, scan, lo, slot, inclusions, next.value);
        inclusions := next.value;
      }
    }
    return Ok(inclusions);
  }

  lemma CollectedStep(
    view: EpochView, ctx: VoteContext, chain: Canonical, scan: set<Validator>, lo: Slot, slot: Slot,
    before: map<Validator, Inclusion>, after: map<Validator, Inclusion>)
    requires lo <= slot && slot in chain
    requires AllCollected(view, ctx, chain, scan, lo, slot, before)
    requires Extracted(view, chain[slot].attestations, slot, scan, ctx, before, after)
    ensures AllCollected(view, ctx, chain, scan, lo, slot + 1, after)
  {
    forall v
      ensures (if v in scan then Collected(view, ctx, chain, v, lo, slot + 1) else None) == Entry(after, v)
    {
      assert Entry(before, v).Or(if v in scan then FirstInclusion(view, chain[slot].attestations, slot, ctx, v)
          else None)
          == Entry(after, v);
    }
  }

  /** Keep-first over ascending blocks records exactly the earliest hit. */
  lemma {:induction false} CollectedIsEarliest(
    view: EpochView, ctx: VoteContext, chain: Canonical, duty: Duty, lo: Slot, hi: Slot)
    requires SeatedAt(view.committees, duty) && VotesPrecedeBlocks(chain)
    requires forall s :: view.Start() <= s < view.End() ==> s in ctx.blockRoots
    ensures var hit := EarliestHit(view, chain, duty.validator, lo, hi);
            var found := Collected(view, ctx, chain, duty.validator, lo, hi);
            match hit
            case None => found.None?
            case Some(slot) =>
              && slot in chain && found.Some?
              && found == FirstInclusion(view, chain[slot].attestations, slot, ctx, duty.validator)
    decreases hi
  {
    if lo < hi {
      CollectedIsEarliest(view, ctx, chain, duty, lo, hi - 1);
      if Hit(view, chain, duty.validator, hi - 1) {
        HitFacts(view, chain, duty, hi - 1);
      }
    }
  }

  /** `effective_inclusion_delay`: the raw delay less the missed slots strictly between. */
  function EffectiveInclusionDelay(dutySlot: Slot, inclusionSlot: Slot, rawDelay: nat, missed: set<Slot>): nat {
    SaturatingSub(rawDelay, |set s | s in missed && dutySlot + 1 <= s < inclusionSlot|)
  }

  lemma {:induction false} MissedAndPresent(chain: Canonical, missed: set<Slot>, lo: Slot, hi: Slot)
    requires lo <= hi && forall s :: lo <= s < hi ==> (s in missed <==> s !in chain)
    ensures |set s | s in missed && lo <= s < hi| + BlocksBetween(chain, lo, hi) == hi - lo
  {
    if lo < hi {
      MissedAndPresent(chain, missed, lo, hi - 1);
      var before, all := set s | s in missed && lo <= s < hi - 1, set s | s in missed && lo <= s < hi;
      assert all == if hi - 1 in missed then before + {hi - 1} else before;
    } else {
      assert (set s | s in missed && lo <= s < hi) == {};
    }
  }

  /** Every tracked validator must have a duty and a reward before anything is written. */
  method ValidateEpochResponse(tracked: set<Validator>, duties: seq<Duty>, rewards: map<Validator, Reward>)
    returns (r: Result<()>)
    ensures r.Ok? <==> Answers(duties, rewards, tracked)
  {
    var assignedTo := set d <- duties :: d.validator;
    var pending := tracked;
    while pending != {}
      invariant pending <= tracked
      invariant forall v <- tracked - pending :: v in rewards && exists d :: d in duties && d.validator == v
    {
      var v :| v in pending;
      if v !in assignedTo || v !in rewards {
        return Err(InconsistentBeaconData);
      }
      pending := pending - {v};
    }
    assert tracked - pending == tracked;
    return Ok(());
  }

  function RewardsOf(reward: Reward): Rewards {
    Rewards(Some(reward.source), Some(reward.target), Some(reward.head), reward.inactivity)
  }

  /** A row as handed to the upsert, with the duty it belongs to. */
  datatype DutyWrite = DutyWrite(duty: Duty, write: AttestationWrite)

  ghost predicate MatchesReference(view: EpochView, chain: Canonical, w: DutyWrite) {
    SeatedAt(view.committees, w.duty) && VotesPrecedeBlocks(chain) ==>
      Performed(w.write.details, w.write.marks) == Expected(view, chain, w.duty)
  }

  /** Direct votes are judged against the justified checkpoint; without one, inclusion vouches for the source. */
  ghost predicate JudgesSource(view: EpochView, chain: Canonical, source: Option<Checkpoint>, w: DutyWrite) {
    SeatedAt(view.committees, w.duty) && VotesPrecedeBlocks(chain) ==>
      match EarliestHit(view, chain, w.duty.validator, view.Start(), view.WindowEnd())
      case None => w.write.marks.source.None?
      case Some(slot) =>
        Hit(view, chain, w.duty.validator, slot) ==>
          var vote := FirstVote(view, chain[slot].attestations, w.duty.validator).value;
          w.write.marks.source == Some(source.None? || vote.source == source.value)
  }

  /** Every attestation for the epoch in this block can be read: well formed, and not from the future. */
  ghost predicate Readable(view: EpochView, atts: seq<Attestation>, slot: Slot) {
    forall att <- atts :: EpochOf(view.spec, att.data.slot) == view.epoch ==>
      BallotOf(view.spec, view.committees, att).Some? && att.data.slot <= slot
  }

  /** With a root for every slot of the epoch, nothing else can stop the scan of a block. */
  lemma ReadableIsExtractable(
    view: EpochView, atts: seq<Attestation>, slot: Slot, scan: set<Validator>, ctx: VoteContext)
    requires forall s :: view.Start() <= s < view.End() ==> s in ctx.blockRoots
    ensures Extractable(view, atts, slot, scan, ctx) <==> Readable(view, atts, slot)
  {
    forall att | att in atts && EpochOf(view.spec, att.data.slot) == view.epoch
      ensures att.data.slot in ctx.blockRoots
    {
      EpochOfBounds(view.spec, att.data.slot, view.epoch);
    }
  }

  /** What an archive scan of the epoch needs: a block in the look-back, readable blocks, and full responses. */
  ghost predicate Scannable(
    view: EpochView, chain: Canonical, duties: seq<Duty>, rewards: map<Validator, Reward>, scan: set<Validator>)
  {
    && (exists s :: SaturatingSub(view.Start(), view.spec.slotsPerEpoch) <= s <= view.Start() && s in chain)
    && WindowReadable(view, chain)
    && Answers(duties, rewards, scan)
  }

  ghost predicate WindowReadable(view: EpochView, chain: Canonical) {
    forall s :: view.Start() <= s < view.WindowEnd() && s in chain ==> Readable(view, chain[s].attestations, s)
  }

  lemma ReadableWindow(view: EpochView, chain: Canonical, scan: set<Validator>, ctx: VoteContext)
    requires forall s :: view.Start() <= s < view.End() ==> s in ctx.blockRoots
    ensures WindowReadable(view, chain) <==>
      forall s :: view.Start() <= s < view.WindowEnd() && s in chain ==>
        Extractable(view, chain[s].attestations, s, scan, ctx)
  {
    forall s | s in chain
      ensures Extractable(view, chain[s].attestations, s, scan, ctx) <==> Readable(view, chain[s].attestations, s)
    {
      ReadableIsExtractable(view, chain[s].attestations, s, scan, ctx);
    }
  }

  ghost predicate Answers(duties: seq<Duty>, rewards: map<Validator, Reward>, scan: set<Validator>) {
    forall v <- scan :: v in rewards && exists d :: d in duties && d.validator == v
  }

  /** The columns that do not depend on the chain. */
  predicate IsWriteFor(
    w: DutyWrite, duties: seq<Duty>, rewards: map<Validator, Reward>, scan: set<Validator>, finalized: bool)
  {
    && w.duty in duties && w.duty.validator in scan && w.duty.validator in rewards
    && w.write.finalized == finalized
    && w.write.assignment == Assignment(w.duty.slot, w.duty.committeeIndex, w.duty.position)
    && var reward := rewards[w.duty.validator];
       w.write.rewards == Rewards(Some(reward.source), Some(reward.target), Some(reward.head), reward.inactivity)
  }

  ghost predicate Faithful(view: EpochView, chain: Canonical, ctx: VoteContext) {
    && ctx.targetEpoch == view.epoch
    && RootAtOrBefore(chain, view.Start()) == Some(ctx.targetRoot)
    && (forall s :: view.Start() <= s < view.End() ==>
          s in ctx.blockRoots && RootAtOrBefore(chain, s) == Some(ctx.blockRoots[s]))
  }

  /** The blocks of the inclusion window, with what votes in them are judged by. */
  datatype Window = Window(blocks: seq<(Slot, Option<Block>)>, missed: set<Slot>, context: VoteContext)

  method FetchWindow(view: EpochView, chain: Canonical, source: Checkpoint) returns (r: Result<Window>)
    ensures r.Ok? <==> exists s ::
      SaturatingSub(view.Start(), view.spec.slotsPerEpoch) <= s <= view.Start() && s in chain
    ensures r.Ok? ==>
      && IsWindow(r.value.blocks, chain, view.Start()) && view.Start() + |r.value.blocks| == view.WindowEnd()
      && (forall s :: view.Start() <= s < view.WindowEnd() ==> (s in r.value.missed <==> s !in chain))
      && Faithful(view, chain, r.value.context) && r.value.context.source == Some(source)
  {
    var start := view.Start();
    assert view.End() == start + view.spec.slotsPerEpoch;
    assert view.WindowEnd() == start + view.spec.slotsPerEpoch * 2;
    var all := FetchBlocks(chain, start, start + view.spec.slotsPerEpoch * 2);
    var missed := MissedSlots(all, chain, start);
    var roots :- BuildBlockRootMap(view.spec, chain, start, all[..view.spec.slotsPerEpoch]);
    return Ok(Window(all, missed, VoteContext(roots, roots[start], view.epoch, Some(source))));
  }

  /**
   * The attestation stage of a dense scan; `source` is the justified checkpoint the node reports. It succeeds exactly
   * on a scannable epoch, with a write per scanned duty, each carrying the reference outcome.
   */
  method ScanEpoch(
    view: EpochView, chain: Canonical, source: Checkpoint,
    duties: seq<Duty>, rewards: map<Validator, Reward>, scan: set<Validator>, finalized: bool)
    returns (r: Result<seq<DutyWrite>>)
    ensures r.Ok? <==> Scannable(view, chain, duties, rewards, scan)
    ensures r.Ok? ==> forall d <- duties :: d.validator in scan ==> exists w :: w in r.value && w.duty == d
    ensures r.Ok? ==> forall w <- r.value :: IsWriteFor(w, duties, rewards, scan, finalized)
    ensures r.Ok? ==> forall w <- r.value ::
      MatchesReference(view, chain, w) && JudgesSource(view, chain, Some(source), w)
  {
    var window :- FetchWindow(view, chain, source);
    ReadableWindow(view, chain, scan, window.context);
    var inclusions :- CollectInclusions(view, window.blocks, scan, window.context, chain, view.Start());
    var valid :- ValidateEpochResponse(scan, duties, rewards);
    var writes := WriteDutyRows(
      view, chain, window.context, inclusions, window.missed, duties, rewards, scan, finalized);
    return Ok(writes);
  }

  method WriteDutyRows(
    ghost view: EpochView, ghost chain: Canonical, ghost ctx: VoteContext, inclusions: map<Validator, Inclusion>,
    missed: set<Slot>, duties: seq<Duty>, rewards: map<Validator, Reward>, scan: set<Validator>, finalized: bool)
    returns (writes: seq<DutyWrite>)
    requires Faithful(view, chain, ctx)
    requires AllCollected(view, ctx, chain, scan, view.Start(), view.WindowEnd(), inclusions)
    requires forall s :: view.Start() <= s < view.WindowEnd() ==> (s in missed <==> s !in chain)
    requires forall v <- scan :: v in rewards
    ensures forall d <- duties :: d.validator in scan ==> exists w :: w in writes && w.duty == d
    ensures forall w <- writes :: IsWriteFor(w, duties, rewards, scan, finalized)
    ensures forall w <- writes :: MatchesReference(view, chain, w) && JudgesSource(view, chain, ctx.source, w)
  {
    writes := [];
    for i := 0 to |duties|
      invariant forall k :: 0 <= k < i && duties[k].validator in scan ==> exists w :: w in writes && w.duty == duties[k]
      invariant forall w <- writes :: IsWriteFor(w, duties, rewards, scan, finalized)
      invariant forall w <- writes :: MatchesReference(view, chain, w) && JudgesSource(view, chain, ctx.source, w)
    {
      var duty := duties[i];
      if duty.validator !in scan {
        continue;
      }
      var w := DutyWrite(duty, DutyRow(duty, inclusions, rewards[duty.validator], missed, finalized));
      DutyRowMatches(view, chain, ctx, duty, inclusions, rewards[duty.validator], missed, finalized, scan);
      ghost var before := writes;
      writes := writes + [w];
      assert w in writes && forall x :: x in before ==> x in writes;
    }
  }

  /** One iteration of `write_duty_rows`. */
  function DutyRow(
    duty: Duty, inclusions: map<Validator, Inclusion>, reward: Reward, missed: set<Slot>, finalized: bool)
    : AttestationWrite
  {
    var assignment := Assignment(duty.slot, duty.committeeIndex, duty.position);
    match Entry(inclusions, duty.validator)
    case None => AttestationWrite(assignment, NO_DETAILS, NO_MARKS, RewardsOf(reward), finalized)
    case Some(inc) =>
      AttestationWrite(
        assignment,
        Details(true, Some(inc.slot), Some(inc.delay),
                Some(EffectiveInclusionDelay(duty.slot, inc.slot, inc.delay, missed))),
        Marks(Some(inc.marks.source), Some(inc.marks.target), Some(inc.marks.head)),
        RewardsOf(reward), finalized)
  }

  lemma DutyRowMatches(
    view: EpochView, chain: Canonical, ctx: VoteContext, duty: Duty,
    inclusions: map<Validator, Inclusion>, reward: Reward, missed: set<Slot>, finalized: bool, scan: set<Validator>)
    requires Faithful(view, chain, ctx) && duty.validator in scan
    requires AllCollected(view, ctx, chain, scan, view.Start(), view.WindowEnd(), inclusions)
    requires forall s :: view.Start() <= s < view.WindowEnd() ==> (s in missed <==> s !in chain)
    ensures var w := DutyWrite(duty, DutyRow(duty, inclusions, reward, missed, finalized));
      MatchesReference(view, chain, w) && JudgesSource(view, chain, ctx.source, w)
  {
    if SeatedAt(view.committees, duty) && VotesPrecedeBlocks(chain) {
      var v := duty.validator;
      CollectedIsEarliest(view, ctx, chain, duty, view.Start(), view.WindowEnd());
      EarliestHitIsLeast(view, chain, v, view.Start(), view.WindowEnd());
      var hit := EarliestHit(view, chain, v, view.Start(), view.WindowEnd());
      assert Entry(inclusions, v) == Collected(view, ctx, chain, v, view.Start(), view.WindowEnd());
      if hit.Some? {
        HitFacts(view, chain, duty, hit.value);
        AdjustedDelay(chain, missed, duty.slot, hit.value);
      }
    }
  }

  /** Subtracting missed slots counts the blocks after the duty slot through inclusion. */
  lemma AdjustedDelay(chain: Canonical, missed: set<Slot>, dutySlot: Slot, slot: Slot)
    requires dutySlot < slot && slot in chain
    requires forall s :: dutySlot < s < slot ==> (s in missed <==> s !in chain)
    ensures EffectiveInclusionDelay(dutySlot, slot, slot - dutySlot, missed)
        == BlocksBetween(chain, dutySlot + 1, slot + 1)
  {
    MissedAndPresent(chain, missed, dutySlot + 1, slot);
  }
}
