/** The promotion transaction (src/live/finalization.rs:116-324), statement by statement. */
module Promotion {
  import opened Wrappers
  import opened Chain
  import opened Rows
  import opened Tables

  /** The bind parameters of one promotion. */
  datatype Params = Params(
    validators: set<Validator>, target: Epoch, finalizedEpoch: Epoch, floor: Slot, roots: set<Root>)

  /** `j.status='complete' AND j.dependency=ANY(roots)`. */
  predicate Settled(t: Tables, p: Params, key: JobKey) {
    key in t.jobs && t.jobs[key].status == Complete
    && t.jobs[key].dependency.Some? && t.jobs[key].dependency.value in p.roots
  }

  function SettledPayload(t: Tables, p: Params, key: JobKey): Option<Payload> {
    if Settled(t, p, key) then t.jobs[key].payload else None
  }

  /** `EXISTS (SELECT 1 FROM live_blocks WHERE slot=s AND root=ANY(roots))`. */
  predicate BlockConfirmed(t: Tables, p: Params, slot: Slot) {
    slot in t.blocks && t.blocks[slot].root in p.roots
  }

  // ---- Replay of staged reward responses ----

  function StagedTotals(t: Tables, p: Params, k: Pair): Option<Rewards> {
    var payload := SettledPayload(t, p, AttestationJob(k.0, k.1));
    if k.0 in p.validators && k.1 <= p.target && k !in t.completed
       && payload.Some? && payload.value.AttestationPayload? && k.0 in payload.value.totals
    then Some(payload.value.totals[k.0]) else None
  }

  function TotalsReplayed(t: Tables, p: Params): Tables {
    t.(attestations := map k | k in t.attestations ::
        var staged := StagedTotals(t, p, k);
        if staged.Some? then RewardJoined(t.attestations[k], staged.value) else t.attestations[k])
  }

  function StagedProposal(spec: Spec, t: Tables, p: Params, slot: Slot): Option<ProposalRewards>
    requires slot in t.proposals
  {
    var proposer := t.proposals[slot].proposer;
    var payload := SettledPayload(t, p, ProposalJob(proposer, slot));
    if proposer in p.validators && EpochOf(spec, slot) <= p.finalizedEpoch
       && (proposer, EpochOf(spec, slot)) !in t.completed
       && payload.Some? && payload.value.ProposalPayload? && payload.value.proposer == proposer
    then Some(payload.value.rewards) else None
  }

  function ProposalsReplayed(spec: Spec, t: Tables, p: Params): Tables {
    t.(proposals := map s | s in t.proposals ::
        var staged := StagedProposal(spec, t, p, s);
        if staged.Some? then t.proposals[s].(rewards := staged.value) else t.proposals[s])
  }

  function StagedSync(spec: Spec, t: Tables, p: Params, k: (Validator, Slot)): Option<int> {
    var payload := SettledPayload(t, p, SyncJob(k.0, k.1));
    if k.0 in p.validators && EpochOf(spec, k.1) <= p.finalizedEpoch && (k.0, EpochOf(spec, k.1)) !in t.completed
       && payload.Some? && payload.value.SyncPayload? && k.0 in payload.value.amounts
    then Some(payload.value.amounts[k.0]) else None
  }

  function SyncsReplayed(spec: Spec, t: Tables, p: Params): Tables {
    t.(syncs := map k | k in t.syncs ::
        var staged := StagedSync(spec, t, p, k);
        if staged.Some? then t.syncs[k].(reward := staged) else t.syncs[k])
  }

  // ---- Inclusion and finality flags ----

  /** A positive observation on confirmed ancestry. */
  predicate InclusionConfirmed(t: Tables, p: Params, k: Pair)
    requires k in t.attestations
  {
    var details := t.attestations[k].details;
    && k.0 in p.validators && details.included && details.inclusionSlot.Some?
    && details.inclusionSlot.value >= p.floor
    && BlockConfirmed(t, p, details.inclusionSlot.value)
  }

  function InclusionsFinalized(t: Tables, p: Params): Tables {
    t.(attestations := map k | k in t.attestations ::
        if InclusionConfirmed(t, p, k) then t.attestations[k].(inclusionKnown := true, finalized := true)
        else t.attestations[k])
  }

  function CoveredSlots(t: Tables, v: Validator, lo: Slot, hi: Slot): set<Slot> {
    set s: Slot | lo <= s < hi && (v, s) in t.coverage
  }

  /** `(SELECT COUNT(*) FROM live_coverage ...) = 2*spe`. */
  predicate WindowCounted(spec: Spec, t: Tables, k: Pair) {
    |CoveredSlots(t, k.0, EpochStart(spec, k.1), EpochStart(spec, k.1 + 2))| == 2 * spec.slotsPerEpoch
  }

  predicate WindowProven(spec: Spec, t: Tables, p: Params, k: Pair)
    requires k in t.attestations
  {
    var details := t.attestations[k].details;
    && k.0 in p.validators && k.1 <= p.target && EpochStart(spec, k.1) >= p.floor
    && WindowCounted(spec, t, k)
    && (!details.included || (details.inclusionSlot.Some? && BlockConfirmed(t, p, details.inclusionSlot.value)))
  }

  function InclusionsKnown(spec: Spec, t: Tables, p: Params): Tables {
    t.(attestations := map k | k in t.attestations ::
        if WindowProven(spec, t, p, k) then t.attestations[k].(inclusionKnown := true) else t.attestations[k])
  }

  function OutcomesFinalized(spec: Spec, t: Tables, p: Params): Tables {
    t.(attestations := map k | k in t.attestations ::
        if WindowProven(spec, t, p, k) && t.attestations[k].inclusionKnown then t.attestations[k].(finalized := true)
        else t.attestations[k])
  }

  /** The slot-evidence pass: `present` agrees with the stored block, or with its absence. */
  predicate SlotEvidence(spec: Spec, t: Tables, p: Params, owner: Validator, slot: Slot, present: bool) {
    && owner in p.validators && EpochOf(spec, slot) < p.finalizedEpoch && slot >= p.floor
    && (owner, slot) in t.coverage
    && (if present then BlockConfirmed(t, p, slot) else slot !in t.blocks)
  }

  function SlotsFinalized(spec: Spec, t: Tables, p: Params): Tables {
    t.(proposals := map s | s in t.proposals ::
        var row := t.proposals[s];
        if SlotEvidence(spec, t, p, row.proposer, s, row.proposed) then row.(finalized := true) else row,
       syncs := map k | k in t.syncs ::
        var row := t.syncs[k];
        if SlotEvidence(spec, t, p, k.0, k.1, !row.missedBlock) then row.(finalized := true) else row)
  }

  // ---- Completion ----

  predicate ProposalPending(spec: Spec, t: Tables, p: Params, k: Pair, slot: Slot)
    requires slot in t.proposals
  {
    var row := t.proposals[slot];
    row.proposer == k.0 && EpochOf(spec, slot) == k.1 && row.proposed
    && !(row.rewards.Complete() && Settled(t, p, ProposalJob(k.0, slot)))
  }

  predicate SyncPending(spec: Spec, t: Tables, p: Params, k: Pair, s: (Validator, Slot))
    requires s in t.syncs
  {
    var row := t.syncs[s];
    s.0 == k.0 && EpochOf(spec, s.1) == k.1 && !row.missedBlock
    && !(row.reward.Some? && Settled(t, p, SyncJob(k.0, s.1)))
  }

  predicate RewardsSettled(spec: Spec, t: Tables, p: Params, k: Pair) {
    && Settled(t, p, AttestationJob(k.0, k.1))
    && (forall j <- t.jobs :: j.Pair(spec) == k ==> Settled(t, p, j))
    && (forall s <- t.proposals :: !ProposalPending(spec, t, p, k, s))
    && (forall s <- t.syncs :: !SyncPending(spec, t, p, k, s))
  }

  predicate Ready(spec: Spec, t: Tables, p: Params, k: Pair)
    requires k in t.attestations
  {
    var row := t.attestations[k];
    && k.0 in p.validators && k.1 <= p.target && EpochStart(spec, k.1) >= p.floor && row.inclusionKnown
    && (!row.details.included || (row.details.effectiveDelay.Some? && row.marks.Complete()))
    && row.rewards.source.Some? && row.rewards.target.Some? && row.rewards.head.Some?
    && WindowCounted(spec, t, k)
    && RewardsSettled(spec, t, p, k)
    && k !in t.completed
  }

  function ReadyPairs(spec: Spec, t: Tables, p: Params): set<Pair> {
    set k | k in t.attestations && Ready(spec, t, p, k)
  }

  ghost function MaxOf(s: set<nat>): (m: nat)
    requires s != {}
    ensures m in s && forall x <- s :: x <= m
  {
    MaxExists(s);
    var m :| m in s && forall x <- s :: x <= m;
    m
  }

  lemma {:induction false} MaxExists(s: set<nat>)
    requires s != {}
    ensures exists m :: m in s && forall x <- s :: x <= m
  {
    var x :| x in s;
    if s != {x} {
      MaxExists(s - {x});
      var m :| m in s - {x} && forall y <- s - {x} :: y <= m;
      assert forall y <- s :: y == x || y in s - {x};
      if x > m {
        assert x in s && forall y <- s :: y <= x;
      } else {
        assert m in s && forall y <- s :: y <= m;
      }
    }
  }

  function FrozenAttestations(rows: map<Pair, AttestationRow>, ready: set<Pair>): map<Pair, AttestationRow> {
    map k | k in rows :: if k in ready then rows[k].(finalized := true) else rows[k]
  }

  function FrozenProposals(spec: Spec, rows: map<Slot, ProposalRow>, ready: set<Pair>): map<Slot, ProposalRow> {
    map s | s in rows :: if (rows[s].proposer, EpochOf(spec, s)) in ready then rows[s].(finalized := true) else rows[s]
  }

  function FrozenSyncs(
    spec: Spec, rows: map<(Validator, Slot), SyncRow>, ready: set<Pair>): map<(Validator, Slot), SyncRow>
  {
    map k | k in rows :: if (k.0, EpochOf(spec, k.1)) in ready then rows[k].(finalized := true) else rows[k]
  }

  ghost function EpochsOf(v: Validator, pairs: set<Pair>): set<Epoch> {
    set k | k in pairs && k.0 == v :: k.1
  }

  ghost function Raised(row: ValidatorRow, epochs: set<Epoch>): ValidatorRow {
    if epochs == {} then row else row.(lastScanned := Greatest(row.lastScanned, MaxOf(epochs)))
  }

  ghost function RaisedWatermarks(rows: map<Validator, ValidatorRow>, ready: set<Pair>): map<Validator, ValidatorRow> {
    map v | v in rows :: Raised(rows[v], EpochsOf(v, ready))
  }

  /** The `ready` loop: freeze each pair's rows, mark it complete, raise the watermark. */
  ghost function PairsCompleted(spec: Spec, t: Tables, ready: set<Pair>): Tables {
    t.(attestations := FrozenAttestations(t.attestations, ready),
       proposals := FrozenProposals(spec, t.proposals, ready),
       syncs := FrozenSyncs(spec, t.syncs, ready),
       completed := t.completed + ready,
       validators := RaisedWatermarks(t.validators, ready))
  }

  lemma NothingCompleted(spec: Spec, t: Tables)
    ensures PairsCompleted(spec, t, {}) == t
  {
    assert FrozenAttestations(t.attestations, {}) == t.attestations;
    assert FrozenProposals(spec, t.proposals, {}) == t.proposals;
    assert FrozenSyncs(spec, t.syncs, {}) == t.syncs;
    assert RaisedWatermarks(t.validators, {}) == t.validators;
  }

  /** Every tracked, active, finalized epoch that is not complete becomes an explicit gap. */
  predicate Missing(t: Tables, p: Params, k: Pair) {
    && k.0 in p.validators && k.0 in t.started && k.0 in t.validators
    && t.started[k.0] <= k.1 <= p.target
    && ActiveAt(t.validators[k.0], k.1)
    && k !in t.completed
  }

  function GapsRecorded(t: Tables, p: Params): Tables {
    t.(gaps := t.gaps + set v, e: Epoch | v in p.validators && e <= p.target && Missing(t, p, (v, e)) :: (v, e))
  }

  /** Everything before the completion query. */
  function FlagsSettled(spec: Spec, t: Tables, p: Params): Tables {
    var replayed := SyncsReplayed(spec, ProposalsReplayed(spec, TotalsReplayed(t, p), p), p);
    SlotsFinalized(spec, OutcomesFinalized(spec, InclusionsKnown(spec, InclusionsFinalized(replayed, p), p), p), p)
  }

  ghost function Promoted(spec: Spec, t: Tables, p: Params): Tables {
    var settled := FlagsSettled(spec, t, p);
    GapsRecorded(PairsCompleted(spec, settled, ReadyPairs(spec, settled, p)), p)
  }

  /** The number the transaction returns. */
  ghost function PromotedCount(spec: Spec, t: Tables, p: Params): nat {
    |ReadyPairs(spec, FlagsSettled(spec, t, p), p)|
  }

  // ---- COUNT over keyed coverage ----

  function Interval(lo: Slot, hi: Slot): (s: set<Slot>)
    requires lo <= hi
    ensures |s| == hi - lo
    ensures forall x :: x in s <==> lo <= x < hi
    decreases hi
  {
    if lo == hi then {} else Interval(lo, hi - 1) + {hi - 1}
  }

  /** A full count means that every slot of the window is covered, and conversely. */
  lemma CountMeansEverySlot(spec: Spec, t: Tables, k: Pair)
    ensures WindowCounted(spec, t, k) <==> WindowCovered(spec, t, k)
  {
    var lo, hi := EpochStart(spec, k.1), EpochStart(spec, k.1 + 2);
    assert hi - lo == 2 * spec.slotsPerEpoch by {
      assert hi == (k.1 + 2) * spec.slotsPerEpoch == lo + 2 * spec.slotsPerEpoch;
    }
    var all, covered := Interval(lo, hi), CoveredSlots(t, k.0, lo, hi);
    if |covered| == |all| {
      SubsetOfSameSize(covered, all);
      forall s: Slot | lo <= s < hi ensures (k.0, s) in t.coverage {
        assert s in all;
      }
    }
    if WindowCovered(spec, t, k) {
      assert covered == all;
    }
  }

  ghost predicate WindowCovered(spec: Spec, t: Tables, k: Pair) {
    forall s: Slot :: EpochStart(spec, k.1) <= s < EpochStart(spec, k.1 + 2) ==> (k.0, s) in t.coverage
  }

  lemma SubsetOfSameSize<T>(a: set<T>, b: set<T>)
    requires a <= b && |a| == |b|
    ensures a == b
  {
    if !(b <= a) {
      var x :| x in b && x !in a;
      SubsetSize(a, b - {x});
    }
  }

  lemma {:induction false} SubsetSize<T>(a: set<T>, b: set<T>)
    requires a <= b
    ensures |a| <= |b|
  {
    if a != {} {
      var x :| x in a;
      SubsetSize(a - {x}, b - {x});
    }
  }
}
