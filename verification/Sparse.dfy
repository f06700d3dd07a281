/** The per-duty forward pipeline for a few validators (src/scanner/attestations/sparse.rs). */
module Sparse {
  import opened Wrappers
  import opened Chain
  import opened Attestations
  import opened Rows
  import opened Outcome
  import opened Dense

  /** A skipped duty or boundary slot votes for the preceding block; two epochs are searched. */
  method FindRootAtOrBefore(spec: Spec, chain: Canonical, slot: Slot) returns (r: Result<Root>)
    ensures r.Ok? <==> RootInReach(spec, chain, slot)
    ensures r.Ok? ==> RootAtOrBefore(chain, slot) == Some(r.value)
  {
    var lo := SaturatingSub(slot, spec.slotsPerEpoch * 2);
    var prior := slot + 1;
    while prior > lo
      invariant lo <= prior <= slot + 1
      invariant forall s :: prior <= s <= slot ==> s !in chain
    {
      prior := prior - 1;
      if prior in chain {
        RootCarried(chain, prior, slot);
        return Ok(chain[prior].root);
      }
    }
    return Err(BeaconDataUnavailable);
  }

  /** Context of one duty: its own slot and the epoch boundary, no source. */
  ghost predicate IsDutyContext(view: EpochView, chain: Canonical, duty: Duty, ctx: VoteContext) {
    && ctx.targetEpoch == view.epoch && ctx.source.None?
    && RootAtOrBefore(chain, view.Start()) == Some(ctx.targetRoot)
    && ctx.blockRoots.Keys == {duty.slot}
    && RootAtOrBefore(chain, duty.slot) == Some(ctx.blockRoots[duty.slot])
  }

  /** `found` is the record of the first hit after the duty slot, with the skipped slots before it. */
  ghost predicate IsFirstFind(
    view: EpochView, chain: Canonical, duty: Duty, ctx: VoteContext, found: Option<(Inclusion, nat)>)
  {
    match found
    case None => forall s :: duty.slot < s < view.WindowEnd() ==> !Hit(view, chain, duty.validator, s)
    case Some((inclusion, missed)) =>
      var slot := inclusion.slot;
      && duty.slot < slot < view.WindowEnd()
      && Hit(view, chain, duty.validator, slot)
      && (forall s :: duty.slot < s < slot ==> !Hit(view, chain, duty.validator, s))
      && FirstInclusion(view, chain[slot].attestations, slot, ctx, duty.validator) == Some(inclusion)
      && missed + BlocksBetween(chain, duty.slot + 1, slot) == slot - duty.slot - 1
  }

  ghost predicate RootInReach(spec: Spec, chain: Canonical, slot: Slot) {
    exists s :: SaturatingSub(slot, spec.slotsPerEpoch * 2) <= s <= slot && s in chain
  }

  /** No vote of the duty's validator in the slots after the duty and before `slot`. */
  ghost predicate NotFoundBefore(view: EpochView, chain: Canonical, duty: Duty, slot: Slot) {
    forall s :: duty.slot < s < slot ==> !Hit(view, chain, duty.validator, s)
  }

  /** Every block of the walk can be read: those after the duty slot, through the first that carries the vote. */
  ghost predicate Walkable(view: EpochView, chain: Canonical, duty: Duty, ctx: VoteContext) {
    forall s :: duty.slot < s < view.WindowEnd() && s in chain && NotFoundBefore(view, chain, duty, s) ==>
      Extractable(view, chain[s].attestations, s, {duty.validator}, ctx)
  }

  /** Read without finding the vote up to `slot`. */
  ghost predicate WalkedTo(view: EpochView, chain: Canonical, duty: Duty, ctx: VoteContext, slot: Slot) {
    && NotFoundBefore(view, chain, duty, slot)
    && forall s :: duty.slot < s < slot && s in chain ==>
          Extractable(view, chain[s].attestations, s, {duty.validator}, ctx)
  }

  /** An unreadable block ends the walk in failure, the vote in success; a readable block without it lets it go on. */
  lemma WalkDecidedAt(view: EpochView, chain: Canonical, duty: Duty, ctx: VoteContext, slot: Slot)
    requires WalkedTo(view, chain, duty, ctx, slot) && duty.slot < slot < view.WindowEnd() && slot in chain
    ensures var readable := Extractable(view, chain[slot].attestations, slot, {duty.validator}, ctx);
      && (!readable ==> !Walkable(view, chain, duty, ctx))
      && (readable && Hit(view, chain, duty.validator, slot) ==> Walkable(view, chain, duty, ctx))
      && (readable && !Hit(view, chain, duty.validator, slot) ==> WalkedTo(view, chain, duty, ctx, slot + 1))
  {
  }

  /** Slots after the duty in turn, up to the first block that carries the vote. */
  method WalkForward(view: EpochView, chain: Canonical, duty: Duty, ctx: VoteContext)
    returns (r: Result<Option<(Inclusion, nat)>>)
    ensures r.Ok? <==> Walkable(view, chain, duty, ctx)
    ensures r.Ok? ==> IsFirstFind(view, chain, duty, ctx, r.value)
  {
    var missedBefore := 0;
    var slot := duty.slot + 1;
    while slot < view.WindowEnd()
      invariant duty.slot < slot && WalkedTo(view, chain, duty, ctx, slot)
      invariant missedBefore + BlocksBetween(chain, duty.slot + 1, slot) == slot - duty.slot - 1
      decreases view.WindowEnd() - slot
    {
      if slot !in chain {
        missedBefore := missedBefore + 1;
      } else {
        var found := TryBlock(view, chain[slot].attestations, slot, duty.validator, ctx);
        WalkDecidedAt(view, chain, duty, ctx, slot);
        if found.Err? {
          return Err(found.error);
        }
        if found.value.Some? {
          return Ok(Some((found.value.value, missedBefore)));
        }
      }
      slot := slot + 1;
    }
    return Ok(None);
  }

  /** The duty's vote in one block. */
  method TryBlock(view: EpochView, atts: seq<Attestation>, slot: Slot, v: Validator, ctx: VoteContext)
    returns (r: Result<Option<Inclusion>>)
    ensures r.Ok? <==> Extractable(view, atts, slot, {v}, ctx)
    ensures r.Ok? ==> r.value == FirstInclusion(view, atts, slot, ctx, v)
    ensures r.Ok? ==> (r.value.Some? <==> FirstVote(view, atts, v).Some?)
    ensures r.Ok? && r.value.Some? ==> r.value.value.slot == slot
  {
    var inclusions := ExtractInclusions(view, atts, slot, {v}, ctx, map[]);
    if inclusions.Err? {
      return Err(inclusions.error);
    }
    VotesAreRecorded(view, atts, slot, {v}, ctx, v);
    assert Entry(inclusions.value, v) == FirstInclusion(view, atts, slot, ctx, v) by {
      assert Entry(map[], v).None?;
    }
    return Ok(if v in inclusions.value then Some(inclusions.value[v]) else None);
  }

  /** It fails exactly when a root is out of reach or a block of the walk cannot be read. */
  method ScanForwardForInclusion(view: EpochView, chain: Canonical, duty: Duty)
    returns (r: Result<Option<(Inclusion, nat)>>, ghost ctx: VoteContext)
    ensures r.Ok? <==>
      RootInReach(view.spec, chain, view.Start()) && RootInReach(view.spec, chain, duty.slot)
          && Walkable(view, chain, duty, ctx)
    ensures RootInReach(view.spec, chain, view.Start()) && RootInReach(view.spec, chain, duty.slot) ==>
      IsDutyContext(view, chain, duty, ctx)
    ensures r.Ok? ==> IsDutyContext(view, chain, duty, ctx) && IsFirstFind(view, chain, duty, ctx, r.value)
  {
    var targetRoot := FindRootAtOrBefore(view.spec, chain, view.Start());
    var headRoot := FindRootAtOrBefore(view.spec, chain, duty.slot);
    if targetRoot.Err? || headRoot.Err? {
      ctx := VoteContext(map[], 0, 0, None);
      return Err(BeaconDataUnavailable), ctx;
    }
    ctx := VoteContext(map[duty.slot := headRoot.value], targetRoot.value, view.epoch, None);
    r := WalkForward(view, chain, duty,
      VoteContext(map[duty.slot := headRoot.value], targetRoot.value, view.epoch, None));
  }

  /** The row derived from the reward response and the find; direct votes then replace inferred marks. */
  function SparseRow(duty: Duty, reward: Reward, found: Option<(Inclusion, nat)>, finalized: bool): AttestationWrite {
    var assignment := Assignment(duty.slot, duty.committeeIndex, duty.position);
    var rewards := RewardsOf(reward);
    match found
    case Some((inclusion, missed)) =>
      var delay := inclusion.slot - duty.slot;
      AttestationWrite(
        assignment, Details(true, Some(inclusion.slot), Some(delay), Some(delay - missed)),
        Marks(Some(inclusion.marks.source), Some(inclusion.marks.target), Some(inclusion.marks.head)), rewards,
          finalized)
    case None =>
      AttestationWrite(assignment, Details(false, None, reward.inclusionDelay, None), rewards.Inferred(), rewards,
        finalized)
  }

  /** The reference outcome, except that a miss keeps the delay its reward response reports. */
  function ReportedOutcome(expected: Performance, reward: Reward): Performance {
    if expected.details.included then expected
    else expected.(details := expected.details.(delay := reward.inclusionDelay))
  }

  ghost predicate MatchesReported(view: EpochView, chain: Canonical, w: DutyWrite, reward: Reward) {
    SeatedAt(view.committees, w.duty) && VotesPrecedeBlocks(chain) ==>
      Performed(w.write.details, w.write.marks) == ReportedOutcome(Expected(view, chain, w.duty), reward)
  }

  lemma SparseRowMatches(
    view: EpochView, chain: Canonical, ctx: VoteContext, duty: Duty, reward: Reward,
    found: Option<(Inclusion, nat)>, finalized: bool)
    requires IsDutyContext(view, chain, duty, ctx) && IsFirstFind(view, chain, duty, ctx, found)
    requires found.None? ==> reward.source <= 0 && reward.target <= 0 && reward.head <= 0
    ensures var w := DutyWrite(duty, SparseRow(duty, reward, found, finalized));
      MatchesReported(view, chain, w, reward) && JudgesSource(view, chain, None, w)
  {
    if SeatedAt(view.committees, duty) && VotesPrecedeBlocks(chain) {
      var v := duty.validator;
      EarliestHitIsLeast(view, chain, v, view.Start(), view.WindowEnd());
      var hit := EarliestHit(view, chain, v, view.Start(), view.WindowEnd());
      if hit.Some? {
        HitFacts(view, chain, duty, hit.value);
      }
      if found.Some? {
        var slot := found.value.0.slot;
        HitFacts(view, chain, duty, slot);
        assert hit == Some(slot);
      }
    }
  }

  /**
   * What a duty needs: both roots in reach, a readable walk, and no reward that a missed vote could not have earned.
   */
  ghost predicate DutyScannable(view: EpochView, chain: Canonical, duty: Duty, reward: Reward) {
    && RootInReach(view.spec, chain, view.Start()) && RootInReach(view.spec, chain, duty.slot)
    && (forall ctx :: IsDutyContext(view, chain, duty, ctx) ==> Walkable(view, chain, duty, ctx))
    && (NotFoundBefore(view, chain, duty, view.WindowEnd()) ==>
          reward.source <= 0 && reward.target <= 0 && reward.head <= 0)
  }

  lemma DutyContextIsUnique(view: EpochView, chain: Canonical, duty: Duty, a: VoteContext, b: VoteContext)
    requires IsDutyContext(view, chain, duty, a) && IsDutyContext(view, chain, duty, b)
    ensures a == b
  {
    assert a.blockRoots == b.blockRoots;
  }

  lemma WalkDecides(view: EpochView, chain: Canonical, duty: Duty, ctx: VoteContext)
    requires IsDutyContext(view, chain, duty, ctx)
    ensures Walkable(view, chain, duty, ctx) <==>
      forall c :: IsDutyContext(view, chain, duty, c) ==> Walkable(view, chain, duty, c)
  {
    forall c | IsDutyContext(view, chain, duty, c) ensures c == ctx {
      DutyContextIsUnique(view, chain, duty, c, ctx);
    }
  }

  ghost predicate AllScannable(
    view: EpochView, chain: Canonical, duties: seq<Duty>, rewards: map<Validator, Reward>, scan: set<Validator>)
  {
    forall d <- duties :: d.validator in scan && d.validator in rewards ==>
      DutyScannable(view, chain, d, rewards[d.validator])
  }

  /** The row of one duty, unless it is not scannable. */
  method ScanDuty(view: EpochView, chain: Canonical, duty: Duty, reward: Reward, finalized: bool)
    returns (r: Result<DutyWrite>)
    ensures r.Ok? <==> DutyScannable(view, chain, duty, reward)
    ensures r.Ok? ==>
      && r.value.duty == duty && r.value.write.finalized == finalized && r.value.write.rewards == RewardsOf(reward)
      && r.value.write.assignment == Assignment(duty.slot, duty.committeeIndex, duty.position)
      && MatchesReported(view, chain, r.value, reward) && JudgesSource(view, chain, None, r.value)
  {
    var found, ctx := ScanForwardForInclusion(view, chain, duty);
    if RootInReach(view.spec, chain, view.Start()) && RootInReach(view.spec, chain, duty.slot) {
      WalkDecides(view, chain, duty, ctx);
    }
    if found.Err? {
      return Err(found.error);
    }
    assert found.value.None? <==> NotFoundBefore(view, chain, duty, view.WindowEnd());
    if found.value.None? && (reward.source > 0 || reward.target > 0 || reward.head > 0) {
      return Err(InconsistentBeaconData);
    }
    SparseRowMatches(view, chain, ctx, duty, reward, found.value, finalized);
    return Ok(DutyWrite(duty, SparseRow(duty, reward, found.value, finalized)));
  }

  /** The attestation stage of a sparse scan. It succeeds exactly when every scanned duty is scannable and answered. */
  method ScanEpochSparse(
    view: EpochView, chain: Canonical, duties: seq<Duty>, rewards: map<Validator, Reward>,
    scan: set<Validator>, finalized: bool)
    returns (r: Result<seq<DutyWrite>>)
    ensures r.Ok? <==>
      scan == {} || (Answers(duties, rewards, scan) && AllScannable(view, chain, duties, rewards, scan))
    ensures r.Ok? ==> forall d <- duties :: d.validator in scan ==> exists w :: w in r.value && w.duty == d
    ensures r.Ok? ==> forall w <- r.value :: IsWriteFor(w, duties, rewards, scan, finalized)
    ensures r.Ok? ==> forall w <- r.value ::
      && w.duty.validator in rewards && MatchesReported(view, chain, w, rewards[w.duty.validator])
      && JudgesSource(view, chain, None, w)
  {
    if scan == {} {
      return Ok([]);
    }
    var valid :- ValidateEpochResponse(scan, duties, rewards);
    var writes: seq<DutyWrite> := [];
    for i := 0 to |duties|
      invariant AllScannable(view, chain, duties[..i], rewards, scan)
      invariant forall k :: 0 <= k < i && duties[k].validator in scan ==> exists w :: w in writes && w.duty == duties[k]
      invariant forall w <- writes :: IsWriteFor(w, duties, rewards, scan, finalized)
      invariant forall w <- writes ::
        && w.duty.validator in rewards && MatchesReported(view, chain, w, rewards[w.duty.validator])
        && JudgesSource(view, chain, None, w)
    {
      var duty := duties[i];
      assert duties[..i + 1] == duties[..i] + [duty] && duty in duties;
      if duty.validator !in scan {
        continue;
      }
      var w := ScanDuty(view, chain, duty, rewards[duty.validator], finalized);
      if w.Err? {
        return Err(w.error);
      }
      ghost var before := writes;
      writes := writes + [w.value];
      assert w.value in writes && forall x :: x in before ==> x in writes;
    }
    assert duties[..|duties|] == duties;
    return Ok(writes);
  }

  /**
   * Dense and sparse writes of one duty agree on every performance column, unless the validator missed
   * and its reward response reports an inclusion delay: then, and only then, the raw delays differ.
   */
  lemma DenseAndSparseAgree(view: EpochView, chain: Canonical, dense: DutyWrite, sparse: DutyWrite, reward: Reward)
    requires dense.duty == sparse.duty && SeatedAt(view.committees, dense.duty) && VotesPrecedeBlocks(chain)
    requires MatchesReference(view, chain, dense) && MatchesReported(view, chain, sparse, reward)
    ensures Performed(dense.write.details, dense.write.marks) == Performed(sparse.write.details, sparse.write.marks)
       <==> dense.write.details.included || reward.inclusionDelay.None?
  {
    EarliestHitIsLeast(view, chain, dense.duty.validator, view.Start(), view.WindowEnd());
  }

  /** Whenever the one-epoch look-back of dense scans succeeds, the two-epoch one does, for every duty of the epoch. */
  lemma LookBacksNest(spec: Spec, chain: Canonical, start: Slot, slot: Slot)
    requires start <= slot < start + spec.slotsPerEpoch
    requires exists s :: SaturatingSub(start, spec.slotsPerEpoch) <= s <= start && s in chain
    ensures exists s :: SaturatingSub(slot, spec.slotsPerEpoch * 2) <= s <= slot && s in chain
  {
    var s :| SaturatingSub(start, spec.slotsPerEpoch) <= s <= start && s in chain;
    assert SaturatingSub(slot, spec.slotsPerEpoch * 2) <= s <= slot;
  }
}
