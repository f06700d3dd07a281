/** Rolling back a changed chain (src/live/reorg.rs, src/db/scanner/live.rs:157-180). */
module Reorg {
  import opened Wrappers
  import opened Chain
  import opened Attestations
  import opened Outcome
  import opened Tables
  import opened Store

  /** Inclusions in E may carry votes of E-1, so that epoch is replayed too. */
  function ReorgReplayStart(spec: Spec, changed: Slot): Slot {
    EpochStart(spec, SaturatingSub(EpochOf(spec, changed), 1))
  }

  lemma ReplayStartsBefore(spec: Spec, changed: Slot)
    ensures ReorgReplayStart(spec, changed) <= changed
    ensures EpochOf(spec, ReorgReplayStart(spec, changed)) == SaturatingSub(EpochOf(spec, changed), 1)
  {
    var epoch := SaturatingSub(EpochOf(spec, changed), 1);
    EpochOfBounds(spec, changed, epoch);
    EpochOfBounds(spec, EpochStart(spec, epoch), epoch);
    EpochStartMonotone(spec, epoch, epoch + 1);
  }

  method Rollback(db: Database, changed: Slot) returns (cursor: Option<Slot>)
    modifies db
    ensures db.View() == InvalidatedFrom(db.spec, old(db.View()), ReorgReplayStart(db.spec, changed))
    ensures if ReorgReplayStart(db.spec, changed) == 0 then cursor.None?
            else cursor == Some(ReorgReplayStart(db.spec, changed) - 1)
  {
    var replayFrom := ReorgReplayStart(db.spec, changed);
    db.InvalidateFrom(replayFrom);
    cursor := if replayFrom >= 1 then Some(replayFrom - 1) else None;
  }

  /** At least one whole epoch lies between it and the epoch of the first changed slot. */
  predicate WellBefore(spec: Spec, changed: Slot, epoch: Epoch) {
    epoch + 1 < EpochOf(spec, changed)
  }

  lemma SlotWellBefore(spec: Spec, changed: Slot, slot: Slot)
    ensures slot < ReorgReplayStart(spec, changed) <==> WellBefore(spec, changed, EpochOf(spec, slot))
  {
    EpochOfBounds(spec, slot, SaturatingSub(EpochOf(spec, changed), 1));
  }

  /** What a rollback keeps by slot: everything from well before the change, and the final rows, each as it was. */
  lemma RollbackKeepsSlots(spec: Spec, t: Tables, changed: Slot)
    ensures var after := InvalidatedFrom(spec, t, ReorgReplayStart(spec, changed));
      && (forall s :: Lookup(after.blocks, s) ==
            if WellBefore(spec, changed, EpochOf(spec, s)) then Lookup(t.blocks, s) else None)
      && (forall c :: c in after.coverage <==> c in t.coverage && WellBefore(spec, changed, EpochOf(spec, c.1)))
      && (forall s :: Lookup(after.proposals, s) ==
            if WellBefore(spec, changed, EpochOf(spec, s)) || (s in t.proposals && t.proposals[s].finalized)
            then Lookup(t.proposals, s) else None)
      && (forall k: (Validator, Slot) :: Lookup(after.syncs, k) ==
            if WellBefore(spec, changed, EpochOf(spec, k.1)) || (k in t.syncs && t.syncs[k].finalized)
            then Lookup(t.syncs, k) else None)
  {
    forall s: Slot
      ensures s < ReorgReplayStart(spec, changed) <==> WellBefore(spec, changed, EpochOf(spec, s))
    {
      SlotWellBefore(spec, changed, s);
    }
  }

  /**
   * And by epoch: the duty rows from well before it or final, the jobs from well before it or of completed pairs.
   * No other table changes.
   */
  lemma RollbackKeepsEpochs(spec: Spec, t: Tables, changed: Slot)
    ensures var after := InvalidatedFrom(spec, t, ReorgReplayStart(spec, changed));
      && (forall k: Pair :: Lookup(after.attestations, k) ==
            if WellBefore(spec, changed, k.1) || (k in t.attestations && t.attestations[k].finalized)
            then Lookup(t.attestations, k) else None)
      && (forall j :: Lookup(after.jobs, j) ==
            if WellBefore(spec, changed, j.InEpoch(spec)) || j.Pair(spec) in t.completed
            then Lookup(t.jobs, j) else None)
      && after.completed == t.completed && after.gaps == t.gaps && after.started == t.started
      && after.validators == t.validators
  {
    ReplayStartsBefore(spec, changed);
  }

  /** Everything provisional that is left depends only on slots before `changed`. */
  ghost predicate DependsOnlyBefore(spec: Spec, t: Tables, changed: Slot) {
    && (forall s <- t.blocks :: s < changed)
    && (forall c <- t.coverage :: c.1 < changed)
    && (forall s <- t.proposals :: !t.proposals[s].finalized ==> s < changed)
    && (forall k <- t.syncs :: !t.syncs[k].finalized ==> k.1 < changed)
    && (forall k <- t.attestations :: !t.attestations[k].finalized ==> EpochStart(spec, k.1 + 2) <= changed)
    && (forall j <- t.jobs :: j.Pair(spec) !in t.completed ==> EpochStart(spec, j.InEpoch(spec) + 2) <= changed)
  }

  /**
   * After a rollback from the first changed slot: blocks, coverage and slot rows lie before it, and so do the
   * inclusion window of every provisional duty and the end-of-E+1 boundary of every open reward job.
   */
  lemma SurvivorsDependOnlyBefore(spec: Spec, t: Tables, changed: Slot)
    ensures DependsOnlyBefore(spec, InvalidatedFrom(spec, t, ReorgReplayStart(spec, changed)), changed)
  {
    var replayFrom := ReorgReplayStart(spec, changed);
    var after := InvalidatedFrom(spec, t, replayFrom);
    ReplayStartsBefore(spec, changed);
    forall k | k in after.attestations && !after.attestations[k].finalized
      ensures EpochStart(spec, k.1 + 2) <= changed
    {
      EarlyEpoch(spec, changed, k.1);
    }
    forall j | j in after.jobs && j.Pair(spec) !in after.completed
      ensures EpochStart(spec, j.InEpoch(spec) + 2) <= changed
    {
      EarlyEpoch(spec, changed, j.InEpoch(spec));
    }
  }

  lemma EarlyEpoch(spec: Spec, changed: Slot, epoch: Epoch)
    requires epoch < EpochOf(spec, ReorgReplayStart(spec, changed))
    ensures EpochStart(spec, epoch + 2) <= EpochStart(spec, EpochOf(spec, changed)) <= changed
  {
    ReplayStartsBefore(spec, changed);
    EpochOfBounds(spec, changed, EpochOf(spec, changed));
    EpochStartMonotone(spec, epoch + 2, EpochOf(spec, changed));
  }

  /** What is final, and the completion records, survive any rollback untouched. */
  lemma FinalSurvives(spec: Spec, t: Tables, changed: Slot)
    ensures var after := InvalidatedFrom(spec, t, ReorgReplayStart(spec, changed));
      && after.completed == t.completed && after.gaps == t.gaps && after.started == t.started
      && (forall k <- t.attestations :: t.attestations[k].finalized ==>
            Lookup(after.attestations, k) == Some(t.attestations[k]))
      && (forall s <- t.proposals :: t.proposals[s].finalized ==> Lookup(after.proposals, s) == Some(t.proposals[s]))
      && (forall k <- t.syncs :: t.syncs[k].finalized ==> Lookup(after.syncs, k) == Some(t.syncs[k]))
      && (forall j <- t.jobs :: j.Pair(spec) in t.completed ==> Lookup(after.jobs, j) == Some(t.jobs[j]))
  {
  }

  // ---- Why that is enough: outcomes of surviving epochs are the same on both branches ----

  ghost predicate AgreeBefore(a: Canonical, b: Canonical, changed: Slot) {
    forall s: Slot :: s < changed ==> Lookup(a, s) == Lookup(b, s)
  }

  lemma {:induction false} SameRoots(a: Canonical, b: Canonical, changed: Slot, slot: Slot)
    requires AgreeBefore(a, b, changed) && slot < changed
    ensures RootAtOrBefore(a, slot) == RootAtOrBefore(b, slot)
  {
    assert Lookup(a, slot) == Lookup(b, slot);
    if slot > 0 {
      SameRoots(a, b, changed, slot - 1);
    }
  }

  lemma {:induction false} SameCounts(a: Canonical, b: Canonical, changed: Slot, lo: Slot, hi: Slot)
    requires AgreeBefore(a, b, changed) && hi <= changed
    ensures BlocksBetween(a, lo, hi) == BlocksBetween(b, lo, hi)
    decreases hi
  {
    if lo < hi {
      var s: Slot := hi - 1;
      assert Lookup(a, s) == Lookup(b, s);
      SameCounts(a, b, changed, lo, hi - 1);
    }
  }

  lemma {:induction false} SameHits(
    view: EpochView, a: Canonical, b: Canonical, v: Validator, changed: Slot, lo: Slot, hi: Slot)
    requires AgreeBefore(a, b, changed) && hi <= changed
    ensures EarliestHit(view, a, v, lo, hi) == EarliestHit(view, b, v, lo, hi)
    decreases hi
  {
    if lo < hi {
      var s: Slot := hi - 1;
      assert Lookup(a, s) == Lookup(b, s);
      SameHits(view, a, b, v, changed, lo, hi - 1);
    }
  }

  /** A duty that survives the rollback has the same outcome on the old branch and on the new one. */
  lemma SurvivingOutcomesAreShared(view: EpochView, a: Canonical, b: Canonical, duty: Duty, changed: Slot)
    requires AgreeBefore(a, b, changed) && EpochStart(view.spec, view.epoch + 2) <= changed
    requires view.Start() <= duty.slot < view.End()
    ensures Expected(view, a, duty) == Expected(view, b, duty)
  {
    EpochStartMonotone(view.spec, view.epoch, view.epoch + 2);
    EpochStartMonotone(view.spec, view.epoch + 1, view.epoch + 2);
    SameHits(view, a, b, duty.validator, changed, view.Start(), view.WindowEnd());
    EarliestHitIsLeast(view, a, duty.validator, view.Start(), view.WindowEnd());
    var hit := EarliestHit(view, a, duty.validator, view.Start(), view.WindowEnd());
    if hit.Some? {
      assert Lookup(a, hit.value) == Lookup(b, hit.value);
      SameCounts(a, b, changed, duty.slot + 1, hit.value + 1);
      SameRoots(a, b, changed, duty.slot);
      SameRoots(a, b, changed, view.Start());
    }
  }
}
