/** What the collectors store is what pruning relies on (src/live/mod.rs:272-366, src/db/scanner/live.rs:290-309). */
module Retention {
  import opened Wrappers
  import opened Chain
  import opened Attestations
  import opened Rows
  import opened Outcome
  import opened Tables
  import opened Promotion
  import opened Settling
  import opened Ancestry
  import opened Dense
  import opened Sparse
  import opened LiveScan
  import opened SlotScan
  import opened ChainWalk
  import opened Consistency
  import opened RewardJobs
  import opened Pruning
  import Safety

  // ---- Reward dependencies ----

  /** The last block at or before a slot is no earlier than any block at or before it. */
  lemma {:induction false} LastBlockIsPast(chain: Canonical, anchor: Slot, slot: Slot)
    requires anchor in chain && anchor <= slot
    ensures exists x: Slot :: anchor <= x <= slot && x in chain && RootAtOrBefore(chain, slot) == Some(chain[x].root)
    decreases slot
  {
    if slot !in chain {
      LastBlockIsPast(chain, anchor, slot - 1);
    }
  }

  lemma DependencyIsPast(spec: Spec, chain: Canonical, j: JobKey, anchor: Slot)
    requires anchor in chain && anchor < EpochStart(spec, j.InEpoch(spec)) && DependencyOf(spec, chain, j).Some?
    ensures exists x: Slot :: anchor <= x && x in chain && DependencyOf(spec, chain, j) == Some(chain[x].root)
  {
    if j.AttestationJob? {
      EpochStartMonotone(spec, j.jobEpoch, j.jobEpoch + 2);
      LastBlockIsPast(chain, anchor, EpochStart(spec, j.jobEpoch + 2) - 1);
    } else {
      EpochOfBounds(spec, j.slot, j.InEpoch(spec));
      assert DependencyOf(spec, chain, j) == Some(chain[j.slot].root);
    }
  }

  /** Rewards of a retained epoch were computed past its start, so they depend on no block before the anchor. */
  lemma DependenciesAreKept(
    spec: Spec, served: Served, head: Root, b: Branch, t: Tables, retain: Epoch, anchor: Slot)
    requires WellFormed(TreeOf(served)) && Keyed(served) && b.chain == CanonicalOf(served, head)
    requires DependsOn(spec, b, t.jobs, t.completed) && OneChain(TreeOf(served), head, t.blocks)
    requires NewestBelow(t.blocks, EpochStart(spec, retain)) == Some(anchor)
    ensures DependenciesKept(spec, TreeOf(served), t, retain, anchor)
  {
    CanonicalIsAncestry(served, head);
    NewestBelowIsMax(t.blocks, EpochStart(spec, retain));
    assert t.blocks[anchor].root in Ancestors(TreeOf(served), head)
        && TreeOf(served)[t.blocks[anchor].root].slot == anchor;
    forall j | j in t.jobs && OpenFrom(spec, t, retain, j) && t.jobs[j].dependency.Some?
        && t.jobs[j].dependency.value in served
      ensures served[t.jobs[j].dependency.value].slot >= anchor
    {
      EpochStartMonotone(spec, retain, j.InEpoch(spec));
      DependencyIsPast(spec, b.chain, j, anchor);
    }
  }

  // ---- Inclusions ----

  /** What a statement writes about inclusion lies past the start of the epoch. */
  ghost predicate WriteFollows(spec: Spec, w: Safety.World, action: Safety.Action) {
    match action
    case LiveAttestation(key, write) => PastStart(spec, key.1, write.details)
    case ArchiveAttestation(_, write) => w.archive.Scanning? ==> PastStart(spec, w.archive.epoch, write.details)
    case Repair(key, fix) => fix.slot >= EpochStart(spec, key.1)
    case _ => true
  }

  predicate PastStart(spec: Spec, epoch: Epoch, details: Details) {
    details.inclusionSlot.Some? ==> details.inclusionSlot.value >= EpochStart(spec, epoch)
  }

  /** The live scan writes, and repairs with, what a block shows. */
  lemma LiveWriteFollows(inputs: Inputs, chain: Canonical, k: Pair, s: Slot)
    requires VotesPrecedeBlocks(chain) && Observation(inputs, chain, k, s).Some?
    ensures var seen := Observation(inputs, chain, k, s).value;
      && seen.slot >= EpochStart(inputs.spec, k.1)
      && PastStart(inputs.spec, k.1, ObservationWrite(AssignmentOf(inputs.duties[k]), seen).details)
  {
    ObservedEpochHasBegun(inputs, chain, k, s);
  }

  lemma ArchiveWritesFollow(
    view: EpochView, chain: Canonical, dense: DutyWrite, sparse: DutyWrite, reward: Outcome.Reward)
    requires VotesPrecedeBlocks(chain) && SeatedAt(view.committees, dense.duty)
    requires SeatedAt(view.committees, sparse.duty)
    requires MatchesReference(view, chain, dense) && MatchesReported(view, chain, sparse, reward)
    ensures PastStart(view.spec, view.epoch, dense.write.details)
    ensures PastStart(view.spec, view.epoch, sparse.write.details)
  {
    EarliestHitIsLeast(view, chain, dense.duty.validator, view.Start(), view.WindowEnd());
    EarliestHitIsLeast(view, chain, sparse.duty.validator, view.Start(), view.WindowEnd());
  }

  lemma DetailsStay(spec: Spec, t: Tables, p: Params, a: Tables, ready: set<Pair>, b: Tables)
    requires SettledFrom(spec, t, p, a) && CompletedFrom(spec, a, ready, b)
    ensures forall k <- b.attestations :: k in t.attestations && b.attestations[k].details == t.attestations[k].details
  {
    forall k | k in t.attestations ensures b.attestations[k].details == t.attestations[k].details {
      assert a.attestations[k] == SettledAttestation(spec, t, p, k);
    }
  }

  lemma PromotionFollows(spec: Spec, t: Tables, p: Params)
    requires InclusionsFollow(spec, t)
    ensures InclusionsFollow(spec, Promoted(spec, t, p))
  {
    var a := PromotedRows(spec, t, p);
    DetailsStay(spec, t, p, a, ReadyPairs(spec, a, p), Promoted(spec, t, p));
  }

  lemma StepFollows(spec: Spec, w: Safety.World, action: Safety.Action)
    requires Safety.Enabled(w, action) && WriteFollows(spec, w, action) && InclusionsFollow(spec, w.t)
    ensures InclusionsFollow(spec, Safety.Step(spec, w, action).t)
  {
    if action.Promote? {
      PromotionFollows(spec, w.t, action.p);
    } else if Safety.WritesDutyRows(action) {
      DutyWriteFollows(spec, w, action);
    } else if Safety.WritesSlotRows(action) {
      Safety.SlotWritesOnly(spec, w, action);
    } else if Safety.MovesEvidence(action) {
      EvidenceLeavesDuties(spec, w, action);
    } else {
      ScansAndRollbacksFollow(spec, w, action);
    }
  }

  lemma DutyWriteFollows(spec: Spec, w: Safety.World, action: Safety.Action)
    requires Safety.Enabled(w, action) && WriteFollows(spec, w, action) && InclusionsFollow(spec, w.t)
    requires Safety.WritesDutyRows(action)
    ensures InclusionsFollow(spec, Safety.Step(spec, w, action).t)
  {
  }

  lemma EvidenceLeavesDuties(spec: Spec, w: Safety.World, action: Safety.Action)
    requires Safety.Enabled(w, action) && Safety.MovesEvidence(action)
    ensures Safety.Step(spec, w, action).t.attestations == w.t.attestations
  {
  }

  lemma ScansAndRollbacksFollow(spec: Spec, w: Safety.World, action: Safety.Action)
    requires Safety.Enabled(w, action) && InclusionsFollow(spec, w.t)
    requires action.InvalidateFrom? || action.BeginScan? || action.FinishScan? || action.AbandonScan?
    ensures InclusionsFollow(spec, Safety.Step(spec, w, action).t)
  {
  }

  ghost predicate RunFollows(spec: Spec, w: Safety.World, run: seq<Safety.Action>)
    requires Safety.Runs(spec, w, run)
    decreases |run|
  {
    run != [] ==> WriteFollows(spec, w, run[0]) && RunFollows(spec, Safety.Step(spec, w, run[0]), run[1..])
  }

  /** In every run of both workers whose scans write such inclusions. */
  lemma {:induction false} InclusionsAreKept(spec: Spec, w: Safety.World, run: seq<Safety.Action>)
    requires Safety.Runs(spec, w, run) && RunFollows(spec, w, run) && InclusionsFollow(spec, w.t)
    ensures InclusionsFollow(spec, Safety.After(spec, w, run).t)
    decreases |run|
  {
    if run != [] {
      StepFollows(spec, w, run[0]);
      InclusionsAreKept(spec, Safety.Step(spec, w, run[0]), run[1..]);
    }
  }

  // ---- Pruning after a poll ----

  /** In the state a poll leaves, pruning changes nothing that the next promotion decides for a retained epoch. */
  lemma PruningAfterPollIsInvisible(
    spec: Spec, served: Served, head: Root, b: Branch, t: Tables, p: Params, q: Params, checkpoint: Root, retain: Epoch)
    requires WellFormed(TreeOf(served)) && Keyed(served) && b.chain == CanonicalOf(served, head)
    requires Sane(spec, b, t) && OneChain(TreeOf(served), head, t.blocks) && InclusionsFollow(spec, t)
    requires ConfirmedParams(t, p, checkpoint) && retain <= p.finalizedEpoch
    requires LastAtOrBefore(TreeOf(served), head, checkpoint, EpochStart(spec, p.finalizedEpoch))
    requires Rebound(Pruned(spec, t, retain), p, q, checkpoint)
    ensures SameOutcome(spec, retain, Promoted(spec, t, p), Promoted(spec, Pruned(spec, t, retain), q))
  {
    var anchor := NewestBelow(t.blocks, EpochStart(spec, retain));
    if anchor.Some? {
      DependenciesAreKept(spec, served, head, b, t, retain, anchor.value);
    }
    PruningIsInvisible(spec, TreeOf(served), head, t, p, q, checkpoint, retain);
  }
}
