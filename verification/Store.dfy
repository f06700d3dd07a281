/**
 * The database as the scanner writes it: one field per table, one method per function of
 * src/db/scanner. Each method runs its statements in order and is one atomic transition.
 */
module Store {
  import opened Wrappers
  import opened Chain
  import opened Rows
  import opened Tables
  import opened Promotion

  class Database {
    const spec: Spec
    var attestations: map<Pair, AttestationRow>
    var proposals: map<Slot, ProposalRow>
    var syncs: map<(Validator, Slot), SyncRow>
    var completed: set<Pair>
    var blocks: map<Slot, BlockRow>
    var coverage: set<(Validator, Slot)>
    var jobs: map<JobKey, Job>
    var gaps: set<Pair>
    var started: map<Validator, Epoch>
    var validators: map<Validator, ValidatorRow>

    constructor (spec: Spec)
      ensures this.spec == spec && View() == EMPTY
    {
      this.spec := spec;
      attestations, proposals, syncs, completed, blocks := map[], map[], map[], {}, map[];
      coverage, jobs, gaps, started, validators := {}, map[], {}, map[], map[];
    }

    function View(): Tables
      reads this
    {
      Tables(attestations, proposals, syncs, completed, blocks, coverage, jobs, gaps, started, validators)
    }

    // ---- attestations.rs ----

    method UpsertAttestationDuty(validator: Validator, epoch: Epoch, write: AttestationWrite)
      modifies this`attestations
      ensures View() == UpsertedAttestation(old(View()), (validator, epoch), write)
    {
      var key := (validator, epoch);
      if key !in attestations {
        attestations := attestations[key :=
          AttestationRow(write.assignment, write.details, write.marks, write.rewards, write.finalized, false)];
      } else {
        var row := attestations[key];
        var live := !row.finalized
          && (write.finalized || row.details.inclusionSlot.None?
              || Less(write.details.inclusionSlot, row.details.inclusionSlot)
              || (write.details.inclusionSlot == row.details.inclusionSlot && write.details.effectiveDelay.Some?));
        if live || (write.finalized && key !in completed) {
          attestations := attestations[key := row.(
            assignment := write.assignment, details := write.details, marks := write.marks.Or(row.marks),
            rewards := write.rewards.Or(row.rewards), finalized := write.finalized)];
        } else {
          assert attestations == attestations[key := row];
        }
      }
    }

    method UpdateAttestationRewardsBatch(rewards: map<Pair, Rewards>)
      modifies this`attestations
      ensures View() == RewardsJoined(old(View()), rewards)
    {
      attestations := map k | k in attestations ::
        if k in rewards && !attestations[k].finalized
        then attestations[k].(rewards := rewards[k], marks := attestations[k].marks.Or(rewards[k].Inferred()))
        else attestations[k];
    }

    method RepairFinalizedInclusion(validator: Validator, epoch: Epoch, fix: InclusionDetails)
      modifies this`attestations
      ensures View() == InclusionRepaired(old(View()), (validator, epoch), fix)
    {
      var key := (validator, epoch);
      if key in attestations && RepairAccepted(attestations[key], fix, key in completed) {
        var row := attestations[key];
        var details := Details(true, Some(fix.slot), Some(fix.delay), Some(fix.effectiveDelay));
        attestations := attestations[key := row.(
          details := details, marks := Marks(Some(fix.source), Some(fix.target), Some(fix.head)))];
      } else if key in attestations {
        assert attestations == attestations[key := attestations[key]];
      }
    }

    // ---- proposals.rs, sync.rs, sync_committee.rs ----

    method UpsertBlockProposal(slot: Slot, write: ProposalRow)
      modifies this`proposals
      ensures View() == UpsertedProposal(spec, old(View()), slot, write)
    {
      if slot !in proposals {
        proposals := proposals[slot := write];
      } else {
        var row := proposals[slot];
        if !row.finalized || (write.finalized && (row.proposer, EpochOf(spec, slot)) !in completed) {
          proposals := proposals[slot := write.(rewards := write.rewards.Or(row.rewards))];
        }
      }
    }

    method UpsertSyncDuty(validator: Validator, slot: Slot, write: SyncRow)
      modifies this`syncs
      ensures View() == UpsertedSync(spec, old(View()), (validator, slot), write)
    {
      var key := (validator, slot);
      if key !in syncs {
        syncs := syncs[key := write];
      } else {
        var row := syncs[key];
        if !row.finalized || (write.finalized && (validator, EpochOf(spec, slot)) !in completed) {
          syncs := syncs[key := write.(reward := write.reward.Or(row.reward))];
        }
      }
    }

    method PersistLiveSyncRewards(slot: Slot, amounts: map<Validator, int>)
      modifies this`syncs
      ensures View() == SyncRewardsJoined(old(View()), slot, amounts)
    {
      syncs := map k | k in syncs ::
        if k.1 == slot && k.0 in amounts && !syncs[k].finalized then syncs[k].(reward := Some(amounts[k.0]))
        else syncs[k];
    }

    // ---- live.rs ----

    /** Fails, changing nothing, when the root already stands at another slot. */
    method RecordBlock(slot: Slot, root: Root, parent: Root) returns (r: Result<()>)
      modifies this`blocks
      ensures r.Ok? <==> RootFree(old(View()), slot, root)
      ensures View() == if r.Ok? then BlockRecorded(old(View()), slot, root, parent) else old(View())
    {
      if exists s | s in blocks :: s != slot && blocks[s].root == root {
        return Err(UniqueViolation);
      }
      blocks := blocks[slot := BlockRow(root, parent)];
      return Ok(());
    }

    method RecordCoverage(tracked: set<Validator>, slot: Slot)
      modifies this`coverage
      ensures View() == CoverageRecorded(old(View()), tracked, slot)
    {
      coverage := coverage + set v <- tracked :: (v, slot);
    }

    method EnqueueJobs(keys: set<JobKey>, root: Option<Root>)
      modifies this`jobs
      ensures View() == JobsEnqueued(old(View()), keys, root)
    {
      jobs := map k | k in jobs.Keys + keys :: if k in jobs then jobs[k] else Job(root, None, Pending, None);
    }

    method CompleteJob(keys: set<JobKey>, payload: Payload, dependency: Root)
      modifies this`jobs
      ensures View() == JobsCompleted(old(View()), keys, payload, dependency)
    {
      jobs := map k | k in jobs ::
        if k in keys then jobs[k].(status := Complete, payload := Some(payload), dependency := Some(dependency))
        else jobs[k];
    }

    /** Gaps are recorded before the jobs are retired, in one transaction. */
    method ExpireJobs(minEpoch: Epoch)
      modifies this`gaps, this`jobs
      ensures View() == JobsExpired(spec, old(View()), minEpoch)
    {
      gaps := gaps + set k | k in jobs && k.InEpoch(spec) < minEpoch && jobs[k].status == Pending :: k.Pair(spec);
      jobs := map k | k in jobs ::
        if k.InEpoch(spec) < minEpoch && jobs[k].status == Pending then jobs[k].(status := NeedsBackfill) else jobs[k];
    }

    method RegisterTrackingStart(tracked: set<Validator>, epoch: Epoch)
      modifies this`started, this`jobs, this`gaps
      ensures View() == TrackingRegistered(spec, old(View()), tracked, epoch)
    {
      started := Earlier(started, tracked, epoch);
      jobs := map k | k in jobs
                      && !(k.validator in started && k.InEpoch(spec) < started[k.validator]
                           && k.Pair(spec) !in completed) :: jobs[k];
      gaps := set g | g in gaps && !(g.0 in started && g.1 < started[g.0]);
    }

    method InvalidateFrom(replayFrom: Slot)
      modifies this`blocks, this`coverage, this`proposals, this`syncs, this`attestations, this`jobs
      ensures View() == InvalidatedFrom(spec, old(View()), replayFrom)
    {
      var epoch := EpochOf(spec, replayFrom);
      blocks := BlocksBefore(blocks, replayFrom);
      coverage := set c | c in coverage && c.1 < replayFrom;
      proposals := ProposalsKept(proposals, replayFrom);
      syncs := SyncsKept(syncs, replayFrom);
      attestations := AttestationsKept(attestations, epoch);
      jobs := JobsKept(spec, View(), epoch);
    }

    method PruneCompletedEvidence(retainEpoch: Epoch)
      modifies this`jobs, this`coverage, this`blocks
      ensures View() == Pruned(spec, old(View()), retainEpoch)
    {
      var start := EpochStart(spec, retainEpoch);
      jobs := map k | k in jobs && !(k.InEpoch(spec) < retainEpoch && k.Pair(spec) in completed) :: jobs[k];
      coverage := set c | c in coverage && !(c.1 < start);
      var anchor := NewestBelow(blocks, start);
      if anchor.Some? {
        blocks := map s | s in blocks && !(s < anchor.value) :: blocks[s];
      }
      assert blocks == Pruned(spec, old(View()), retainEpoch).blocks;
    }

    // ---- completion.rs, validators.rs ----

    method MarkComplete(scanned: set<Validator>, epoch: Epoch)
      modifies this`attestations, this`completed, this`gaps
      ensures View() == CompletionMarked(old(View()), scanned, epoch)
    {
      attestations := map k | k in attestations ::
        if k.0 in scanned && k.1 == epoch then attestations[k].(inclusionKnown := true) else attestations[k];
      completed := completed + set v <- scanned :: (v, epoch);
      gaps := set g | g in gaps && !(g.0 in scanned && g.1 == epoch);
    }

    method UpdateValidatorsScannedEpoch(scanned: set<Validator>, epoch: Epoch)
      modifies this`validators
      ensures View() == ScannedThrough(old(View()), scanned, epoch)
    {
      validators := map v | v in validators ::
        if v in scanned then validators[v].(lastScanned := Greatest(validators[v].lastScanned, epoch))
            else validators[v];
    }

    // ---- finalization.rs ----

    /** The statements of the promotion transaction before its completion query. */
    method SettleFlags(p: Params)
      modifies this`attestations, this`proposals, this`syncs
      ensures View() == FlagsSettled(spec, old(View()), p)
    {
      attestations := TotalsReplayed(View(), p).attestations;
      proposals := ProposalsReplayed(spec, View(), p).proposals;
      syncs := SyncsReplayed(spec, View(), p).syncs;
      attestations := InclusionsFinalized(View(), p).attestations;
      attestations := InclusionsKnown(spec, View(), p).attestations;
      attestations := OutcomesFinalized(spec, View(), p).attestations;
      var frozen := SlotsFinalized(spec, View(), p);
      proposals, syncs := frozen.proposals, frozen.syncs;
    }

    /** One turn of the loop: freeze the pair's rows, mark it complete, raise the watermark. */
    method CompletePair(k: Pair)
      modifies this`attestations, this`proposals, this`syncs, this`completed, this`validators
      ensures View() == PairCompleted(spec, old(View()), k)
    {
      attestations := FrozenAttestations(attestations, {k});
      proposals := FrozenProposals(spec, proposals, {k});
      syncs := FrozenSyncs(spec, syncs, {k});
      completed := completed + {k};
      validators := WatermarkRaised(validators, k);
    }

    /** The loop over the pairs the completion query returned, in any order. */
    method CompletePairs(ready: set<Pair>)
      modifies this`attestations, this`proposals, this`syncs, this`completed, this`validators
      ensures View() == PairsCompleted(spec, old(View()), ready)
    {
      var pending := ready;
      ghost var t := View();
      ghost var done: set<Pair> := {};
      NothingCompleted(spec, t);
      while pending != {}
        invariant ready == done + pending
        invariant View() == PairsCompleted(spec, t, done)
      {
        var k :| k in pending;
        pending := pending - {k};
        CompletedStep(spec, t, done, k);
        CompletePair(k);
        done := done + {k};
      }
      assert done == ready;
    }

    /** The whole promotion transaction. */
    method PromoteCollected(p: Params) returns (count: nat)
      modifies this
      ensures View() == Promoted(spec, old(View()), p)
      ensures count == PromotedCount(spec, old(View()), p)
    {
      SettleFlags(p);
      var ready := ReadyPairs(spec, View(), p);
      count := |ready|;
      CompletePairs(ready);
      gaps := GapsRecorded(View(), p).gaps;
    }
  }

  /** `UPDATE validators SET last_scanned_epoch=GREATEST(...)` for one pair. */
  function WatermarkRaised(rows: map<Validator, ValidatorRow>, k: Pair): map<Validator, ValidatorRow> {
    map v | v in rows :: if v == k.0 then rows[v].(lastScanned := Greatest(rows[v].lastScanned, k.1)) else rows[v]
  }

  function PairCompleted(spec: Spec, t: Tables, k: Pair): Tables {
    t.(attestations := FrozenAttestations(t.attestations, {k}),
       proposals := FrozenProposals(spec, t.proposals, {k}),
       syncs := FrozenSyncs(spec, t.syncs, {k}),
       completed := t.completed + {k},
       validators := WatermarkRaised(t.validators, k))
  }

  /** Completing one more pair after `done` is completing `done + {k}` at once, in any order. */
  lemma CompletedStep(spec: Spec, t: Tables, done: set<Pair>, k: Pair)
    ensures PairsCompleted(spec, t, done + {k}) == PairCompleted(spec, PairsCompleted(spec, t, done), k)
  {
    AttestationsFreezeInTurn(t.attestations, done, k);
    ProposalsFreezeInTurn(spec, t.proposals, done, k);
    SyncsFreezeInTurn(spec, t.syncs, done, k);
    WatermarksRiseInTurn(t.validators, done, k);
  }

  lemma AttestationsFreezeInTurn(rows: map<Pair, AttestationRow>, done: set<Pair>, k: Pair)
    ensures FrozenAttestations(rows, done + {k}) == FrozenAttestations(FrozenAttestations(rows, done), {k})
  {
  }

  lemma ProposalsFreezeInTurn(spec: Spec, rows: map<Slot, ProposalRow>, done: set<Pair>, k: Pair)
    ensures FrozenProposals(spec, rows, done + {k}) == FrozenProposals(spec, FrozenProposals(spec, rows, done), {k})
  {
  }

  lemma SyncsFreezeInTurn(spec: Spec, rows: map<(Validator, Slot), SyncRow>, done: set<Pair>, k: Pair)
    ensures FrozenSyncs(spec, rows, done + {k}) == FrozenSyncs(spec, FrozenSyncs(spec, rows, done), {k})
  {
  }

  lemma WatermarksRiseInTurn(rows: map<Validator, ValidatorRow>, done: set<Pair>, k: Pair)
    ensures RaisedWatermarks(rows, done + {k}) == WatermarkRaised(RaisedWatermarks(rows, done), k)
  {
    forall v | v in rows
      ensures RaisedWatermarks(rows, done + {k})[v] == WatermarkRaised(RaisedWatermarks(rows, done), k)[v]
    {
      RaisedStep(rows[v], v, done, k);
    }
  }

  lemma RaisedStep(row: ValidatorRow, v: Validator, done: set<Pair>, k: Pair)
    ensures var before := Raised(row, EpochsOf(v, done));
      Raised(row, EpochsOf(v, done + {k}))
      == if v == k.0 then before.(lastScanned := Greatest(before.lastScanned, k.1)) else before
  {
    if v == k.0 {
      assert EpochsOf(v, done + {k}) == EpochsOf(v, done) + {k.1};
      GreatestOfMax(row.lastScanned, EpochsOf(v, done), k.1);
    } else {
      assert EpochsOf(v, done + {k}) == EpochsOf(v, done);
    }
  }

  lemma GreatestOfMax(last: Option<Epoch>, epochs: set<Epoch>, e: Epoch)
    ensures Greatest(if epochs == {} then last else Greatest(last, MaxOf(epochs)), e)
        == Greatest(last, MaxOf(epochs + {e}))
  {
    var m := MaxOf(epochs + {e});
    if epochs != {} {
      var m' := MaxOf(epochs);
      assert m' in epochs + {e};
    }
  }
}
