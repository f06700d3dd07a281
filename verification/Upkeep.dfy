/** Every statement other than a live observation leaves consistent evidence consistent. */
module Upkeep {
  import opened Wrappers
  import opened Chain
  import opened Rows
  import opened Outcome
  import opened Tables
  import opened Promotion
  import opened Settling
  import opened Safety
  import opened LiveScan
  import opened LiveSlot
  import opened SlotScan
  import SyncCommittee

  // ---- Rows ----

  /** A change of flags, or of rewards with marks inferred from them, on one row. */
  ghost predicate Dressed(a: AttestationRow, b: AttestationRow) {
    || b.finalized
    || (!a.finalized && (exists r :: b == RewardJoined(a, r).(inclusionKnown := b.inclusionKnown)))
    || (!a.finalized && b == a.(inclusionKnown := b.inclusionKnown))
  }

  lemma DressedRow(inputs: Inputs, chain: Canonical, k: Pair, a: AttestationRow, b: AttestationRow)
    requires Explained(inputs, chain, k, a) && Dressed(a, b)
    ensures Explained(inputs, chain, k, b)
    ensures forall s :: Accounted(inputs, chain, k, s, Some(a)) ==> Accounted(inputs, chain, k, s, Some(b))
  {
    if !b.finalized && a.details != NO_DETAILS {
      var s: Slot :| s < EpochStart(inputs.spec, k.1 + 2) && IsSeen(inputs, chain, k, s, a);
      assert IsSeen(inputs, chain, k, s, b);
    }
  }

  ghost predicate AllDressed(a: map<Pair, AttestationRow>, b: map<Pair, AttestationRow>) {
    && (forall k <- a :: k in b && Dressed(a[k], b[k]))
    && (forall k <- b :: k in a || b[k].finalized)
  }

  /** Slot rows become final, or change neither flag nor finality. */
  ghost predicate FlagsKept(a: Tables, b: Tables) {
    && (forall s <- b.proposals :: !b.proposals[s].finalized ==>
          s in a.proposals && !a.proposals[s].finalized && a.proposals[s].proposed == b.proposals[s].proposed)
    && (forall k <- b.syncs :: !b.syncs[k].finalized ==>
          k in a.syncs && !a.syncs[k].finalized && a.syncs[k].missedBlock == b.syncs[k].missedBlock)
  }

  ghost predicate SameLifetimes(a: Tables, b: Tables) {
    && a.validators.Keys == b.validators.Keys
    && forall v <- a.validators ::
        a.validators[v].activation == b.validators[v].activation && a.validators[v].exit == b.validators[v].exit
  }

  lemma DressedStaysConsistent(inputs: Inputs, chain: Canonical, tip: Slot, a: Tables, b: Tables)
    requires LiveConsistent(inputs, chain, tip, a) && AllDressed(a.attestations, b.attestations)
    requires b.coverage <= a.coverage && FlagsKept(a, b) && SameLifetimes(a, b)
    ensures LiveConsistent(inputs, chain, tip, b)
  {
    forall k | k in inputs.duties && k in b.attestations ensures Explained(inputs, chain, k, b.attestations[k]) {
      if k in a.attestations { DressedRow(inputs, chain, k, a.attestations[k], b.attestations[k]); }
    }
    forall k, s: Slot | k in inputs.duties && (k.0, s) in b.coverage
      ensures Accounted(inputs, chain, k, s, Lookup(b.attestations, k))
    {
      assert Accounted(inputs, chain, k, s, Lookup(a.attestations, k));
      if k in a.attestations { DressedRow(inputs, chain, k, a.attestations[k], b.attestations[k]); }
    }
  }

  // ---- Statements ----

  lemma RewardsJoinDresses(t: Tables, rewards: map<Pair, Rewards>)
    ensures AllDressed(t.attestations, RewardsJoined(t, rewards).attestations)
  {
    var b := RewardsJoined(t, rewards).attestations;
    forall k | k in t.attestations ensures Dressed(t.attestations[k], b[k]) {
      if k in rewards && !t.attestations[k].finalized {
        assert b[k] == RewardJoined(t.attestations[k], rewards[k]).(inclusionKnown := b[k].inclusionKnown);
      }
    }
  }

  lemma SettledRowIsDressed(spec: Spec, t: Tables, p: Params, k: Pair, finalized: bool)
    requires k in t.attestations
    ensures var row := SettledAttestation(spec, t, p, k);
      Dressed(t.attestations[k], row.(finalized := row.finalized || finalized))
  {
    var row, staged := SettledAttestation(spec, t, p, k), StagedTotals(t, p, k);
    if !row.finalized && staged.Some? {
      assert row == RewardJoined(t.attestations[k], staged.value).(inclusionKnown := row.inclusionKnown);
    }
  }

  lemma PromotedRowsAreDressed(spec: Spec, t: Tables, p: Params, s: Tables, ready: set<Pair>, b: Tables)
    requires SettledFrom(spec, t, p, s) && CompletedFrom(spec, s, ready, b)
    ensures AllDressed(t.attestations, b.attestations)
  {
    forall k | k in t.attestations ensures Dressed(t.attestations[k], b.attestations[k]) {
      assert s.attestations[k] == SettledAttestation(spec, t, p, k);
      SettledRowIsDressed(spec, t, p, k, k in ready);
    }
  }

  lemma PromotedFlagsAreKept(spec: Spec, t: Tables, p: Params, s: Tables, ready: set<Pair>, b: Tables)
    requires SettledFrom(spec, t, p, s) && CompletedFrom(spec, s, ready, b)
    ensures FlagsKept(t, b)
  {
    forall x | x in b.proposals && !b.proposals[x].finalized
      ensures x in t.proposals && !t.proposals[x].finalized && t.proposals[x].proposed == b.proposals[x].proposed
    {
      assert s.proposals[x] == SettledProposal(spec, t, p, x);
    }
    forall k | k in b.syncs && !b.syncs[k].finalized
      ensures k in t.syncs && !t.syncs[k].finalized && t.syncs[k].missedBlock == b.syncs[k].missedBlock
    {
      assert s.syncs[k] == SettledSync(spec, t, p, k);
    }
  }

  lemma PromotedLifetimesStay(spec: Spec, t: Tables, p: Params, s: Tables, ready: set<Pair>, b: Tables)
    requires SettledFrom(spec, t, p, s) && CompletedFrom(spec, s, ready, b)
    ensures SameLifetimes(t, b) && b.coverage == t.coverage
  {
    forall v | v in t.validators
      ensures t.validators[v].activation == b.validators[v].activation && t.validators[v].exit == b.validators[v].exit
    {
      assert b.validators[v].(lastScanned := s.validators[v].lastScanned) == s.validators[v];
    }
  }

  lemma PromotionDresses(spec: Spec, t: Tables, p: Params)
    ensures AllDressed(t.attestations, Promoted(spec, t, p).attestations)
    ensures FlagsKept(t, Promoted(spec, t, p)) && SameLifetimes(t, Promoted(spec, t, p))
    ensures Promoted(spec, t, p).coverage == t.coverage
  {
    var b := Promoted(spec, t, p);
    var s := PromotedRows(spec, t, p);
    PromotedRowsAreDressed(spec, t, p, s, ReadyPairs(spec, s, p), b);
    PromotedFlagsAreKept(spec, t, p, s, ReadyPairs(spec, s, p), b);
    PromotedLifetimesStay(spec, t, p, s, ReadyPairs(spec, s, p), b);
  }

  lemma PromotionStaysConsistent(spec: Spec, inputs: Inputs, chain: Canonical, tip: Slot, t: Tables, p: Params)
    requires LiveConsistent(inputs, chain, tip, t)
    ensures LiveConsistent(inputs, chain, tip, Promoted(spec, t, p))
  {
    PromotionDresses(spec, t, p);
    DressedStaysConsistent(inputs, chain, tip, t, Promoted(spec, t, p));
  }

  lemma RewardsJoinStaysConsistent(inputs: Inputs, chain: Canonical, tip: Slot, t: Tables, rewards: map<Pair, Rewards>)
    requires LiveConsistent(inputs, chain, tip, t)
    ensures LiveConsistent(inputs, chain, tip, RewardsJoined(t, rewards))
  {
    RewardsJoinDresses(t, rewards);
    DressedStaysConsistent(inputs, chain, tip, t, RewardsJoined(t, rewards));
  }

  lemma SlotRowsStayConsistent(inputs: Inputs, chain: Canonical, tip: Slot, a: Tables, b: Tables)
    requires LiveConsistent(inputs, chain, tip, a) && FlagsTrue(chain, tip, b.proposals, b.syncs)
    requires b.attestations == a.attestations && b.coverage == a.coverage && b.validators == a.validators
    ensures LiveConsistent(inputs, chain, tip, b)
  {
  }

  /** At most the row of `slot` changes, to the flag and finality written. */
  lemma ProposalUpsertShape(spec: Spec, t: Tables, slot: Slot, row: ProposalRow)
    ensures var rows := UpsertedProposal(spec, t, slot, row).proposals;
      rows == t.proposals
      || (slot in rows && rows == t.proposals[slot := rows[slot]]
          && rows[slot].proposed == row.proposed && rows[slot].finalized == row.finalized)
  {
    if ProposalAccepted(spec, t, slot, row) {
      var rewards := if slot in t.proposals then row.rewards.Or(t.proposals[slot].rewards) else row.rewards;
      assert UpsertedProposal(spec, t, slot, row).proposals == t.proposals[slot := row.(rewards := rewards)];
    }
  }

  lemma SyncUpsertShape(spec: Spec, t: Tables, key: (Validator, Slot), row: SyncRow)
    ensures var rows := UpsertedSync(spec, t, key, row).syncs;
      && key in rows && rows == t.syncs[key := rows[key]]
      && (|| (key in t.syncs && rows[key] == t.syncs[key])
          || (rows[key].missedBlock == row.missedBlock && rows[key].finalized == row.finalized))
  {
    SyncCommittee.UpsertIsMerge(spec, t, key, row);
  }

  /** A proposal row that is final, or right about the chain. */
  lemma ProposalFlagStaysTrue(spec: Spec, chain: Canonical, tip: Slot, t: Tables, slot: Slot, row: ProposalRow)
    requires FlagsTrue(chain, tip, t.proposals, t.syncs)
    requires row.finalized || (slot <= tip && (row.proposed <==> slot in chain))
    ensures FlagsTrue(chain, tip, UpsertedProposal(spec, t, slot, row).proposals, t.syncs)
  {
    ProposalUpsertShape(spec, t, slot, row);
    var rows := UpsertedProposal(spec, t, slot, row).proposals;
    forall s | s in rows && !rows[s].finalized ensures s <= tip && (rows[s].proposed <==> s in chain) {
      assert s != slot ==> s in t.proposals && rows[s] == t.proposals[s];
    }
  }

  lemma SyncFlagStaysTrue(spec: Spec, chain: Canonical, tip: Slot, t: Tables, key: (Validator, Slot), row: SyncRow)
    requires FlagsTrue(chain, tip, t.proposals, t.syncs) && row.finalized
    ensures FlagsTrue(chain, tip, t.proposals, UpsertedSync(spec, t, key, row).syncs)
  {
    SyncUpsertShape(spec, t, key, row);
    var rows := UpsertedSync(spec, t, key, row).syncs;
    forall k: (Validator, Slot) | k in rows && !rows[k].finalized
      ensures k.1 <= tip && (rows[k].missedBlock <==> k.1 !in chain)
    {
      assert k != key ==> k in t.syncs && rows[k] == t.syncs[k];
    }
  }

  /** A proposal reward is written for a block of the chain. */
  lemma ProposalRewardStaysConsistent(
    spec: Spec, inputs: Inputs, chain: Canonical, tip: Slot, t: Tables, slot: Slot, row: ProposalRow)
    requires LiveConsistent(inputs, chain, tip, t) && slot in chain && row.proposed
    ensures LiveConsistent(inputs, chain, tip, UpsertedProposal(spec, t, slot, row))
  {
    ProposalFlagStaysTrue(spec, chain, tip, t, slot, row);
    SlotRowsStayConsistent(inputs, chain, tip, t, UpsertedProposal(spec, t, slot, row));
  }

  lemma SyncRewardsStayConsistent(
    inputs: Inputs, chain: Canonical, tip: Slot, t: Tables, slot: Slot, amounts: map<Validator, int>)
    requires LiveConsistent(inputs, chain, tip, t)
    ensures LiveConsistent(inputs, chain, tip, SyncRewardsJoined(t, slot, amounts))
  {
  }

  lemma ArchiveWriteDresses(t: Tables, key: Pair, write: AttestationWrite)
    requires write.finalized
    ensures AllDressed(t.attestations, UpsertedAttestation(t, key, write).attestations)
  {
  }

  lemma CompletionDresses(t: Tables, validators: set<Validator>, epoch: Epoch)
    ensures AllDressed(t.attestations, CompletionMarked(t, validators, epoch).attestations)
  {
  }

  // ---- Both workers ----

  /** Whatever is not a live observation, a rollback, or a change of lifetimes. */
  predicate IsUpkeep(action: Action) {
    && !action.UpsertValidator? && !action.LiveAttestation? && !action.Repair? && !action.LiveProposal?
          && !action.LiveSync?
    && !action.RecordCoverage? && !action.InvalidateFrom?
  }

  /** Archive writes included, at any point between two statements of the live worker. */
  lemma StepStaysConsistent(spec: Spec, w: World, action: Action, inputs: Inputs, chain: Canonical, tip: Slot)
    requires Enabled(w, action) && IsUpkeep(action) && LiveConsistent(inputs, chain, tip, w.t)
    ensures LiveConsistent(inputs, chain, tip, Step(spec, w, action).t)
  {
    match action
    case LiveRewards(rewards) => RewardsJoinStaysConsistent(inputs, chain, tip, w.t, rewards);
    case LiveSyncRewards(slot, amounts) => SyncRewardsStayConsistent(inputs, chain, tip, w.t, slot, amounts);
    case Promote(p) => PromotionStaysConsistent(spec, inputs, chain, tip, w.t, p);
    case ArchiveAttestation(v, write) =>
      ArchiveWriteStaysConsistent(inputs, chain, tip, w.t, (v, w.archive.epoch), write);
    case FinishScan => CompletionStaysConsistent(inputs, chain, tip, w.t, w.archive.validators, w.archive.epoch);
    case ArchiveProposal(slot, row) => ArchiveProposalStaysConsistent(spec, inputs, chain, tip, w.t, slot, row);
    case ArchiveSync(member, row) => ArchiveSyncStaysConsistent(spec, inputs, chain, tip, w.t, member, row);
    case _ => OtherStepStaysConsistent(spec, w, action, inputs, chain, tip);
  }

  lemma ArchiveWriteStaysConsistent(
    inputs: Inputs, chain: Canonical, tip: Slot, t: Tables, key: Pair, write: AttestationWrite)
    requires LiveConsistent(inputs, chain, tip, t) && write.finalized
    ensures LiveConsistent(inputs, chain, tip, UpsertedAttestation(t, key, write))
  {
    ArchiveWriteDresses(t, key, write);
    DressedStaysConsistent(inputs, chain, tip, t, UpsertedAttestation(t, key, write));
  }

  lemma CompletionStaysConsistent(
    inputs: Inputs, chain: Canonical, tip: Slot, t: Tables, validators: set<Validator>, epoch: Epoch)
    requires LiveConsistent(inputs, chain, tip, t)
    ensures LiveConsistent(inputs, chain, tip, CompletionMarked(t, validators, epoch))
  {
    CompletionDresses(t, validators, epoch);
    DressedStaysConsistent(inputs, chain, tip, t, CompletionMarked(t, validators, epoch));
  }

  lemma ArchiveProposalStaysConsistent(
    spec: Spec, inputs: Inputs, chain: Canonical, tip: Slot, t: Tables, slot: Slot, row: ProposalRow)
    requires LiveConsistent(inputs, chain, tip, t) && row.finalized
    ensures LiveConsistent(inputs, chain, tip, UpsertedProposal(spec, t, slot, row))
  {
    ProposalFlagStaysTrue(spec, chain, tip, t, slot, row);
    SlotRowsStayConsistent(inputs, chain, tip, t, UpsertedProposal(spec, t, slot, row));
  }

  lemma ArchiveSyncStaysConsistent(
    spec: Spec, inputs: Inputs, chain: Canonical, tip: Slot, t: Tables, key: (Validator, Slot), row: SyncRow)
    requires LiveConsistent(inputs, chain, tip, t) && row.finalized
    ensures LiveConsistent(inputs, chain, tip, UpsertedSync(spec, t, key, row))
  {
    SyncFlagStaysTrue(spec, chain, tip, t, key, row);
    SlotRowsStayConsistent(inputs, chain, tip, t, UpsertedSync(spec, t, key, row));
  }

  /** Jobs, blocks, gaps, tracking, watermarks, and fewer covered slots. */
  lemma OtherStepStaysConsistent(spec: Spec, w: World, action: Action, inputs: Inputs, chain: Canonical, tip: Slot)
    requires Enabled(w, action) && LiveConsistent(inputs, chain, tip, w.t)
    requires || action.RecordBlock? || action.EnqueueJobs? || action.CompleteJob? || action.ExpireJobs? || action.Prune?
             || action.RegisterTrackingStart? || action.BeginScan? || action.AbandonScan? || action.UpdateWatermark?
    ensures LiveConsistent(inputs, chain, tip, Step(spec, w, action).t)
  {
  }
}
