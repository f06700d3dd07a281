/**
 * What a promotion asks of the rows it freezes and of the pairs it completes, read off its outcome
 * (src/live/finalization.rs:116-324).
 */
module Completing {
  import opened Wrappers
  import opened Chain
  import opened Rows
  import opened Tables
  import opened Promotion
  import opened Settling

  // ---- Completed pairs ----

  /** The reward job has been collected, on a block of the confirmed ancestry. */
  predicate Paid(t: Tables, p: Params, j: JobKey) {
    && j in t.jobs && t.jobs[j].status == Complete
    && t.jobs[j].dependency.Some? && t.jobs[j].dependency.value in p.roots
  }

  predicate InEpoch(spec: Spec, epoch: Epoch, slot: Slot) {
    EpochStart(spec, epoch) <= slot < EpochStart(spec, epoch + 1)
  }

  /** The duty row shows a known outcome with everything known about it, rewards included. */
  predicate RowEarned(row: AttestationRow) {
    && row.inclusionKnown
    && (row.details.included ==> row.details.effectiveDelay.Some?)
    && (row.details.included ==> row.marks.source.Some? && row.marks.target.Some? && row.marks.head.Some?)
    && row.rewards.source.Some? && row.rewards.target.Some? && row.rewards.head.Some?
  }

  /** Every proposed slot of the pair has all four reward columns, from a collected job. */
  ghost predicate ProposalsEarned(spec: Spec, t: Tables, p: Params, rows: map<Slot, ProposalRow>, k: Pair) {
    forall s <- rows :: rows[s].proposer == k.0 && InEpoch(spec, k.1, s) && rows[s].proposed ==>
      && rows[s].rewards.total.Some? && rows[s].rewards.attestations.Some?
      && rows[s].rewards.sync.Some? && rows[s].rewards.slashings.Some?
      && Paid(t, p, ProposalJob(k.0, s))
  }

  /** Every sync slot of the pair that had a block has its reward, from a collected job. */
  ghost predicate SyncsEarned(spec: Spec, t: Tables, p: Params, rows: map<(Validator, Slot), SyncRow>, k: Pair) {
    forall m <- rows :: m.0 == k.0 && InEpoch(spec, k.1, m.1) && !rows[m].missedBlock ==>
      rows[m].reward.Some? && Paid(t, p, SyncJob(k.0, m.1))
  }

  ghost predicate JobsPaid(spec: Spec, t: Tables, p: Params, k: Pair) {
    && Paid(t, p, AttestationJob(k.0, k.1))
    && forall j <- t.jobs :: j.validator == k.0 && j.InEpoch(spec) == k.1 ==> Paid(t, p, j)
  }

  /** A tracked pair through the target, above the floor, whose two epochs were scanned slot by slot. */
  ghost predicate DutyEarned(spec: Spec, t: Tables, p: Params, rows: map<Pair, AttestationRow>, k: Pair) {
    && k in rows && RowEarned(rows[k])
    && k !in t.completed && k.0 in p.validators && k.1 <= p.target && EpochStart(spec, k.1) >= p.floor
    && (forall s: Slot :: EpochStart(spec, k.1) <= s < EpochStart(spec, k.1 + 2) ==> (k.0, s) in t.coverage)
  }

  /** What the pair must have had, in the rows the promotion leaves. */
  ghost predicate Earned(spec: Spec, t: Tables, p: Params, after: Tables, k: Pair) {
    && DutyEarned(spec, t, p, after.attestations, k)
    && JobsPaid(spec, t, p, k)
    && ProposalsEarned(spec, t, p, after.proposals, k)
    && SyncsEarned(spec, t, p, after.syncs, k)
  }

  lemma PendingProposals(spec: Spec, s: Tables, p: Params, k: Pair, t: Tables, rows: map<Slot, ProposalRow>)
    requires s.jobs == t.jobs && rows.Keys == s.proposals.Keys
    requires forall x <- rows :: rows[x] == s.proposals[x].(finalized := rows[x].finalized)
    ensures (forall x <- s.proposals :: !ProposalPending(spec, s, p, k, x)) <==> ProposalsEarned(spec, t, p, rows, k)
  {
    forall x | x in rows
      ensures ProposalPending(spec, s, p, k, x) <==>
        rows[x].proposer == k.0 && InEpoch(spec, k.1, x) && rows[x].proposed
        && !(&& rows[x].rewards.total.Some? && rows[x].rewards.attestations.Some?
             && rows[x].rewards.sync.Some? && rows[x].rewards.slashings.Some?
             && Paid(t, p, ProposalJob(k.0, x)))
    {
      EpochOfBounds(spec, x, k.1);
    }
  }

  lemma PendingSyncs(spec: Spec, s: Tables, p: Params, k: Pair, t: Tables, rows: map<(Validator, Slot), SyncRow>)
    requires s.jobs == t.jobs && rows.Keys == s.syncs.Keys
    requires forall m <- rows :: rows[m] == s.syncs[m].(finalized := rows[m].finalized)
    ensures (forall m <- s.syncs :: !SyncPending(spec, s, p, k, m)) <==> SyncsEarned(spec, t, p, rows, k)
  {
    forall m | m in rows
      ensures SyncPending(spec, s, p, k, m) <==>
        m.0 == k.0 && InEpoch(spec, k.1, m.1) && !rows[m].missedBlock
        && !(rows[m].reward.Some? && Paid(t, p, SyncJob(k.0, m.1)))
    {
      EpochOfBounds(spec, m.1, k.1);
    }
  }

  lemma SettledJobs(spec: Spec, s: Tables, p: Params, k: Pair, t: Tables)
    requires s.jobs == t.jobs
    ensures (Settled(s, p, AttestationJob(k.0, k.1)) && forall j <- s.jobs :: j.Pair(spec) == k ==> Settled(s, p, j))
       <==> JobsPaid(spec, t, p, k)
  {
    forall j | j in t.jobs
      ensures Settled(s, p, j) <==> Paid(t, p, j)
      ensures j.Pair(spec) == k <==> j.validator == k.0 && j.InEpoch(spec) == k.1
    {
    }
  }

  lemma ReadyReads(spec: Spec, s: Tables, p: Params, k: Pair, t: Tables, rows: map<Pair, AttestationRow>)
    requires s.completed == t.completed && s.coverage == t.coverage && rows.Keys == s.attestations.Keys
    requires k in rows ==> rows[k] == s.attestations[k].(finalized := rows[k].finalized)
    ensures k in ReadyPairs(spec, s, p) <==> DutyEarned(spec, t, p, rows, k) && RewardsSettled(spec, s, p, k)
  {
    CountMeansEverySlot(spec, s, k);
  }

  lemma SettledReads(spec: Spec, s: Tables, p: Params, k: Pair, t: Tables, after: Tables)
    requires s.jobs == t.jobs
    requires after.proposals.Keys == s.proposals.Keys && after.syncs.Keys == s.syncs.Keys
    requires forall x <- after.proposals ::
      after.proposals[x] == s.proposals[x].(finalized := after.proposals[x].finalized)
    requires forall m <- after.syncs :: after.syncs[m] == s.syncs[m].(finalized := after.syncs[m].finalized)
    ensures RewardsSettled(spec, s, p, k)
       <==> JobsPaid(spec, t, p, k) && ProposalsEarned(spec, t, p, after.proposals, k)
            && SyncsEarned(spec, t, p, after.syncs, k)
  {
    PendingProposals(spec, s, p, k, t, after.proposals);
    PendingSyncs(spec, s, p, k, t, after.syncs);
    SettledJobs(spec, s, p, k, t);
  }

  lemma ReadyIsEarned(spec: Spec, t: Tables, p: Params, s: Tables, after: Tables, k: Pair)
    requires SettledFrom(spec, t, p, s) && CompletedFrom(spec, s, ReadyPairs(spec, s, p), after)
    ensures k in ReadyPairs(spec, s, p) <==> Earned(spec, t, p, after, k)
  {
    ReadyReads(spec, s, p, k, t, after.attestations);
    SettledReads(spec, s, p, k, t, after);
  }

  /**
   * A pair is complete after a promotion if and only if it was before or has earned it: its outcome known with delay
   * and marks, its window covered, its rewards there, and every job of it collected on the confirmed ancestry.
   */
  lemma CompletedIffEarned(spec: Spec, t: Tables, p: Params, k: Pair)
    ensures k in Promoted(spec, t, p).completed <==> k in t.completed || Earned(spec, t, p, Promoted(spec, t, p), k)
  {
    var s := PromotedRows(spec, t, p);
    ReadyIsEarned(spec, t, p, s, Promoted(spec, t, p), k);
  }

  /** The count the transaction returns is of the pairs it has newly completed. */
  lemma CountsNewPairs(spec: Spec, t: Tables, p: Params)
    ensures PromotedCount(spec, t, p) == |Promoted(spec, t, p).completed - t.completed|
  {
    var s, ready := Stages(spec, t, p);
  }

  // ---- Rows ----

  predicate Confirmed(t: Tables, p: Params, slot: Slot) {
    slot in t.blocks && t.blocks[slot].root in p.roots
  }

  /** The shown inclusion is confirmed, or the duty's two epochs were scanned and nothing contradicts the row. */
  ghost predicate OutcomeProved(spec: Spec, t: Tables, p: Params, k: Pair)
    requires k in t.attestations
  {
    var d := t.attestations[k].details;
    && k.0 in p.validators
    && (|| (d.included && d.inclusionSlot.Some?
            && d.inclusionSlot.value >= p.floor && Confirmed(t, p, d.inclusionSlot.value))
        || (&& k.1 <= p.target && EpochStart(spec, k.1) >= p.floor
            && (forall s: Slot :: EpochStart(spec, k.1) <= s < EpochStart(spec, k.1 + 2) ==> (k.0, s) in t.coverage)
            && (d.included ==> d.inclusionSlot.Some? && Confirmed(t, p, d.inclusionSlot.value))))
  }

  /** What the slot row shows is what the confirmed ancestry and the stored blocks say about its slot. */
  predicate SlotProved(spec: Spec, t: Tables, p: Params, owner: Validator, slot: Slot, present: bool) {
    && owner in p.validators && p.floor <= slot < EpochStart(spec, p.finalizedEpoch)
    && (owner, slot) in t.coverage
    && (present ==> Confirmed(t, p, slot))
    && (!present ==> slot !in t.blocks)
  }

  predicate Inferred(mark: Option<bool>, before: Option<bool>, reward: Option<int>) {
    mark == if before.None? && reward.Some? && reward.value > 0 then Some(true) else before
  }

  /** The response was staged by a paid job of a tracked, incomplete pair. */
  predicate Replays(t: Tables, p: Params, k: Pair, last: Epoch, j: JobKey) {
    k.0 in p.validators && k.1 <= last && k !in t.completed && Paid(t, p, j) && t.jobs[j].payload.Some?
  }

  predicate TotalsReplay(t: Tables, p: Params, k: Pair) {
    var j := AttestationJob(k.0, k.1);
    && Replays(t, p, k, p.target, j)
    && t.jobs[j].payload.value.AttestationPayload? && k.0 in t.jobs[j].payload.value.totals
  }

  /**
   * A duty row after a promotion: the staged totals of a paid job, its flags raised exactly on proof or completion,
   * and its outcome as it was.
   */
  ghost predicate DutyPromoted(spec: Spec, t: Tables, p: Params, k: Pair, completes: bool, after: AttestationRow)
    requires k in t.attestations
  {
    var row := t.attestations[k];
    && after.assignment == row.assignment && after.details == row.details
    && (after.inclusionKnown <==> row.inclusionKnown || OutcomeProved(spec, t, p, k))
    && (after.finalized <==> row.finalized || OutcomeProved(spec, t, p, k) || completes)
    && (TotalsReplay(t, p, k) ==>
          && after.rewards == t.jobs[AttestationJob(k.0, k.1)].payload.value.totals[k.0]
          && Inferred(after.marks.source, row.marks.source, after.rewards.source)
          && Inferred(after.marks.target, row.marks.target, after.rewards.target)
          && Inferred(after.marks.head, row.marks.head, after.rewards.head))
    && (!TotalsReplay(t, p, k) ==> after.rewards == row.rewards && after.marks == row.marks)
  }

  lemma DutySettles(spec: Spec, t: Tables, p: Params, k: Pair, completes: bool, after: AttestationRow)
    requires k in t.attestations
    requires var x := SettledAttestation(spec, t, p, k); after == x.(finalized := x.finalized || completes)
    ensures DutyPromoted(spec, t, p, k, completes, after)
  {
    CountMeansEverySlot(spec, t, k);
  }

  lemma PromotedAttestation(spec: Spec, t: Tables, p: Params, k: Pair)
    requires k in t.attestations
    ensures var after := Promoted(spec, t, p);
      && k in after.attestations
      && DutyPromoted(spec, t, p, k, k in after.completed - t.completed, after.attestations[k])
  {
    var s, ready := Stages(spec, t, p);
    DutySettles(spec, t, p, k, k in ready, Promoted(spec, t, p).attestations[k]);
  }

  /** The settled tables, and the pairs the promotion completes. */
  lemma Stages(spec: Spec, t: Tables, p: Params) returns (s: Tables, ready: set<Pair>)
    ensures SettledFrom(spec, t, p, s) && CompletedFrom(spec, s, ready, Promoted(spec, t, p))
    ensures ready == Promoted(spec, t, p).completed - t.completed == ReadyPairs(spec, s, p)
    ensures s == FlagsSettled(spec, t, p)
  {
    s := PromotedRows(spec, t, p);
    ready := ReadyPairs(spec, s, p);
    CompletionsAreNew(spec, t, p, s, ready, Promoted(spec, t, p));
  }

  lemma CompletionsAreNew(spec: Spec, t: Tables, p: Params, s: Tables, ready: set<Pair>, after: Tables)
    requires s.completed == t.completed && after.completed == s.completed + ready && ready == ReadyPairs(spec, s, p)
    ensures ready == after.completed - t.completed
  {
    assert forall k <- ready :: k !in s.completed;
  }

  predicate ProposalReplay(spec: Spec, t: Tables, p: Params, slot: Slot)
    requires slot in t.proposals
  {
    var v := t.proposals[slot].proposer;
    var j := ProposalJob(v, slot);
    && Replays(t, p, (v, EpochOf(spec, slot)), p.finalizedEpoch, j)
    && t.jobs[j].payload.value.ProposalPayload? && t.jobs[j].payload.value.proposer == v
  }

  predicate ProposalPromoted(spec: Spec, t: Tables, p: Params, slot: Slot, completes: bool, after: ProposalRow)
    requires slot in t.proposals
  {
    var row := t.proposals[slot];
    && after.proposer == row.proposer && after.proposed == row.proposed
    && (after.finalized <==>
          row.finalized || SlotProved(spec, t, p, row.proposer, slot, row.proposed) || completes)
    && after.rewards == (if ProposalReplay(spec, t, p, slot)
                         then t.jobs[ProposalJob(row.proposer, slot)].payload.value.rewards else row.rewards)
  }

  lemma ProposalSettles(spec: Spec, t: Tables, p: Params, slot: Slot, completes: bool, after: ProposalRow)
    requires slot in t.proposals
    requires var x := SettledProposal(spec, t, p, slot); after == x.(finalized := x.finalized || completes)
    ensures ProposalPromoted(spec, t, p, slot, completes, after)
  {
    EpochOfBounds(spec, slot, p.finalizedEpoch);
  }

  lemma PromotedProposal(spec: Spec, t: Tables, p: Params, slot: Slot)
    requires slot in t.proposals
    ensures var (after, k) := (Promoted(spec, t, p), (t.proposals[slot].proposer, EpochOf(spec, slot)));
      && slot in after.proposals
      && ProposalPromoted(spec, t, p, slot, k in after.completed - t.completed, after.proposals[slot])
  {
    var s, ready := Stages(spec, t, p);
    var k := (t.proposals[slot].proposer, EpochOf(spec, slot));
    ProposalSettles(spec, t, p, slot, k in ready, Promoted(spec, t, p).proposals[slot]);
  }

  predicate SyncReplay(spec: Spec, t: Tables, p: Params, m: (Validator, Slot)) {
    var j := SyncJob(m.0, m.1);
    && Replays(t, p, (m.0, EpochOf(spec, m.1)), p.finalizedEpoch, j)
    && t.jobs[j].payload.value.SyncPayload? && m.0 in t.jobs[j].payload.value.amounts
  }

  predicate SyncPromoted(spec: Spec, t: Tables, p: Params, m: (Validator, Slot), completes: bool, after: SyncRow)
    requires m in t.syncs
  {
    var row := t.syncs[m];
    && after.participated == row.participated && after.missedBlock == row.missedBlock
    && (after.finalized <==> row.finalized || SlotProved(spec, t, p, m.0, m.1, !row.missedBlock) || completes)
    && after.reward == (if SyncReplay(spec, t, p, m)
                        then Some(t.jobs[SyncJob(m.0, m.1)].payload.value.amounts[m.0]) else row.reward)
  }

  lemma SyncSettles(spec: Spec, t: Tables, p: Params, m: (Validator, Slot), completes: bool, after: SyncRow)
    requires m in t.syncs
    requires var x := SettledSync(spec, t, p, m); after == x.(finalized := x.finalized || completes)
    ensures SyncPromoted(spec, t, p, m, completes, after)
  {
    EpochOfBounds(spec, m.1, p.finalizedEpoch);
  }

  lemma PromotedSync(spec: Spec, t: Tables, p: Params, m: (Validator, Slot))
    requires m in t.syncs
    ensures var (after, k) := (Promoted(spec, t, p), (m.0, EpochOf(spec, m.1)));
      && m in after.syncs
      && SyncPromoted(spec, t, p, m, k in after.completed - t.completed, after.syncs[m])
  {
    var s, ready := Stages(spec, t, p);
    SyncSettles(spec, t, p, m, (m.0, EpochOf(spec, m.1)) in ready, Promoted(spec, t, p).syncs[m]);
  }

  /** No row appears or goes, and the evidence stays as it is. */
  lemma PromotedElsewhere(spec: Spec, t: Tables, p: Params)
    ensures var after := Promoted(spec, t, p);
      && after.attestations.Keys == t.attestations.Keys && after.proposals.Keys == t.proposals.Keys
      && after.syncs.Keys == t.syncs.Keys && after.validators.Keys == t.validators.Keys
      && after.blocks == t.blocks && after.coverage == t.coverage && after.jobs == t.jobs && after.started == t.started
  {
    var s, ready := Stages(spec, t, p);
  }

  /** The later of the watermark and the newest of the epochs. */
  ghost predicate IsRaised(before: Option<Epoch>, after: Option<Epoch>, epochs: set<Epoch>) {
    && (after.Some? ==> after == before || after.value in epochs)
    && (before.Some? ==> after.Some? && before.value <= after.value)
    && (forall e <- epochs :: after.Some? && e <= after.value)
  }

  /** Each watermark rises to the newest epoch completed for its validator; lifetimes stay. */
  lemma PromotedWatermark(spec: Spec, t: Tables, p: Params, v: Validator)
    requires v in t.validators
    ensures var after := Promoted(spec, t, p);
      && v in after.validators
      && after.validators[v] == t.validators[v].(lastScanned := after.validators[v].lastScanned)
      && IsRaised(t.validators[v].lastScanned, after.validators[v].lastScanned,
                  set k | k in after.completed - t.completed && k.0 == v :: k.1)
  {
    var s, ready := Stages(spec, t, p);
    assert (set k | k in ready && k.0 == v :: k.1) == EpochsOf(v, ready);
    RaisedIsRaised(t.validators[v], EpochsOf(v, ready));
  }

  lemma RaisedIsRaised(row: ValidatorRow, epochs: set<Epoch>)
    ensures IsRaised(row.lastScanned, Raised(row, epochs).lastScanned, epochs)
    ensures Raised(row, epochs) == row.(lastScanned := Raised(row, epochs).lastScanned)
  {
  }

  /** The gaps afterwards: those that were, and each tracked, active epoch through the target that is not complete. */
  lemma PromotedGaps(spec: Spec, t: Tables, p: Params, k: Pair)
    ensures var after := Promoted(spec, t, p);
      k in after.gaps <==>
        || k in t.gaps
        || (&& k.0 in p.validators && k.0 in t.started && k.0 in t.validators && t.started[k.0] <= k.1 <= p.target
            && t.validators[k.0].activation <= k.1
            && (t.validators[k.0].exit.Some? ==> t.validators[k.0].exit.value > k.1)
            && k !in after.completed)
  {
    var s := PromotedRows(spec, t, p);
    var c := PairsCompleted(spec, s, ReadyPairs(spec, s, p));
    assert Missing(c, p, k) ==> (k.0, k.1) in GapsRecorded(c, p).gaps;
  }
}
