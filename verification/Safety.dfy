/**
 * Two writers over one store: the live worker and the archive worker interleave at the grain of a
 * statement or transaction. What every step keeps, and so what every run keeps.
 */
module Safety {
  import opened Wrappers
  import opened Chain
  import opened Rows
  import opened Tables
  import opened Promotion
  import opened Settling

  /** Progress of the archive worker's current finalized scan (src/scanner/mod.rs:36-144). */
  datatype Archive = Idle | Scanning(epoch: Epoch, validators: set<Validator>, written: set<Validator>)

  /**
   * `witnessed` is a history variable: pairs whose whole window was covered at a promotion, or written as a miss by a
   * finalized scan.
   */
  datatype World = World(t: Tables, archive: Archive, witnessed: set<Pair>)

  datatype Action =
    | UpsertValidator(validator: Validator, activation: Epoch, exit: Option<Epoch>)
    // live worker
    | LiveAttestation(key: Pair, write: AttestationWrite)
    | LiveRewards(rewards: map<Pair, Rewards>)
    | Repair(key: Pair, fix: InclusionDetails)
    | LiveProposal(slot: Slot, proposal: ProposalRow)
    | LiveSync(member: (Validator, Slot), sync: SyncRow)
    | LiveSyncRewards(slot: Slot, amounts: map<Validator, int>)
    | RecordBlock(slot: Slot, root: Root, parent: Root)
    | RecordCoverage(tracked: set<Validator>, slot: Slot)
    | EnqueueJobs(keys: set<JobKey>, jobRoot: Option<Root>)
    | CompleteJob(keys: set<JobKey>, payload: Payload, dependency: Root)
    | ExpireJobs(minEpoch: Epoch)
    | InvalidateFrom(slot: Slot)
    | Promote(p: Params)
    | Prune(retainEpoch: Epoch)
    | RegisterTrackingStart(tracked: set<Validator>, startEpoch: Epoch)
    // archive worker
    | BeginScan(scanEpoch: Epoch, scan: set<Validator>)
    | ArchiveAttestation(validator: Validator, write: AttestationWrite)
    | ArchiveProposal(slot: Slot, proposal: ProposalRow)
    | ArchiveSync(member: (Validator, Slot), sync: SyncRow)
    | FinishScan
    | AbandonScan
    | UpdateWatermark(scan: set<Validator>, scanEpoch: Epoch)

  /** Live writes are provisional, archive writes are final, and a scan finishes after every stage. */
  predicate Enabled(w: World, action: Action) {
    match action
    case LiveAttestation(_, write) => !write.finalized
    case LiveProposal(_, row) => !row.finalized
    case LiveSync(_, row) => !row.finalized
    case RecordBlock(slot, root, _) => RootFree(w.t, slot, root)
    case BeginScan(_, _) => w.archive.Idle?
    case ArchiveAttestation(v, write) => w.archive.Scanning? && v in w.archive.validators && write.finalized
    case ArchiveProposal(_, row) => w.archive.Scanning? && row.finalized
    case ArchiveSync(_, row) => w.archive.Scanning? && row.finalized
    case FinishScan => w.archive.Scanning? && w.archive.written == w.archive.validators
    case AbandonScan => w.archive.Scanning?
    case _ => true
  }

  ghost function Step(spec: Spec, w: World, action: Action): World
    requires Enabled(w, action)
  {
    match action
    case UpsertValidator(v, activation, exit) =>
      var last := if v in w.t.validators then w.t.validators[v].lastScanned else None;
      w.(t := w.t.(validators := w.t.validators[v := ValidatorRow(activation, exit, last)]))
    case LiveAttestation(key, write) => w.(t := UpsertedAttestation(w.t, key, write))
    case LiveRewards(rewards) => w.(t := RewardsJoined(w.t, rewards))
    case Repair(key, fix) => w.(t := InclusionRepaired(w.t, key, fix))
    case LiveProposal(slot, row) => w.(t := UpsertedProposal(spec, w.t, slot, row))
    case LiveSync(member, row) => w.(t := UpsertedSync(spec, w.t, member, row))
    case LiveSyncRewards(slot, amounts) => w.(t := SyncRewardsJoined(w.t, slot, amounts))
    case RecordBlock(slot, root, parent) => w.(t := BlockRecorded(w.t, slot, root, parent))
    case RecordCoverage(tracked, slot) => w.(t := CoverageRecorded(w.t, tracked, slot))
    case EnqueueJobs(keys, root) => w.(t := JobsEnqueued(w.t, keys, root))
    case CompleteJob(keys, payload, dependency) => w.(t := JobsCompleted(w.t, keys, payload, dependency))
    case ExpireJobs(minEpoch) => w.(t := JobsExpired(spec, w.t, minEpoch))
    case InvalidateFrom(slot) => w.(t := InvalidatedFrom(spec, w.t, slot))
    case Promote(p) =>
      w.(t := Promoted(spec, w.t, p),
         witnessed := w.witnessed + set k | k in w.t.attestations && WindowCovered(spec, w.t, k))
    case Prune(retainEpoch) => w.(t := Pruned(spec, w.t, retainEpoch))
    case RegisterTrackingStart(tracked, epoch) => w.(t := TrackingRegistered(spec, w.t, tracked, epoch))
    case BeginScan(epoch, scan) => w.(archive := Scanning(epoch, scan, {}))
    case ArchiveAttestation(v, write) =>
      var key := (v, w.archive.epoch);
      w.(t := UpsertedAttestation(w.t, key, write),
         archive := w.archive.(written := w.archive.written + {v}),
         witnessed := w.witnessed + if write.details.included then {} else {key})
    case ArchiveProposal(slot, row) => w.(t := UpsertedProposal(spec, w.t, slot, row))
    case ArchiveSync(member, row) => w.(t := UpsertedSync(spec, w.t, member, row))
    case FinishScan => w.(t := CompletionMarked(w.t, w.archive.validators, w.archive.epoch), archive := Idle)
    case AbandonScan => w.(archive := Idle)
    case UpdateWatermark(scan, epoch) => w.(t := ScannedThrough(w.t, scan, epoch))
  }

  // ---- The inductive invariant ----

  /** A completed pair has its row, final and known. */
  ghost predicate CompletedHaveRows(t: Tables) {
    forall k <- t.completed :: k in t.attestations && t.attestations[k].finalized && t.attestations[k].inclusionKnown
  }

  ghost predicate KnownIsFinal(t: Tables) {
    forall k <- t.attestations :: t.attestations[k].inclusionKnown ==> t.attestations[k].finalized
  }

  /** A row shown as a miss has a witness. */
  ghost predicate MissesWitnessed(w: World) {
    forall k <- w.t.attestations :: w.t.attestations[k].inclusionKnown && !w.t.attestations[k].details.included ==>
      k in w.witnessed
  }

  /** Rows the current scan has written are final, and a miss among them is witnessed. */
  ghost predicate WrittenRows(w: World) {
    w.archive.Scanning? ==>
      forall v <- w.archive.written ::
        var k := (v, w.archive.epoch);
        && k in w.t.attestations && w.t.attestations[k].finalized
        && (w.t.attestations[k].details.included || k in w.witnessed)
  }

  /** A job that was given up on left an explicit gap, or its pair is complete. */
  ghost predicate RetiredJobsHaveGaps(spec: Spec, t: Tables) {
    forall j <- t.jobs :: t.jobs[j].status == NeedsBackfill ==> j.Pair(spec) in t.gaps || j.Pair(spec) in t.completed
  }

  ghost predicate Inv(spec: Spec, w: World) {
    && CompletedHaveRows(w.t)
    && KnownIsFinal(w.t)
    && MissesWitnessed(w)
    && WrittenRows(w)
    && RetiredJobsHaveGaps(spec, w.t)
  }

  // ---- What a later state must keep ----

  /** Only missing details may be filled in, at the same inclusion slot, leaving none missing. */
  ghost predicate Refreshed(a: AttestationRow, b: AttestationRow) {
    && a.details.included && (a.details.effectiveDelay.None? || !a.marks.Complete())
    && b.details.effectiveDelay.Some? && b.marks.Complete()
    && b == a.(details :=
          a.details.(delay := b.details.delay, effectiveDelay := b.details.effectiveDelay), marks := b.marks)
  }

  ghost predicate AttestationsKeptIn(a: Tables, b: Tables) {
    forall k <- a.attestations :: a.attestations[k].finalized ==>
      && k in b.attestations && b.attestations[k].finalized
      && (k in a.completed ==>
            b.attestations[k] == a.attestations[k] || Refreshed(a.attestations[k], b.attestations[k]))
  }

  ghost predicate ProposalsKeptIn(spec: Spec, a: Tables, b: Tables) {
    forall s <- a.proposals :: a.proposals[s].finalized ==>
      && s in b.proposals && b.proposals[s].finalized
      && ((a.proposals[s].proposer, EpochOf(spec, s)) in a.completed ==> b.proposals[s] == a.proposals[s])
  }

  ghost predicate SyncsKeptIn(spec: Spec, a: Tables, b: Tables) {
    forall k <- a.syncs :: a.syncs[k].finalized ==>
      && k in b.syncs && b.syncs[k].finalized
      && ((k.0, EpochOf(spec, k.1)) in a.completed ==> b.syncs[k] == a.syncs[k])
  }

  /** No final row is lost or reopened, completion is permanent, completed final rows are frozen. */
  ghost predicate Keeps(spec: Spec, a: Tables, b: Tables) {
    && AttestationsKeptIn(a, b) && ProposalsKeptIn(spec, a, b) && SyncsKeptIn(spec, a, b)
    && a.completed <= b.completed
  }

  lemma KeepsTransitive(spec: Spec, a: Tables, b: Tables, c: Tables)
    requires Keeps(spec, a, b) && Keeps(spec, b, c)
    ensures Keeps(spec, a, c)
  {
  }

  // ---- Promotion, the one hard step ----

  lemma PromoteKeepsAttestations(spec: Spec, t: Tables, p: Params, s: Tables, ready: set<Pair>, b: Tables)
    requires CompletedHaveRows(t) && SettledFrom(spec, t, p, s) && CompletedFrom(spec, s, ready, b)
    ensures AttestationsKeptIn(t, b)
  {
    forall k | k in t.attestations && t.attestations[k].finalized
      ensures b.attestations[k].finalized && (k in t.completed ==> b.attestations[k] == t.attestations[k])
    {
      assert s.attestations[k] == SettledAttestation(spec, t, p, k);
      assert k in t.completed ==> t.attestations[k].inclusionKnown;
    }
  }

  lemma PromoteKeepsProposals(spec: Spec, t: Tables, p: Params, s: Tables, ready: set<Pair>, b: Tables)
    requires SettledFrom(spec, t, p, s) && CompletedFrom(spec, s, ready, b)
    ensures ProposalsKeptIn(spec, t, b)
  {
    forall x | x in t.proposals && t.proposals[x].finalized
      ensures b.proposals[x].finalized
      ensures (t.proposals[x].proposer, EpochOf(spec, x)) in t.completed ==> b.proposals[x] == t.proposals[x]
    {
      assert s.proposals[x] == SettledProposal(spec, t, p, x);
    }
  }

  lemma PromoteKeepsSyncs(spec: Spec, t: Tables, p: Params, s: Tables, ready: set<Pair>, b: Tables)
    requires SettledFrom(spec, t, p, s) && CompletedFrom(spec, s, ready, b)
    ensures SyncsKeptIn(spec, t, b)
  {
    forall k | k in t.syncs && t.syncs[k].finalized
      ensures b.syncs[k].finalized && ((k.0, EpochOf(spec, k.1)) in t.completed ==> b.syncs[k] == t.syncs[k])
    {
      assert s.syncs[k] == SettledSync(spec, t, p, k);
    }
  }

  lemma PromoteKeeps(spec: Spec, t: Tables, p: Params, s: Tables, ready: set<Pair>, b: Tables)
    requires CompletedHaveRows(t)
    requires SettledFrom(spec, t, p, s) && CompletedFrom(spec, s, ready, b)
    ensures Keeps(spec, t, b)
  {
    PromoteKeepsAttestations(spec, t, p, s, ready, b);
    PromoteKeepsProposals(spec, t, p, s, ready, b);
    PromoteKeepsSyncs(spec, t, p, s, ready, b);
  }

  /** The flags of one row across a promotion. */
  lemma PromotedFlags(spec: Spec, t: Tables, p: Params, s: Tables, ready: set<Pair>, b: Tables, k: Pair)
    requires KnownIsFinal(t) && k in t.attestations
    requires SettledFrom(spec, t, p, s) && CompletedFrom(spec, s, ready, b)
    ensures b.attestations[k].inclusionKnown ==> b.attestations[k].finalized
    ensures b.attestations[k].inclusionKnown == s.attestations[k].inclusionKnown
    ensures t.attestations[k].inclusionKnown ==> b.attestations[k].inclusionKnown
    ensures t.attestations[k].finalized ==> b.attestations[k].finalized
    ensures b.attestations[k].details == t.attestations[k].details
    ensures b.attestations[k].inclusionKnown && !t.attestations[k].inclusionKnown && !t.attestations[k].details.included
            ==> WindowCovered(spec, t, k)
  {
    assert s.attestations[k] == SettledAttestation(spec, t, p, k);
    CountMeansEverySlot(spec, t, k);
  }

  lemma PromoteInv(spec: Spec, w: World, p: Params, s: Tables, b: Tables, witnessed: set<Pair>)
    requires Inv(spec, w)
    requires w.witnessed <= witnessed && forall k <- w.t.attestations :: WindowCovered(spec, w.t, k) ==> k in witnessed
    requires SettledFrom(spec, w.t, p, s) && CompletedFrom(spec, s, ReadyPairs(spec, s, p), b)
    ensures Inv(spec, World(b, w.archive, witnessed))
  {
    var t, ready := w.t, ReadyPairs(spec, s, p);
    var next := World(b, w.archive, witnessed);
    forall k <- t.attestations { PromotedFlags(spec, t, p, s, ready, b, k); }
    assert KnownIsFinal(b);
    assert MissesWitnessed(next);
    assert forall k <- ready :: k in t.attestations && s.attestations[k].inclusionKnown;
    assert CompletedHaveRows(b);
    assert WrittenRows(next);
    assert RetiredJobsHaveGaps(spec, b);
  }

  // ---- Every step ----

  predicate WritesSlotRows(action: Action) {
    action.LiveProposal? || action.LiveSync? || action.LiveSyncRewards? || action.ArchiveProposal?
        || action.ArchiveSync?
  }

  /** Slot rows are not part of the invariant; what they must keep is decided by the guards. */
  lemma SlotRowWriteKeeps(spec: Spec, w: World, action: Action)
    requires Inv(spec, w) && Enabled(w, action) && WritesSlotRows(action)
    ensures Inv(spec, Step(spec, w, action))
    ensures Keeps(spec, w.t, Step(spec, w, action).t)
  {
    match action
    case LiveProposal(slot, row) => ProposalWriteKeeps(spec, w, slot, row);
    case ArchiveProposal(slot, row) => ProposalWriteKeeps(spec, w, slot, row);
    case LiveSync(member, row) => SyncWriteKeeps(spec, w, member, row);
    case ArchiveSync(member, row) => SyncWriteKeeps(spec, w, member, row);
    case LiveSyncRewards(slot, amounts) => SyncRewardsKeep(spec, w, slot, amounts);
  }

  lemma ProposalWriteKeeps(spec: Spec, w: World, slot: Slot, row: ProposalRow)
    requires Inv(spec, w)
    ensures Inv(spec, w.(t := UpsertedProposal(spec, w.t, slot, row)))
    ensures Keeps(spec, w.t, UpsertedProposal(spec, w.t, slot, row))
  {
  }

  lemma SyncWriteKeeps(spec: Spec, w: World, member: (Validator, Slot), row: SyncRow)
    requires Inv(spec, w)
    ensures Inv(spec, w.(t := UpsertedSync(spec, w.t, member, row)))
    ensures Keeps(spec, w.t, UpsertedSync(spec, w.t, member, row))
  {
  }

  lemma SyncRewardsKeep(spec: Spec, w: World, slot: Slot, amounts: map<Validator, int>)
    requires Inv(spec, w)
    ensures Inv(spec, w.(t := SyncRewardsJoined(w.t, slot, amounts)))
    ensures Keeps(spec, w.t, SyncRewardsJoined(w.t, slot, amounts))
  {
  }

  predicate WritesDutyRows(action: Action) {
    action.LiveAttestation? || action.LiveRewards? || action.Repair? || action.ArchiveAttestation?
  }

  lemma DutyRowWriteKeeps(spec: Spec, w: World, action: Action)
    requires Inv(spec, w) && Enabled(w, action) && WritesDutyRows(action)
    ensures Inv(spec, Step(spec, w, action))
    ensures Keeps(spec, w.t, Step(spec, w, action).t)
  {
    match action
    case LiveAttestation(key, write) => LiveWriteKeeps(spec, w, key, write);
    case ArchiveAttestation(v, write) => ArchiveWriteKeeps(spec, w, v, write);
    case LiveRewards(rewards) => RewardsKeep(spec, w, rewards);
    case Repair(key, fix) => RepairKeeps(spec, w, key, fix);
  }

  lemma LiveWriteKeeps(spec: Spec, w: World, key: Pair, write: AttestationWrite)
    requires Inv(spec, w) && !write.finalized
    ensures Inv(spec, w.(t := UpsertedAttestation(w.t, key, write)))
    ensures Keeps(spec, w.t, UpsertedAttestation(w.t, key, write))
  {
  }

  lemma ArchiveWriteKeeps(spec: Spec, w: World, v: Validator, write: AttestationWrite)
    requires Inv(spec, w) && Enabled(w, ArchiveAttestation(v, write))
    ensures Inv(spec, Step(spec, w, ArchiveAttestation(v, write)))
    ensures Keeps(spec, w.t, Step(spec, w, ArchiveAttestation(v, write)).t)
  {
  }

  lemma RewardsKeep(spec: Spec, w: World, rewards: map<Pair, Rewards>)
    requires Inv(spec, w)
    ensures Inv(spec, w.(t := RewardsJoined(w.t, rewards)))
    ensures Keeps(spec, w.t, RewardsJoined(w.t, rewards))
  {
  }

  lemma RepairKeeps(spec: Spec, w: World, key: Pair, fix: InclusionDetails)
    requires Inv(spec, w)
    ensures Inv(spec, w.(t := InclusionRepaired(w.t, key, fix)))
    ensures Keeps(spec, w.t, InclusionRepaired(w.t, key, fix))
  {
  }

  predicate MovesEvidence(action: Action) {
    || action.RecordBlock? || action.RecordCoverage? || action.EnqueueJobs? || action.CompleteJob? || action.ExpireJobs?
    || action.Prune? || action.RegisterTrackingStart? || action.UpsertValidator? || action.UpdateWatermark?
  }

  lemma EvidenceStepKeeps(spec: Spec, w: World, action: Action)
    requires Inv(spec, w) && Enabled(w, action) && MovesEvidence(action)
    ensures Inv(spec, Step(spec, w, action))
    ensures Keeps(spec, w.t, Step(spec, w, action).t)
  {
    var b := Step(spec, w, action);
    assert b.t.attestations == w.t.attestations && b.t.proposals == w.t.proposals && b.t.syncs == w.t.syncs;
    assert b.t.completed == w.t.completed && b.archive == w.archive && b.witnessed == w.witnessed;
    EvidenceKeepsRetired(spec, w, action);
  }

  lemma EvidenceKeepsRetired(spec: Spec, w: World, action: Action)
    requires Inv(spec, w) && Enabled(w, action) && MovesEvidence(action)
    ensures RetiredJobsHaveGaps(spec, Step(spec, w, action).t)
  {
  }

  lemma RollbackKeeps(spec: Spec, w: World, slot: Slot)
    requires Inv(spec, w)
    ensures Inv(spec, Step(spec, w, InvalidateFrom(slot)))
    ensures Keeps(spec, w.t, Step(spec, w, InvalidateFrom(slot)).t)
  {
  }

  lemma ScanStepKeeps(spec: Spec, w: World, action: Action)
    requires Inv(spec, w) && Enabled(w, action) && (action.BeginScan? || action.FinishScan? || action.AbandonScan?)
    ensures Inv(spec, Step(spec, w, action))
    ensures Keeps(spec, w.t, Step(spec, w, action).t)
  {
    if action.FinishScan? {
      FinishKeeps(spec, w);
    }
  }

  /** A finished scan marks pairs whose rows it has all written. */
  lemma FinishKeeps(spec: Spec, w: World)
    requires Inv(spec, w) && Enabled(w, FinishScan)
    ensures Inv(spec, Step(spec, w, FinishScan))
    ensures Keeps(spec, w.t, Step(spec, w, FinishScan).t)
  {
  }

  lemma PromoteStepKeeps(spec: Spec, w: World, p: Params)
    requires Inv(spec, w)
    ensures Inv(spec, Step(spec, w, Promote(p)))
    ensures Keeps(spec, w.t, Step(spec, w, Promote(p)).t)
  {
    var s := PromotedRows(spec, w.t, p);
    var b := Promoted(spec, w.t, p);
    var witnessed := w.witnessed + set k | k in w.t.attestations && WindowCovered(spec, w.t, k);
    PromoteKeeps(spec, w.t, p, s, ReadyPairs(spec, s, p), b);
    PromoteInv(spec, w, p, s, b, witnessed);
    assert Step(spec, w, Promote(p)) == World(b, w.archive, witnessed);
  }

  /** Each action preserves the invariant and everything a later state must keep. */
  lemma StepKeeps(spec: Spec, w: World, action: Action)
    requires Inv(spec, w) && Enabled(w, action)
    ensures Inv(spec, Step(spec, w, action))
    ensures Keeps(spec, w.t, Step(spec, w, action).t)
  {
    if WritesDutyRows(action) {
      DutyRowWriteKeeps(spec, w, action);
    } else if WritesSlotRows(action) {
      SlotRowWriteKeeps(spec, w, action);
    } else if MovesEvidence(action) {
      EvidenceStepKeeps(spec, w, action);
    } else if action.Promote? {
      PromoteStepKeeps(spec, w, action.p);
    } else if action.InvalidateFrom? {
      RollbackKeeps(spec, w, action.slot);
    } else {
      ScanStepKeeps(spec, w, action);
    }
  }

  // ---- Every run ----

  /** `run` is a sequence of enabled actions from `w`. */
  ghost predicate Runs(spec: Spec, w: World, run: seq<Action>)
    decreases |run|
  {
    run != [] ==> Enabled(w, run[0]) && Runs(spec, Step(spec, w, run[0]), run[1..])
  }

  ghost function After(spec: Spec, w: World, run: seq<Action>): World
    requires Runs(spec, w, run)
    decreases |run|
  {
    if run == [] then w else After(spec, Step(spec, w, run[0]), run[1..])
  }

  /** In every interleaving of both writers, final rows survive and completed ones are frozen. */
  lemma {:induction false} RunKeeps(spec: Spec, w: World, run: seq<Action>)
    requires Inv(spec, w) && Runs(spec, w, run)
    ensures Inv(spec, After(spec, w, run))
    ensures Keeps(spec, w.t, After(spec, w, run).t)
    decreases |run|
  {
    if run != [] {
      StepKeeps(spec, w, run[0]);
      RunKeeps(spec, Step(spec, w, run[0]), run[1..]);
      KeepsTransitive(spec, w.t, Step(spec, w, run[0]).t, After(spec, w, run).t);
    }
  }

  /** From an empty database: known implies final, and a shown miss has its witness, in every reachable state. */
  lemma ReachableStatesAreHonest(spec: Spec, run: seq<Action>)
    requires Runs(spec, World(EMPTY, Idle, {}), run)
    ensures var w := After(spec, World(EMPTY, Idle, {}), run);
      && KnownIsFinal(w.t) && MissesWitnessed(w) && CompletedHaveRows(w.t) && RetiredJobsHaveGaps(spec, w.t)
  {
    RunKeeps(spec, World(EMPTY, Idle, {}), run);
  }

  // ---- Frozen flags stay ----

  predicate IsArchiveWrite(action: Action) {
    action.ArchiveAttestation? || action.ArchiveProposal? || action.ArchiveSync?
  }

  ghost predicate SameOutcomes(a: Tables, b: Tables) {
    && (forall s <- a.proposals :: a.proposals[s].finalized ==>
          s in b.proposals && b.proposals[s].(rewards := a.proposals[s].rewards) == a.proposals[s])
    && (forall k <- a.syncs :: a.syncs[k].finalized ==>
          k in b.syncs && b.syncs[k].(reward := a.syncs[k].reward) == a.syncs[k])
  }

  lemma PromotionKeepsOutcomes(spec: Spec, t: Tables, p: Params, s: Tables, ready: set<Pair>, b: Tables)
    requires SettledFrom(spec, t, p, s) && CompletedFrom(spec, s, ready, b)
    ensures SameOutcomes(t, b)
  {
    assert forall x <- t.proposals :: s.proposals[x] == SettledProposal(spec, t, p, x);
    assert forall k <- t.syncs :: s.syncs[k] == SettledSync(spec, t, p, k);
  }

  lemma LiveProposalKeepsOutcomes(spec: Spec, t: Tables, slot: Slot, row: ProposalRow)
    requires !row.finalized
    ensures SameOutcomes(t, UpsertedProposal(spec, t, slot, row))
  {
  }

  lemma LiveSyncKeepsOutcomes(spec: Spec, t: Tables, member: (Validator, Slot), row: SyncRow)
    requires !row.finalized
    ensures SameOutcomes(t, UpsertedSync(spec, t, member, row))
  {
  }

  lemma SyncRewardsKeepOutcomes(t: Tables, slot: Slot, amounts: map<Validator, int>)
    ensures SameOutcomes(t, SyncRewardsJoined(t, slot, amounts))
  {
  }

  lemma OtherStepKeepsOutcomes(spec: Spec, w: World, action: Action)
    requires Enabled(w, action) && !WritesSlotRows(action) && !IsArchiveWrite(action) && !action.Promote?
    ensures SameOutcomes(w.t, Step(spec, w, action).t)
  {
    if !action.InvalidateFrom? {
      assert Step(spec, w, action).t.proposals == w.t.proposals && Step(spec, w, action).t.syncs == w.t.syncs;
    }
  }

  /** No live step rewrites who proposed, whether a block was there, or who took part, once the row is final. */
  lemma LiveStepsKeepFinalOutcomes(spec: Spec, w: World, action: Action)
    requires Enabled(w, action) && !IsArchiveWrite(action)
    ensures SameOutcomes(w.t, Step(spec, w, action).t)
  {
    match action
    case Promote(p) =>
      var s := PromotedRows(spec, w.t, p);
      PromotionKeepsOutcomes(spec, w.t, p, s, ReadyPairs(spec, s, p), Promoted(spec, w.t, p));
    case LiveProposal(slot, row) => LiveProposalKeepsOutcomes(spec, w.t, slot, row);
    case LiveSync(member, row) => LiveSyncKeepsOutcomes(spec, w.t, member, row);
    case LiveSyncRewards(slot, amounts) => SyncRewardsKeepOutcomes(w.t, slot, amounts);
    case _ => OtherStepKeepsOutcomes(spec, w, action);
  }

  lemma SameOutcomesTransitive(a: Tables, b: Tables, c: Tables)
    requires SameOutcomes(a, b) && SameOutcomes(b, c)
    ensures SameOutcomes(a, c)
  {
  }

  /** Nor does any run of live steps, with archive scans beginning, finishing and giving up in between. */
  lemma {:induction false} LiveRunsKeepFinalOutcomes(spec: Spec, w: World, run: seq<Action>)
    requires Runs(spec, w, run) && forall action <- run :: !IsArchiveWrite(action)
    ensures SameOutcomes(w.t, After(spec, w, run).t)
    decreases |run|
  {
    if run != [] {
      LiveStepsKeepFinalOutcomes(spec, w, run[0]);
      LiveRunsKeepFinalOutcomes(spec, Step(spec, w, run[0]), run[1..]);
      SameOutcomesTransitive(w.t, Step(spec, w, run[0]).t, After(spec, w, run).t);
    }
  }

  // ---- No work is silently lost ----

  predicate Tracked(t: Tables, target: Epoch, k: Pair) {
    k.0 in t.started && k.0 in t.validators && t.started[k.0] <= k.1 <= target && ActiveAt(t.validators[k.0], k.1)
  }

  /** Every tracked active epoch through `target` is complete or an explicit gap. */
  ghost predicate Balanced(t: Tables, target: Epoch) {
    forall k: Pair :: Tracked(t, target, k) ==> k in t.completed || k in t.gaps
  }

  lemma PromotionAccounts(spec: Spec, t: Tables, p: Params)
    requires t.started.Keys <= p.validators
    ensures Balanced(Promoted(spec, t, p), p.target)
  {
    var s := PromotedRows(spec, t, p);
    var before := PairsCompleted(spec, s, ReadyPairs(spec, s, p));
    var b := Promoted(spec, t, p);
    assert b == GapsRecorded(before, p);
    forall k: Pair | Tracked(b, p.target, k) ensures k in b.completed || k in b.gaps {
      assert k !in before.completed ==> Missing(before, p, k);
    }
  }

  /** Tracking starts and lifetimes are untouched. */
  ghost predicate SameTracking(a: Tables, b: Tables) {
    && a.started == b.started && a.validators.Keys == b.validators.Keys
    && forall v <- a.validators :: a.validators[v].(lastScanned := b.validators[v].lastScanned) == b.validators[v]
  }

  /** What is complete or a gap stays so, unless it lies before a tracking start. */
  ghost predicate NothingDropped(a: Tables, b: Tables) {
    forall k: Pair :: k in a.completed || k in a.gaps ==>
      k in b.completed || k in b.gaps || (k.0 in b.started && k.1 < b.started[k.0])
  }

  lemma PromotionDropsNothing(spec: Spec, t: Tables, p: Params)
    ensures NothingDropped(t, Promoted(spec, t, p))
  {
    var s := PromotedRows(spec, t, p);
  }

  lemma StepDropsNothing(spec: Spec, w: World, action: Action)
    requires Enabled(w, action)
    ensures NothingDropped(w.t, Step(spec, w, action).t)
  {
    if action.Promote? {
      PromotionDropsNothing(spec, w.t, action.p);
    } else if action.RegisterTrackingStart? {
      TrackingDropsNothing(spec, w.t, action.tracked, action.startEpoch);
    } else if action.ExpireJobs? {
      assert w.t.gaps <= JobsExpired(spec, w.t, action.minEpoch).gaps;
    } else if action.FinishScan? {
      ScanDropsNothing(w.t, w.archive.validators, w.archive.epoch);
    } else {
      OthersLeaveAccounts(spec, w, action);
    }
  }

  predicate MovesAccounts(action: Action) {
    action.Promote? || action.RegisterTrackingStart? || action.ExpireJobs? || action.FinishScan?
  }

  lemma OthersLeaveAccounts(spec: Spec, w: World, action: Action)
    requires Enabled(w, action) && !MovesAccounts(action)
    ensures Step(spec, w, action).t.completed == w.t.completed && Step(spec, w, action).t.gaps == w.t.gaps
  {
    if WritesDutyRows(action) {
      DutyWritesOnly(spec, w, action);
    } else if WritesSlotRows(action) {
      SlotWritesOnly(spec, w, action);
    } else if MovesEvidence(action) {
      EvidenceLeavesAccounts(spec, w, action);
    }
  }

  lemma DutyWritesOnly(spec: Spec, w: World, action: Action)
    requires Enabled(w, action) && WritesDutyRows(action)
    ensures var t := Step(spec, w, action).t; t == w.t.(attestations := t.attestations)
  {
  }

  lemma SlotWritesOnly(spec: Spec, w: World, action: Action)
    requires Enabled(w, action) && WritesSlotRows(action)
    ensures var t := Step(spec, w, action).t; t == w.t.(proposals := t.proposals, syncs := t.syncs)
  {
    match action
    case LiveProposal(slot, row) => ProposalUpsertOnly(spec, w.t, slot, row);
    case ArchiveProposal(slot, row) => ProposalUpsertOnly(spec, w.t, slot, row);
    case LiveSync(member, row) => SyncUpsertOnly(spec, w.t, member, row);
    case ArchiveSync(member, row) => SyncUpsertOnly(spec, w.t, member, row);
    case LiveSyncRewards(slot, amounts) =>
  }

  lemma ProposalUpsertOnly(spec: Spec, t: Tables, slot: Slot, row: ProposalRow)
    ensures UpsertedProposal(spec, t, slot, row) == t.(proposals := UpsertedProposal(spec, t, slot, row).proposals)
  {
  }

  lemma SyncUpsertOnly(spec: Spec, t: Tables, member: (Validator, Slot), row: SyncRow)
    ensures UpsertedSync(spec, t, member, row) == t.(syncs := UpsertedSync(spec, t, member, row).syncs)
  {
  }

  lemma EvidenceLeavesAccounts(spec: Spec, w: World, action: Action)
    requires Enabled(w, action) && MovesEvidence(action) && !MovesAccounts(action)
    ensures Step(spec, w, action).t.completed == w.t.completed && Step(spec, w, action).t.gaps == w.t.gaps
  {
  }

  /** A completed scan trades its gaps for completions. */
  lemma ScanDropsNothing(t: Tables, validators: set<Validator>, epoch: Epoch)
    ensures NothingDropped(t, CompletionMarked(t, validators, epoch))
  {
    forall k: Pair | k in t.gaps && k !in CompletionMarked(t, validators, epoch).gaps
      ensures k in CompletionMarked(t, validators, epoch).completed
    {
      assert k == (k.0, epoch);
    }
  }

  lemma TrackingDropsNothing(spec: Spec, t: Tables, tracked: set<Validator>, epoch: Epoch)
    ensures NothingDropped(t, TrackingRegistered(spec, t, tracked, epoch))
  {
  }

  lemma StepKeepsAccounts(spec: Spec, w: World, action: Action, target: Epoch)
    requires Enabled(w, action) && Balanced(w.t, target) && SameTracking(w.t, Step(spec, w, action).t)
    ensures Balanced(Step(spec, w, action).t, target)
  {
    StepDropsNothing(spec, w, action);
    SameTrackingAccounts(w.t, Step(spec, w, action).t, target);
  }

  lemma SameTrackingAccounts(a: Tables, b: Tables, target: Epoch)
    requires Balanced(a, target) && SameTracking(a, b) && NothingDropped(a, b)
    ensures Balanced(b, target)
  {
    forall k: Pair | Tracked(b, target, k) ensures k in b.completed || k in b.gaps {
      assert Tracked(a, target, k);
    }
  }

  ghost predicate SteadyRun(spec: Spec, w: World, run: seq<Action>)
    requires Runs(spec, w, run)
    decreases |run|
  {
    run != [] ==> SameTracking(w.t, Step(spec, w, run[0]).t) && SteadyRun(spec, Step(spec, w, run[0]), run[1..])
  }

  /** From one promotion on, whatever either worker does, the accounts through its target stay balanced. */
  lemma {:induction false} RunKeepsAccounts(spec: Spec, w: World, run: seq<Action>, target: Epoch)
    requires Runs(spec, w, run) && SteadyRun(spec, w, run) && Balanced(w.t, target)
    ensures Balanced(After(spec, w, run).t, target)
    decreases |run|
  {
    if run != [] {
      StepKeepsAccounts(spec, w, run[0], target);
      RunKeepsAccounts(spec, Step(spec, w, run[0]), run[1..], target);
    }
  }
}
