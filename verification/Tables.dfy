/**
 * The evidence tables and what each statement or transaction of src/db/scanner does to them.
 * A transaction is one function; a WHERE clause is one predicate.
 */
module Tables {
  import opened Wrappers
  import opened Chain
  import opened Rows

  datatype ProposalRewards = ProposalRewards(
    total: Option<int>, attestations: Option<int>, sync: Option<int>, slashings: Option<int>)
  {
    function Or(other: ProposalRewards): ProposalRewards {
      ProposalRewards(total.Or(other.total), attestations.Or(other.attestations),
                      sync.Or(other.sync), slashings.Or(other.slashings))
    }
    predicate Complete() {
      total.Some? && attestations.Some? && sync.Some? && slashings.Some?
    }
  }

  datatype ProposalRow = ProposalRow(proposer: Validator, proposed: bool, rewards: ProposalRewards, finalized: bool)

  datatype SyncRow = SyncRow(participated: bool, reward: Option<int>, missedBlock: bool, finalized: bool)

  /** Epoch jobs have no slot (-1 in the table); a block job's epoch is always that of its slot. */
  datatype JobKey =
    | AttestationJob(validator: Validator, jobEpoch: Epoch)
    | ProposalJob(validator: Validator, slot: Slot)
    | SyncJob(validator: Validator, slot: Slot)
  {
    function InEpoch(spec: Spec): Epoch {
      if AttestationJob? then jobEpoch else EpochOf(spec, slot)
    }
    function Pair(spec: Spec): (Validator, Epoch) {
      (validator, InEpoch(spec))
    }
  }

  datatype Payload =
    | AttestationPayload(totals: map<Validator, Rewards>)
    | ProposalPayload(proposer: Validator, rewards: ProposalRewards)
    | SyncPayload(amounts: map<Validator, int>)

  datatype Status = Pending | Complete | NeedsBackfill

  datatype Job = Job(root: Option<Root>, dependency: Option<Root>, status: Status, payload: Option<Payload>)

  datatype BlockRow = BlockRow(root: Root, parent: Root)

  datatype ValidatorRow = ValidatorRow(activation: Epoch, exit: Option<Epoch>, lastScanned: Option<Epoch>)

  type Pair = (Validator, Epoch)

  datatype Tables = Tables(
    attestations: map<Pair, AttestationRow>,
    proposals: map<Slot, ProposalRow>,
    syncs: map<(Validator, Slot), SyncRow>,
    completed: set<Pair>,
    blocks: map<Slot, BlockRow>,
    coverage: set<(Validator, Slot)>,
    jobs: map<JobKey, Job>,
    gaps: set<Pair>,
    started: map<Validator, Epoch>,
    validators: map<Validator, ValidatorRow>)

  const EMPTY := Tables(map[], map[], map[], {}, map[], {}, map[], {}, map[], map[])

  function Lookup<K, V>(table: map<K, V>, key: K): Option<V> {
    if key in table then Some(table[key]) else None
  }

  // ---- Duty rows ----

  function UpsertedAttestation(t: Tables, key: Pair, write: AttestationWrite): Tables {
    t.(attestations := t.attestations[key := Upserted(Lookup(t.attestations, key), write, key in t.completed)])
  }

  function RewardsJoined(t: Tables, rewards: map<Pair, Rewards>): Tables {
    t.(attestations := map k | k in t.attestations ::
        if k in rewards && !t.attestations[k].finalized then RewardJoined(t.attestations[k], rewards[k])
        else t.attestations[k])
  }

  function InclusionRepaired(t: Tables, key: Pair, fix: InclusionDetails): Tables {
    if key !in t.attestations then t
    else t.(attestations := t.attestations[key := Repaired(t.attestations[key], fix, key in t.completed)])
  }

  predicate ProposalAccepted(spec: Spec, t: Tables, slot: Slot, write: ProposalRow) {
    slot in t.proposals ==>
      var row := t.proposals[slot];
      !row.finalized || (write.finalized && (row.proposer, EpochOf(spec, slot)) !in t.completed)
  }

  function UpsertedProposal(spec: Spec, t: Tables, slot: Slot, write: ProposalRow): Tables {
    if !ProposalAccepted(spec, t, slot, write) then t
    else if slot in t.proposals then
      t.(proposals := t.proposals[slot := write.(rewards := write.rewards.Or(t.proposals[slot].rewards))])
    else t.(proposals := t.proposals[slot := write])
  }

  predicate SyncAccepted(spec: Spec, t: Tables, key: (Validator, Slot), write: SyncRow) {
    key in t.syncs ==>
      !t.syncs[key].finalized || (write.finalized && (key.0, EpochOf(spec, key.1)) !in t.completed)
  }

  function UpsertedSync(spec: Spec, t: Tables, key: (Validator, Slot), write: SyncRow): Tables {
    if !SyncAccepted(spec, t, key, write) then t
    else if key in t.syncs then
      t.(syncs := t.syncs[key := write.(reward := write.reward.Or(t.syncs[key].reward))])
    else t.(syncs := t.syncs[key := write])
  }

  function SyncRewardsJoined(t: Tables, slot: Slot, amounts: map<Validator, int>): Tables {
    t.(syncs := map k | k in t.syncs ::
        if k.1 == slot && k.0 in amounts && !t.syncs[k].finalized then t.syncs[k].(reward := Some(amounts[k.0]))
        else t.syncs[k])
  }

  // ---- Rewards and rewrites ----

  /** Each reward known to the write, failing that the one the row had. */
  predicate Coalesced(after: ProposalRewards, write: ProposalRewards, before: ProposalRewards) {
    && after.total == (if write.total.Some? then write.total else before.total)
    && after.attestations == (if write.attestations.Some? then write.attestations else before.attestations)
    && after.sync == (if write.sync.Some? then write.sync else before.sync)
    && after.slashings == (if write.slashings.Some? then write.slashings else before.slashings)
  }

  /**
   * A proposal row takes every write while provisional, and an archive write until its pair is complete; it then shows
   * the write and never forgets a reward. Otherwise it stays, and so do the other rows.
   */
  lemma ProposalUpserts(spec: Spec, t: Tables, slot: Slot, write: ProposalRow)
    ensures var after := UpsertedProposal(spec, t, slot, write);
      && after == t.(proposals := after.proposals)
      && (forall s :: s != slot ==> Lookup(after.proposals, s) == Lookup(t.proposals, s))
      && slot in after.proposals
      && (slot !in t.proposals ==> after.proposals[slot] == write)
      && (slot in t.proposals ==>
            var row := t.proposals[slot];
            if row.finalized && !(write.finalized && (row.proposer, EpochOf(spec, slot)) !in t.completed)
            then after.proposals[slot] == row
            else after.proposals[slot].(rewards := write.rewards) == write
                 && Coalesced(after.proposals[slot].rewards, write.rewards, row.rewards))
  {
  }

  /** A provisional sync row scanned again, with the amount if there is one and else the reward it had. */
  function SyncRescanned(row: SyncRow, live: SyncRow, amount: Option<int>): SyncRow {
    if row.finalized then row else live.(reward := if amount.Some? then amount else row.reward)
  }

  function AmountAt(key: (Validator, Slot), slot: Slot, amounts: map<Validator, int>): Option<int> {
    if key.1 == slot then Lookup(amounts, key.0) else None
  }

  /** A reward that arrives before the slot is scanned again survives the scan. */
  lemma SyncRewardThenScan(
    spec: Spec, t: Tables, key: (Validator, Slot), live: SyncRow, slot: Slot, amounts: map<Validator, int>)
    requires key in t.syncs && live.reward.None? && !live.finalized
    ensures Lookup(UpsertedSync(spec, SyncRewardsJoined(t, slot, amounts), key, live).syncs, key)
         == Some(SyncRescanned(t.syncs[key], live, AmountAt(key, slot, amounts)))
  {
  }

  /** And one that arrives after it gives the same row. */
  lemma SyncScanThenReward(
    spec: Spec, t: Tables, key: (Validator, Slot), live: SyncRow, slot: Slot, amounts: map<Validator, int>)
    requires key in t.syncs && live.reward.None? && !live.finalized
    ensures Lookup(SyncRewardsJoined(UpsertedSync(spec, t, key, live), slot, amounts).syncs, key)
         == Some(SyncRescanned(t.syncs[key], live, AmountAt(key, slot, amounts)))
  {
  }

  // ---- Evidence ----

  /** `live_blocks.root` is UNIQUE: one root cannot sit at two slots. */
  predicate RootFree(t: Tables, slot: Slot, root: Root) {
    forall s <- t.blocks :: s != slot ==> t.blocks[s].root != root
  }

  function BlockRecorded(t: Tables, slot: Slot, root: Root, parent: Root): Tables {
    t.(blocks := t.blocks[slot := BlockRow(root, parent)])
  }

  function CoverageRecorded(t: Tables, validators: set<Validator>, slot: Slot): Tables {
    t.(coverage := t.coverage + set v <- validators :: (v, slot))
  }

  // ---- Jobs, gaps and tracking ----

  function JobsEnqueued(t: Tables, keys: set<JobKey>, root: Option<Root>): Tables {
    t.(jobs := map k | k in t.jobs.Keys + keys ::
        if k in t.jobs then t.jobs[k] else Job(root, None, Pending, None))
  }

  function JobsCompleted(t: Tables, keys: set<JobKey>, payload: Payload, dependency: Root): Tables {
    t.(jobs := map k | k in t.jobs ::
        if k in keys then t.jobs[k].(status := Complete, payload := Some(payload), dependency := Some(dependency))
        else t.jobs[k])
  }

  predicate Expires(spec: Spec, t: Tables, key: JobKey, minEpoch: Epoch)
    requires key in t.jobs
  {
    key.InEpoch(spec) < minEpoch && t.jobs[key].status == Pending
  }

  function JobsExpired(spec: Spec, t: Tables, minEpoch: Epoch): Tables {
    t.(gaps := t.gaps + (set k | k in t.jobs && Expires(spec, t, k, minEpoch) :: k.Pair(spec)),
       jobs := map k | k in t.jobs ::
        if Expires(spec, t, k, minEpoch) then t.jobs[k].(status := NeedsBackfill) else t.jobs[k])
  }

  function Earlier(started: map<Validator, Epoch>, validators: set<Validator>, epoch: Epoch): map<Validator, Epoch> {
    map v | v in started.Keys + validators ::
      if v !in started then epoch
      else if v in validators && epoch < started[v] then epoch
      else started[v]
  }

  /** Work from before the tracking start is dropped, except jobs of completed pairs. */
  function TrackingRegistered(spec: Spec, t: Tables, validators: set<Validator>, epoch: Epoch): Tables {
    var started := Earlier(t.started, validators, epoch);
    t.(started := started,
       jobs := map k | k in t.jobs
                       && !(k.validator in started && k.InEpoch(spec) < started[k.validator]
                            && k.Pair(spec) !in t.completed) :: t.jobs[k],
       gaps := set g | g in t.gaps && !(g.0 in started && g.1 < started[g.0]))
  }

  // ---- Reorg invalidation and pruning ----

  /** `DELETE FROM live_jobs WHERE epoch >= e AND NOT EXISTS completed`. */
  function JobsKept(spec: Spec, t: Tables, epoch: Epoch): map<JobKey, Job> {
    map k | k in t.jobs && (k.InEpoch(spec) < epoch || k.Pair(spec) in t.completed) :: t.jobs[k]
  }

  /** `DELETE ... WHERE slot >= s AND NOT finalized`, for each duty table. */
  function ProposalsKept(rows: map<Slot, ProposalRow>, replayFrom: Slot): map<Slot, ProposalRow> {
    map s | s in rows && (s < replayFrom || rows[s].finalized) :: rows[s]
  }

  function SyncsKept(rows: map<(Validator, Slot), SyncRow>, replayFrom: Slot): map<(Validator, Slot), SyncRow> {
    map k | k in rows && (k.1 < replayFrom || rows[k].finalized) :: rows[k]
  }

  function AttestationsKept(rows: map<Pair, AttestationRow>, epoch: Epoch): map<Pair, AttestationRow> {
    map k | k in rows && (k.1 < epoch || rows[k].finalized) :: rows[k]
  }

  function BlocksBefore(blocks: map<Slot, BlockRow>, slot: Slot): map<Slot, BlockRow> {
    map s | s in blocks && s < slot :: blocks[s]
  }

  function InvalidatedFrom(spec: Spec, t: Tables, replayFrom: Slot): Tables {
    var epoch := EpochOf(spec, replayFrom);
    t.(blocks := BlocksBefore(t.blocks, replayFrom),
       coverage := (set c | c in t.coverage && c.1 < replayFrom),
       proposals := ProposalsKept(t.proposals, replayFrom),
       syncs := SyncsKept(t.syncs, replayFrom),
       attestations := AttestationsKept(t.attestations, epoch),
       jobs := JobsKept(spec, t, epoch))
  }

  /** `SELECT MAX(slot) FROM live_blocks WHERE slot < limit`. */
  function NewestBelow(blocks: map<Slot, BlockRow>, limit: Slot): Option<Slot> {
    if limit == 0 then None
    else if limit - 1 in blocks then Some(limit - 1)
    else NewestBelow(blocks, limit - 1)
  }

  lemma {:induction false} NewestBelowIsMax(blocks: map<Slot, BlockRow>, limit: Slot)
    ensures match NewestBelow(blocks, limit)
            case None => forall s <- blocks :: s >= limit
            case Some(anchor) => anchor in blocks && anchor < limit && forall s <- blocks :: s < limit ==> s <= anchor
  {
    if limit > 0 && limit - 1 !in blocks {
      NewestBelowIsMax(blocks, limit - 1);
    }
  }

  function Pruned(spec: Spec, t: Tables, retainEpoch: Epoch): Tables {
    var start := EpochStart(spec, retainEpoch);
    var anchor := NewestBelow(t.blocks, start);
    t.(jobs := map k | k in t.jobs && !(k.InEpoch(spec) < retainEpoch && k.Pair(spec) in t.completed) :: t.jobs[k],
       coverage := (set c | c in t.coverage && c.1 >= start),
       blocks := map s | s in t.blocks && (anchor.None? || s >= anchor.value) :: t.blocks[s])
  }

  /**
   * What pruning drops, exactly: jobs of complete pairs and coverage from before the retained epoch, and the blocks
   * below the newest one from before it.
   */
  lemma PrunedKeeps(spec: Spec, t: Tables, retainEpoch: Epoch)
    ensures var (after, start) := (Pruned(spec, t, retainEpoch), EpochStart(spec, retainEpoch));
      && after == t.(jobs := after.jobs, coverage := after.coverage, blocks := after.blocks)
      && (forall j :: Lookup(after.jobs, j) ==
            if j.InEpoch(spec) < retainEpoch && j.Pair(spec) in t.completed then None else Lookup(t.jobs, j))
      && (forall c :: c in after.coverage <==> c in t.coverage && c.1 >= start)
      && (forall s :: Lookup(after.blocks, s) ==
            if exists x <- t.blocks :: s < x < start then None else Lookup(t.blocks, s))
  {
    var start := EpochStart(spec, retainEpoch);
    NewestBelowIsMax(t.blocks, start);
  }

  // ---- Completion and watermarks ----

  function CompletionMarked(t: Tables, validators: set<Validator>, epoch: Epoch): Tables {
    t.(attestations := map k | k in t.attestations ::
        if k.0 in validators && k.1 == epoch then t.attestations[k].(inclusionKnown := true) else t.attestations[k],
       completed := t.completed + (set v <- validators :: (v, epoch)),
       gaps := set g | g in t.gaps && !(g.0 in validators && g.1 == epoch))
  }

  /** `GREATEST(last, epoch)`; GREATEST ignores NULL. */
  function Greatest(last: Option<Epoch>, epoch: Epoch): Option<Epoch> {
    if last.Some? && last.value > epoch then last else Some(epoch)
  }

  function ScannedThrough(t: Tables, validators: set<Validator>, epoch: Epoch): Tables {
    t.(validators := map v | v in t.validators ::
        if v in validators then t.validators[v].(lastScanned := Greatest(t.validators[v].lastScanned, epoch))
        else t.validators[v])
  }

  /** `activation_epoch <= epoch < COALESCE(exit_epoch, infinity)`. */
  predicate ActiveAt(row: ValidatorRow, epoch: Epoch) {
    row.activation <= epoch && (row.exit.None? || row.exit.value > epoch)
  }

  function ActiveValidatorsAt(t: Tables, tracked: set<Validator>, epoch: Epoch): set<Validator> {
    set v | v in tracked && v in t.validators && ActiveAt(t.validators[v], epoch)
  }
}
