/** Reward jobs: when they are due, what they depend on, how they are collected (src/live/mod.rs:255-263, 272-366). */
module RewardJobs {
  import opened Wrappers
  import opened Chain
  import opened Rows
  import opened Outcome
  import opened Tables
  import opened Store
  import opened LiveScan
  import opened LiveSlot
  import opened SlotScan
  import opened Reorg
  import opened Consistency
  import Upkeep

  // ---- When they are due ----

  function LatestRewardEpoch(spec: Spec, head: Slot, settling: nat): Option<Epoch> {
    if head < settling then None
    else if EpochOf(spec, head - settling) < 2 then None
    else Some(EpochOf(spec, head - settling) - 2)
  }

  /** Rewards of E are asked for exactly once the end of E+1 lies the settling delay behind the head. */
  lemma RewardsAreSettled(spec: Spec, head: Slot, settling: nat, epoch: Epoch)
    ensures (LatestRewardEpoch(spec, head, settling).Some? && epoch <= LatestRewardEpoch(spec, head, settling).value)
       <==> EpochStart(spec, epoch + 2) + settling <= head
  {
    if head >= settling {
      EpochOfBounds(spec, head - settling, epoch + 2);
    }
  }

  // ---- What they depend on ----

  /** What one reward request answers, with the canonical checks around it. */
  datatype RewardAnswer = RewardAnswer(canonical: bool, payload: Result<Payload>)

  /** Jobs stay as they are or are completed. */
  ghost predicate JobsProgress(a: map<JobKey, Job>, b: map<JobKey, Job>) {
    a.Keys == b.Keys && forall j <- b :: b[j] == a[j] || b[j].status == Complete
  }

  /** The block a reward depends on: the last before the end of E+1, or the job's own. */
  ghost function DependencyOf(spec: Spec, chain: Canonical, j: JobKey): Option<Root> {
    if j.AttestationJob? then
      var boundary := EpochStart(spec, j.jobEpoch + 2);
      if boundary == 0 then None else RootAtOrBefore(chain, boundary - 1)
    else if j.slot in chain then Some(chain[j.slot].root) else None
  }

  /**
   * Epoch jobs are due by the tip, and what a job of an open pair depends on is the block of this chain that it should.
   */
  ghost predicate DependsOn(spec: Spec, b: Branch, jobs: map<JobKey, Job>, completed: set<Pair>) {
    forall j <- jobs :: j.Pair(spec) !in completed ==>
      && (j.AttestationJob? ==> EpochStart(spec, j.jobEpoch + 2) <= b.tip + 1)
      && (jobs[j].status == Complete ==> jobs[j].dependency.Some?)
      && (jobs[j].dependency.Some? ==> jobs[j].dependency == DependencyOf(spec, b.chain, j))
  }

  function AtEpoch(validators: set<Validator>, epoch: Epoch): (pairs: set<Pair>)
    ensures forall k :: k in pairs <==> k.0 in validators && k.1 == epoch
  {
    set v <- validators :: (v, epoch)
  }

  function EpochTotals(totals: map<Validator, Rewards>, epoch: Epoch): map<Pair, Rewards> {
    map k | k in AtEpoch(totals.Keys, epoch) :: totals[k.0]
  }

  /** The job with its response staged. */
  function Done(job: Job, payload: Payload, dependency: Option<Root>): Job {
    Job(job.root, dependency, Complete, Some(payload))
  }

  /** Epoch rewards depend on the last resolved block at or before the end of E+1, and join the duty rows at once. */
  method CollectEpochRewards(
    db: Database, epoch: Epoch, validators: set<Validator>, roots: map<Slot, Root>, answer: RewardAnswer,
    ghost chain: Canonical, ghost lo: Slot)
    returns (r: Result<()>)
    requires Resolved(roots, chain, lo)
    modifies db
    ensures r.Ok? <==>
      && answer.canonical && answer.payload.Ok? && answer.payload.value.AttestationPayload?
      && lo < EpochStart(db.spec, epoch + 2)
    ensures r.Err? ==> db.View() == old(db.View())
    ensures JobsProgress(old(db.jobs), db.jobs)
    ensures r.Ok? ==>
      && answer.payload.Ok? && answer.payload.value.AttestationPayload?
      && db.View() == RewardsJoined(old(db.View()).(jobs := db.jobs), EpochTotals(answer.payload.value.totals, epoch))
    ensures r.Ok? ==> forall j <- db.jobs ::
      if j.AttestationJob? && j.jobEpoch == epoch && j.validator in validators
      then db.jobs[j].dependency.Some?
           && db.jobs[j] == Done(old(db.jobs)[j], answer.payload.value, DependencyOf(db.spec, chain, j))
      else db.jobs[j] == old(db.jobs)[j]
  {
    EpochStartMonotone(db.spec, 0, epoch + 2);
    var boundary := EpochStart(db.spec, epoch + 2) - 1;
    var dependency := NewestAtOrBefore(roots, boundary);
    NewestIsCanonical(roots, chain, lo, boundary);
    if dependency.None? || !answer.canonical {
      return Err(InconsistentBeaconData);
    }
    if answer.payload.Err? {
      return Err(answer.payload.error);
    }
    if !answer.payload.value.AttestationPayload? {
      return Err(InconsistentBeaconData);
    }
    db.CompleteJob(set v <- validators :: AttestationJob(v, epoch), answer.payload.value, dependency.value);
    db.UpdateAttestationRewardsBatch(EpochTotals(answer.payload.value.totals, epoch));
    return Ok(());
  }

  /** Block rewards depend on the block the job was enqueued for. */
  method CollectBlockRewards(
    db: Database, keys: set<JobKey>, root: Root, slot: Slot, answer: RewardAnswer) returns (r: Result<()>)
    modifies db
    ensures r.Ok? <==> answer.canonical && answer.payload.Ok? && !answer.payload.value.AttestationPayload?
    ensures r.Err? ==> db.View() == old(db.View())
    ensures JobsProgress(old(db.jobs), db.jobs)
    ensures r.Ok? ==>
      && answer.canonical && answer.payload.Ok? && !answer.payload.value.AttestationPayload?
      && db.View() == BlockRewarded(db.spec, old(db.View()).(jobs := db.jobs), slot, answer.payload.value)
    ensures r.Ok? ==> forall j <- db.jobs ::
      if j in keys then db.jobs[j] == Done(old(db.jobs)[j], answer.payload.value, Some(root))
      else db.jobs[j] == old(db.jobs)[j]
  {
    if !answer.canonical {
      return Err(InconsistentBeaconData);
    }
    if answer.payload.Err? {
      return Err(answer.payload.error);
    }
    var payload := answer.payload.value;
    match payload {
      case AttestationPayload(_) =>
        return Err(InconsistentBeaconData);
      case ProposalPayload(proposer, rewards) =>
        db.CompleteJob(keys, payload, root);
        db.UpsertBlockProposal(slot, ProposalRow(proposer, true, rewards, false));
      case SyncPayload(amounts) =>
        db.CompleteJob(keys, payload, root);
        db.PersistLiveSyncRewards(slot, amounts);
    }
    return Ok(());
  }

  /** A block's rewards joined to its proposal or sync rows. */
  function BlockRewarded(spec: Spec, t: Tables, slot: Slot, payload: Payload): Tables {
    match payload
    case AttestationPayload(_) => t
    case ProposalPayload(proposer, rewards) => UpsertedProposal(spec, t, slot,
      ProposalRow(proposer, true, rewards, false))
    case SyncPayload(amounts) => SyncRewardsJoined(t, slot, amounts)
  }

  /** One pending job group, newest epoch first, with the node's answer to it. */
  datatype RewardWork =
    | EpochWork(epoch: Epoch, validators: set<Validator>, answer: RewardAnswer)
    | ProposalWork(validators: set<Validator>, slot: Slot, root: Root, answer: RewardAnswer)
    | SyncWork(validators: set<Validator>, slot: Slot, root: Root, answer: RewardAnswer)
  {
    function Keys(): set<JobKey> {
      match this
      case EpochWork(epoch, validators, _) => set v <- validators :: AttestationJob(v, epoch)
      case ProposalWork(validators, slot, _, _) => set v <- validators :: ProposalJob(v, slot)
      case SyncWork(validators, slot, _, _) => set v <- validators :: SyncJob(v, slot)
    }
  }

  /** The response is of the component asked for. */
  predicate Fits(w: RewardWork, payload: Payload) {
    match w
    case EpochWork(_, _, _) => payload.AttestationPayload?
    case ProposalWork(_, _, _, _) => payload.ProposalPayload?
    case SyncWork(_, _, _, _) => payload.SyncPayload?
  }

  /** What makes a group succeed: a canonical block, a response of its kind and, for an epoch, a resolved boundary. */
  predicate Collectable(spec: Spec, lo: Slot, w: RewardWork) {
    && w.answer.canonical && w.answer.payload.Ok? && Fits(w, w.answer.payload.value)
    && (w.EpochWork? ==> lo < EpochStart(spec, w.epoch + 2))
  }

  /** The dependency the jobs of a group are completed with. */
  ghost function GroupDependency(spec: Spec, chain: Canonical, w: RewardWork): Option<Root> {
    if w.EpochWork? then DependencyOf(spec, chain, AttestationJob(0, w.epoch)) else Some(w.root)
  }

  /** The rows after one group: epoch totals joined to the duty rows, block rewards to the slot's rows. */
  function RowsPaid(spec: Spec, t: Tables, w: RewardWork): Tables
    requires w.answer.payload.Ok? && Fits(w, w.answer.payload.value)
  {
    if w.EpochWork? then RewardsJoined(t, EpochTotals(w.answer.payload.value.totals, w.epoch))
    else BlockRewarded(spec, t, w.slot, w.answer.payload.value)
  }

  /** The tables after one group; a failing one changes nothing. */
  ghost predicate GroupDone(spec: Spec, chain: Canonical, lo: Slot, w: RewardWork, a: Tables, b: Tables) {
    if !Collectable(spec, lo, w) then b == a
    else
      && b == RowsPaid(spec, a.(jobs := b.jobs), w)
      && b.jobs.Keys == a.jobs.Keys
      && (forall j <- b.jobs ::
            if j in w.Keys()
            then b.jobs[j] == Done(a.jobs[j], w.answer.payload.value, GroupDependency(spec, chain, w))
            else b.jobs[j] == a.jobs[j])
  }

  /** The tables after the groups, in order. */
  ghost predicate GroupsDone(spec: Spec, chain: Canonical, lo: Slot, work: seq<RewardWork>, a: Tables, b: Tables) {
    if work == [] then b == a
    else
      var n := |work| - 1;
      exists m :: GroupsDone(spec, chain, lo, work[..n], a, m) && GroupDone(spec, chain, lo, work[n], m, b)
  }

  /** The last collectable group that holds the job. */
  ghost predicate IsLastFor(spec: Spec, lo: Slot, work: seq<RewardWork>, j: JobKey, i: nat) {
    && i < |work| && Collectable(spec, lo, work[i]) && j in work[i].Keys()
    && forall k :: i < k < |work| ==> !(Collectable(spec, lo, work[k]) && j in work[k].Keys())
  }

  /**
   * Every job of a collectable group ends complete, with the response and the dependency of the last such group;
   * the other jobs stay, and no job comes or goes.
   */
  lemma {:induction false} CollectedJobs(
    spec: Spec, chain: Canonical, lo: Slot, work: seq<RewardWork>, a: Tables, b: Tables, j: JobKey)
    requires GroupsDone(spec, chain, lo, work, a, b)
    ensures a.jobs.Keys == b.jobs.Keys
    ensures j in a.jobs && (exists w <- work :: Collectable(spec, lo, w) && j in w.Keys()) ==>
      exists i: nat :: IsLastFor(spec, lo, work, j, i)
        && b.jobs[j] == Done(a.jobs[j], work[i].answer.payload.value, GroupDependency(spec, chain, work[i]))
    ensures j in a.jobs && !(exists w <- work :: Collectable(spec, lo, w) && j in w.Keys()) ==> b.jobs[j] == a.jobs[j]
  {
    if work != [] {
      var n := |work| - 1;
      var m :| GroupsDone(spec, chain, lo, work[..n], a, m) && GroupDone(spec, chain, lo, work[n], m, b);
      CollectedJobs(spec, chain, lo, work[..n], a, m, j);
      JobAfterLast(spec, chain, lo, work, a, m, b, j);
    }
  }

  lemma JobAfterLast(
    spec: Spec, chain: Canonical, lo: Slot, work: seq<RewardWork>, a: Tables, m: Tables, b: Tables, j: JobKey)
    requires work != [] && a.jobs.Keys == m.jobs.Keys && GroupDone(spec, chain, lo, work[|work| - 1], m, b)
    requires var init := work[..|work| - 1];
      && (j in a.jobs && (exists w <- init :: Collectable(spec, lo, w) && j in w.Keys()) ==>
            exists i: nat :: IsLastFor(spec, lo, init, j, i)
              && m.jobs[j] == Done(a.jobs[j], init[i].answer.payload.value, GroupDependency(spec, chain, init[i])))
      && (j in a.jobs && !(exists w <- init :: Collectable(spec, lo, w) && j in w.Keys()) ==> m.jobs[j] == a.jobs[j])
    ensures a.jobs.Keys == b.jobs.Keys
    ensures j in a.jobs && (exists w <- work :: Collectable(spec, lo, w) && j in w.Keys()) ==>
      exists i: nat :: IsLastFor(spec, lo, work, j, i)
        && b.jobs[j] == Done(a.jobs[j], work[i].answer.payload.value, GroupDependency(spec, chain, work[i]))
    ensures j in a.jobs && !(exists w <- work :: Collectable(spec, lo, w) && j in w.Keys()) ==> b.jobs[j] == a.jobs[j]
  {
    var n := |work| - 1;
    var last := work[n];
    assert work == work[..n] + [last];
    if j in a.jobs {
      if Collectable(spec, lo, last) && j in last.Keys() {
        assert IsLastFor(spec, lo, work, j, n);
        assert b.jobs[j] == Done(a.jobs[j], last.answer.payload.value, GroupDependency(spec, chain, last));
      } else {
        assert b.jobs[j] == m.jobs[j];
        if exists w <- work[..n] :: Collectable(spec, lo, w) && j in w.Keys() {
          var i: nat :| IsLastFor(spec, lo, work[..n], j, i)
            && m.jobs[j] == Done(
                 a.jobs[j], work[..n][i].answer.payload.value, GroupDependency(spec, chain, work[..n][i]));
          assert IsLastFor(spec, lo, work, j, i);
        }
      }
    }
  }

  /** The last collectable group whose totals speak of the pair. */
  ghost predicate IsLastTotal(spec: Spec, lo: Slot, work: seq<RewardWork>, k: Pair, i: nat) {
    && i < |work| && Totals(spec, lo, work[i], k)
    && forall x :: i < x < |work| ==> !Totals(spec, lo, work[x], k)
  }

  predicate Totals(spec: Spec, lo: Slot, w: RewardWork, k: Pair) {
    w.EpochWork? && w.epoch == k.1 && Collectable(spec, lo, w) && k.0 in w.answer.payload.value.totals
  }

  /** What the groups make of the row: the totals of the last that speaks of it, unless it is final. */
  ghost predicate RowPaid(
    spec: Spec, lo: Slot, work: seq<RewardWork>, k: Pair, before: AttestationRow, after: AttestationRow)
  {
    && after.finalized == before.finalized && after.details == before.details
    && (before.finalized || (forall w <- work :: !Totals(spec, lo, w, k)) ==> after == before)
    && (!before.finalized && (exists w <- work :: Totals(spec, lo, w, k)) ==>
          exists i: nat :: IsLastTotal(spec, lo, work, k, i)
            && after.rewards == work[i].answer.payload.value.totals[k.0])
  }

  /** A provisional duty row ends with the totals of the last such group, and a final one as it was. */
  lemma {:induction false} CollectedTotals(
    spec: Spec, chain: Canonical, lo: Slot, work: seq<RewardWork>, a: Tables, b: Tables, k: Pair)
    requires GroupsDone(spec, chain, lo, work, a, b) && k in a.attestations
    ensures k in b.attestations && RowPaid(spec, lo, work, k, a.attestations[k], b.attestations[k])
  {
    if work != [] {
      var n := |work| - 1;
      var m :| GroupsDone(spec, chain, lo, work[..n], a, m) && GroupDone(spec, chain, lo, work[n], m, b);
      CollectedTotals(spec, chain, lo, work[..n], a, m, k);
      GroupTotals(spec, chain, lo, work[n], m, b, k);
      PaidByLast(spec, lo, work, k, a.attestations[k], m.attestations[k], b.attestations[k]);
    }
  }

  lemma PaidByLast(
    spec: Spec, lo: Slot, work: seq<RewardWork>, k: Pair, a: AttestationRow, m: AttestationRow, b: AttestationRow)
    requires work != [] && RowPaid(spec, lo, work[..|work| - 1], k, a, m)
    requires var w := work[|work| - 1];
      b == if Totals(spec, lo, w, k) && !m.finalized then RewardJoined(m, w.answer.payload.value.totals[k.0]) else m
    ensures RowPaid(spec, lo, work, k, a, b)
  {
    var n := |work| - 1;
    assert work == work[..n] + [work[n]];
    if Totals(spec, lo, work[n], k) {
      assert IsLastTotal(spec, lo, work, k, n);
    } else if !a.finalized && exists w <- work[..n] :: Totals(spec, lo, w, k) {
      var i: nat :| IsLastTotal(spec, lo, work[..n], k, i)
        && m.rewards == work[..n][i].answer.payload.value.totals[k.0];
      assert IsLastTotal(spec, lo, work, k, i);
    }
  }

  lemma GroupTotals(spec: Spec, chain: Canonical, lo: Slot, w: RewardWork, a: Tables, b: Tables, k: Pair)
    requires GroupDone(spec, chain, lo, w, a, b) && k in a.attestations
    ensures k in b.attestations
    ensures if Totals(spec, lo, w, k) && !a.attestations[k].finalized
            then b.attestations[k] == RewardJoined(a.attestations[k], w.answer.payload.value.totals[k.0])
            else b.attestations[k] == a.attestations[k]
  {
    if Collectable(spec, lo, w) {
      if w.EpochWork? {
        EpochTotalsJoin(a.(jobs := b.jobs), w.answer.payload.value.totals, w.epoch, k);
      } else {
        BlockRewardIsElsewhere(spec, a.(jobs := b.jobs), w.slot, w.answer.payload.value);
      }
    }
  }

  lemma EpochTotalsJoin(t: Tables, totals: map<Validator, Rewards>, epoch: Epoch, k: Pair)
    requires k in t.attestations
    ensures Lookup(RewardsJoined(t, EpochTotals(totals, epoch)).attestations, k)
         == Some(if k.1 == epoch && k.0 in totals && !t.attestations[k].finalized
                 then RewardJoined(t.attestations[k], totals[k.0]) else t.attestations[k])
  {
  }

  lemma BlockRewardIsElsewhere(spec: Spec, t: Tables, slot: Slot, payload: Payload)
    ensures BlockRewarded(spec, t, slot, payload).attestations == t.attestations
  {
  }

  /** The node calls a block canonical only if it is the chain's. */
  ghost predicate Honest(chain: Canonical, work: seq<RewardWork>) {
    forall w <- work :: !w.EpochWork? && w.answer.canonical ==> w.slot in chain && chain[w.slot].root == w.root
  }

  /** Live evidence and reward dependencies both stand on the chain. */
  ghost predicate Sane(spec: Spec, b: Branch, t: Tables) {
    LiveConsistent(b.inputs, b.chain, b.tip, t) && DependsOn(spec, b, t.jobs, t.completed)
  }

  /** Live evidence does not speak of jobs. */
  lemma JobsAside(b: Branch, t: Tables, jobs: map<JobKey, Job>)
    requires LiveConsistent(b.inputs, b.chain, b.tip, t)
    ensures LiveConsistent(b.inputs, b.chain, b.tip, t.(jobs := jobs))
  {
  }

  lemma BlockRewardStaysSane(spec: Spec, b: Branch, t: Tables, jobs: map<JobKey, Job>, slot: Slot, payload: Payload)
    requires LiveConsistent(b.inputs, b.chain, b.tip, t) && slot in b.chain && DependsOn(spec, b, jobs, t.completed)
    ensures Sane(spec, b, BlockRewarded(spec, t.(jobs := jobs), slot, payload))
  {
    JobsAside(b, t, jobs);
    var u := t.(jobs := jobs);
    assert BlockRewarded(spec, u, slot, payload).jobs == jobs;
    match payload
    case AttestationPayload(_) =>
    case ProposalPayload(proposer, rewards) =>
      Upkeep.ProposalRewardStaysConsistent(
        spec, b.inputs, b.chain, b.tip, u, slot, ProposalRow(proposer, true, rewards, false));
    case SyncPayload(amounts) =>
      Upkeep.SyncRewardsStayConsistent(b.inputs, b.chain, b.tip, u, slot, amounts);
  }

  lemma EpochRewardsStaySane(spec: Spec, b: Branch, t: Tables, jobs: map<JobKey, Job>, rewards: map<Pair, Rewards>)
    requires LiveConsistent(b.inputs, b.chain, b.tip, t) && DependsOn(spec, b, jobs, t.completed)
    ensures Sane(spec, b, RewardsJoined(t.(jobs := jobs), rewards))
  {
    JobsAside(b, t, jobs);
    Upkeep.RewardsJoinStaysConsistent(b.inputs, b.chain, b.tip, t.(jobs := jobs), rewards);
  }

  lemma EpochJobsDepend(
    spec: Spec, b: Branch, before: map<JobKey, Job>, after: map<JobKey, Job>, completed: set<Pair>, w: RewardWork)
    requires w.EpochWork? && DependsOn(spec, b, before, completed) && after.Keys == before.Keys
    requires forall j <- after ::
      if j.AttestationJob? && j.jobEpoch == w.epoch && j.validator in w.validators
      then after[j].status == Complete && after[j].dependency.Some?
          && after[j].dependency == DependencyOf(spec, b.chain, j)
      else after[j] == before[j]
    ensures DependsOn(spec, b, after, completed)
  {
  }

  lemma BlockJobsDepend(
    spec: Spec, b: Branch, before: map<JobKey, Job>, after: map<JobKey, Job>, completed: set<Pair>, w: RewardWork)
    requires !w.EpochWork? && DependsOn(spec, b, before, completed) && after.Keys == before.Keys
    requires w.slot in b.chain && b.chain[w.slot].root == w.root
    requires forall j <- after ::
      if j in w.Keys() then after[j].status == Complete && after[j].dependency == Some(w.root)
          else after[j] == before[j]
    ensures DependsOn(spec, b, after, completed)
  {
    forall j | j in w.Keys() ensures !j.AttestationJob? && j.slot == w.slot {
    }
  }

  /** One group; a failing one leaves its jobs pending. */
  method CollectJob(
    db: Database, w: RewardWork, roots: map<Slot, Root>, ghost b: Branch, ghost consistent: bool)
  returns (r: Result<()>)
    requires Resolved(roots, b.chain, b.lo)
    requires consistent ==> Sane(db.spec, b, db.View()) && Honest(b.chain, [w])
    modifies db
    ensures consistent ==> Sane(db.spec, b, db.View())
    ensures RowsAndJobsOnly(old(db.View()), db.View())
    ensures JobsProgress(old(db.jobs), db.jobs)
    ensures r.Ok? <==> Collectable(db.spec, b.lo, w)
    ensures GroupDone(db.spec, b.chain, b.lo, w, old(db.View()), db.View())
  {
    ghost var t := db.View();
    assert w in [w];
    if w.EpochWork? {
      r := CollectEpochRewards(db, w.epoch, w.validators, roots, w.answer, b.chain, b.lo);
      if consistent && r.Ok? {
        EpochJobsDepend(db.spec, b, t.jobs, db.jobs, t.completed, w);
        EpochRewardsStaySane(db.spec, b, t, db.jobs, EpochTotals(w.answer.payload.value.totals, w.epoch));
      }
    } else {
      r := CollectBlockJob(db, w, b, consistent);
    }
  }

  method CollectBlockJob(db: Database, w: RewardWork, ghost b: Branch, ghost consistent: bool) returns (r: Result<()>)
    requires !w.EpochWork?
    requires consistent ==> Sane(db.spec, b, db.View()) && Honest(b.chain, [w])
    modifies db
    ensures consistent ==> Sane(db.spec, b, db.View())
    ensures RowsAndJobsOnly(old(db.View()), db.View())
    ensures JobsProgress(old(db.jobs), db.jobs)
    ensures r.Ok? <==> Collectable(db.spec, b.lo, w)
    ensures GroupDone(db.spec, b.chain, b.lo, w, old(db.View()), db.View())
  {
    ghost var t := db.View();
    assert w in [w];
    if w.answer.payload.Ok? && !Fits(w, w.answer.payload.value) {
      return Err(InconsistentBeaconData);
    }
    r := CollectBlockRewards(db, w.Keys(), w.root, w.slot, w.answer);
    if r.Ok? {
      BlockRewardIsRows(db.spec, t, db.jobs, w.slot, w.answer.payload.value);
      if consistent {
        BlockJobsDepend(db.spec, b, t.jobs, db.jobs, t.completed, w);
        BlockRewardStaysSane(db.spec, b, t, db.jobs, w.slot, w.answer.payload.value);
      }
    }
  }

  ghost predicate RowsAndJobsOnly(a: Tables, b: Tables) {
    b == a.(attestations := b.attestations, proposals := b.proposals, syncs := b.syncs, jobs := b.jobs)
  }

  lemma BlockRewardIsRows(spec: Spec, t: Tables, jobs: map<JobKey, Job>, slot: Slot, payload: Payload)
    ensures RowsAndJobsOnly(t, BlockRewarded(spec, t.(jobs := jobs), slot, payload))
  {
  }

  /** A failing group does not stop the others. */
  method CollectJobs(
    db: Database, work: seq<RewardWork>, roots: map<Slot, Root>, ghost b: Branch, ghost consistent: bool)
    requires Resolved(roots, b.chain, b.lo)
    requires consistent ==> Sane(db.spec, b, db.View()) && Honest(b.chain, work)
    modifies db
    ensures consistent ==> Sane(db.spec, b, db.View())
    ensures RowsAndJobsOnly(old(db.View()), db.View())
    ensures JobsProgress(old(db.jobs), db.jobs)
    ensures GroupsDone(db.spec, b.chain, b.lo, work, old(db.View()), db.View())
  {
    ghost var t := db.View();
    for i := 0 to |work|
      invariant consistent ==> Sane(db.spec, b, db.View())
      invariant JobsProgress(t.jobs, db.jobs) && RowsAndJobsOnly(t, db.View())
      invariant GroupsDone(db.spec, b.chain, b.lo, work[..i], t, db.View())
    {
      assert work[i] in work && work[..i + 1][..i] == work[..i];
      ghost var before := db.View();
      var ignored := CollectJob(db, work[i], roots, b, consistent);
      assert GroupDone(db.spec, b.chain, b.lo, work[..i + 1][i], before, db.View());
    }
    assert work[..|work|] == work;
  }

  // ---- How both carry over from poll to poll ----

  ghost predicate WellFormedBranch(b: Branch) {
    WellFormedScan(b.inputs, b.chain) && forall s <- b.chain :: s <= b.tip
  }

  /** The later branch is the earlier one grown. */
  ghost predicate Extends(a: Branch, b: Branch) {
    a.inputs == b.inputs && a.tip <= b.tip && AgreeBefore(a.chain, b.chain, a.tip + 1)
  }

  /** Both branches are the same before the epoch of the first changed slot. */
  ghost predicate SharedBefore(a: Branch, b: Branch, changed: Slot) {
    && SameInputsBefore(a.inputs, b.inputs, Boundary(a.inputs.spec, changed))
    && AgreeBefore(a.chain, b.chain, Boundary(a.inputs.spec, changed))
    && changed <= b.tip + 1
  }

  lemma SameDependency(spec: Spec, a: Canonical, b: Canonical, changed: Slot, j: JobKey)
    requires AgreeBefore(a, b, changed)
    requires if j.AttestationJob? then EpochStart(spec, j.jobEpoch + 2) <= changed else j.slot < changed
    ensures DependencyOf(spec, a, j) == DependencyOf(spec, b, j)
  {
    if j.AttestationJob? {
      if EpochStart(spec, j.jobEpoch + 2) > 0 {
        SameRoots(a, b, changed, EpochStart(spec, j.jobEpoch + 2) - 1);
      }
    } else {
      assert Lookup(a, j.slot) == Lookup(b, j.slot);
    }
  }

  lemma DependenciesGrow(spec: Spec, a: Branch, b: Branch, jobs: map<JobKey, Job>, completed: set<Pair>)
    requires DependsOn(spec, a, jobs, completed) && Extends(a, b) && WellFormedBranch(a)
    ensures DependsOn(spec, b, jobs, completed)
  {
    forall j | j in jobs && j.Pair(spec) !in completed && jobs[j].dependency.Some?
      ensures jobs[j].dependency == DependencyOf(spec, b.chain, j)
    {
      assert !j.AttestationJob? ==> j.slot in a.chain;
      SameDependency(spec, a.chain, b.chain, a.tip + 1, j);
    }
  }

  /** Evidence and dependencies follow the head as its chain grows. */
  lemma SaneGrows(spec: Spec, a: Branch, b: Branch, t: Tables)
    requires Sane(spec, a, t) && Extends(a, b) && WellFormedBranch(b)
    ensures Sane(spec, b, t)
  {
    Consistency.ConsistencyGrows(a.inputs, a.chain, b.chain, a.tip, b.tip, t);
    DependenciesGrow(spec, a, b, t.jobs, t.completed);
  }

  /** A rollback on the same branch. */
  lemma SaneIsLeft(spec: Spec, b: Branch, t: Tables, changed: Slot)
    requires Sane(spec, b, t) && b.inputs.spec == spec
    ensures Sane(spec, b, LeftAfter(spec, t, changed))
  {
    Consistency.LeftIsConsistent(b.inputs, b.chain, b.tip, t, changed);
  }

  lemma JobsAreShared(spec: Spec, a: Branch, b: Branch, t: Tables, changed: Slot)
    requires DependsOn(spec, a, t.jobs, t.completed) && SharedBefore(a, b, changed) && a.inputs.spec == spec
    ensures DependsOn(spec, b, LeftAfter(spec, t, changed).jobs, t.completed)
  {
    var left := LeftAfter(spec, t, changed);
    forall j | j in left.jobs && j.Pair(spec) !in t.completed
      ensures j.AttestationJob? ==> EpochStart(spec, j.jobEpoch + 2) <= b.tip + 1
      ensures left.jobs[j].dependency.Some? ==> left.jobs[j].dependency == DependencyOf(spec, b.chain, j)
    {
      EarlyEpoch(spec, changed, j.InEpoch(spec));
      if !j.AttestationJob? {
        EpochOfBounds(spec, j.slot, j.InEpoch(spec) + 2);
      }
      SameDependency(spec, a.chain, b.chain, Boundary(spec, changed), j);
    }
  }

  /** A rollback to another branch that shares everything before the epoch of the first changed slot. */
  lemma SaneIsRestored(spec: Spec, a: Branch, b: Branch, t: Tables, changed: Slot)
    requires Sane(spec, a, t) && SharedBefore(a, b, changed) && WellFormedBranch(b) && a.inputs.spec == spec
    requires DutiesActive(b.inputs, t.validators)
    ensures Sane(spec, b, LeftAfter(spec, t, changed))
  {
    ReplayStartsBefore(spec, changed);
    Consistency.RollbackRestores(a.inputs, b.inputs, a.chain, b.chain, a.tip, b.tip, t, changed);
    JobsAreShared(spec, a, b, t, changed);
  }
}
