/** What one poll of the live worker is made of (src/live/mod.rs:112-253, src/live/finalization.rs:11-90). */
module Reconcile {
  import opened Wrappers
  import opened Chain
  import opened Rows
  import opened Outcome
  import opened Tables
  import opened Store
  import opened Promotion
  import opened Ancestry
  import opened LiveScan
  import opened LiveSlot
  import opened HeadScan
  import opened SlotScan
  import opened Reorg
  import opened ChainWalk
  import opened Consistency
  import opened RewardJobs
  import opened Bits
  import Safety
  import Settling
  import Upkeep

  // ---- Where collection starts, and which rewards are due ----

  /** The first slot past the cursor inside the recovery window; without a cursor, the head's epoch. */
  function CollectionStart(spec: Spec, head: Slot, cursor: Option<Slot>, window: nat): (start: Slot)
    ensures Floor(spec, head, window) <= start
    ensures cursor.None? ==> start == EpochStart(spec, EpochOf(spec, head))
    ensures cursor.Some? ==> cursor.value < start && (start == cursor.value + 1 || start == Floor(spec, head, window))
  {
    var current := EpochStart(spec, EpochOf(spec, head));
    EpochStartMonotone(spec, SaturatingSub(EpochOf(spec, head), window), EpochOf(spec, head));
    if cursor.Some? then Max(cursor.value + 1, Floor(spec, head, window)) else current
  }

  /** Start of the recovery window. */
  function Floor(spec: Spec, head: Slot, window: nat): Slot {
    EpochStart(spec, SaturatingSub(EpochOf(spec, head), window))
  }

  /** The cursor just before the slot where collection starts. */
  function StartCursor(spec: Spec, head: Slot, cursor: Option<Slot>, window: nat): Option<Slot> {
    var start := CollectionStart(spec, head, cursor, window);
    if start >= 1 then Some(start - 1) else None
  }

  /** It never falls behind the cursor, and is the cursor unless that fell behind. */
  lemma StartCursorFacts(spec: Spec, head: Slot, cursor: Option<Slot>, window: nat)
    ensures var from := StartCursor(spec, head, cursor, window);
      && NextSlot(from) == CollectionStart(spec, head, cursor, window)
      && (cursor.Some? ==> from.Some? && from.value >= cursor.value)
      && (cursor.Some? && cursor.value + 1 >= CollectionStart(spec, head, cursor, window) ==> from == cursor)
  {
  }

  // ---- Stored blocks ----

  /** Stored blocks from `lo` on, oldest first. */
  ghost predicate ListsFrom(listed: seq<StoredBlock>, blocks: map<Slot, BlockRow>, lo: Slot) {
    && (forall b <- listed :: b.slot >= lo && b.slot in blocks && blocks[b.slot] == BlockRow(b.root, b.parent))
    && (forall s <- blocks :: s >= lo ==> StoredBlock(s, blocks[s].root, blocks[s].parent) in listed)
    && (forall i, j :: 0 <= i < j < |listed| ==> listed[i].slot < listed[j].slot)
  }

  lemma {:induction false} LeastExists(slots: set<Slot>, s: Slot)
    requires s in slots
    ensures exists m :: m in slots && forall x <- slots :: m <= x
    decreases s
  {
    if x :| x in slots && x < s {
      LeastExists(slots, x);
    } else {
      assert forall x <- slots :: s <= x;
    }
  }

  method RecentBlocks(blocks: map<Slot, BlockRow>, lo: Slot) returns (listed: seq<StoredBlock>)
    ensures ListsFrom(listed, blocks, lo)
  {
    listed := [];
    var pending := set s | s in blocks && s >= lo;
    while pending != {}
      invariant forall b <- listed :: b.slot >= lo && b.slot in blocks && blocks[b.slot] == BlockRow(b.root, b.parent)
      invariant forall s <- blocks :: s >= lo ==>
        s in pending || StoredBlock(s, blocks[s].root, blocks[s].parent) in listed
      invariant forall i, j :: 0 <= i < j < |listed| ==> listed[i].slot < listed[j].slot
      invariant forall b <- listed, s <- pending :: b.slot < s
      invariant forall s <- pending :: s in blocks && s >= lo
    {
      ghost var some :| some in pending;
      LeastExists(pending, some);
      var s :| s in pending && forall x <- pending :: s <= x;
      ghost var before := listed;
      pending := pending - {s};
      listed := listed + [StoredBlock(s, blocks[s].root, blocks[s].parent)];
      assert forall b <- before :: b in listed;
    }
  }

  /** The first stored block at or before the head that the resolved chain does not have. */
  method FindChanged(stored: seq<StoredBlock>, head: Slot, resolved: map<Slot, Block>) returns (changed: Option<Slot>)
    requires Sorted(stored)
    ensures changed.None? ==> forall b <- stored :: b.slot <= head ==> OnResolved(b, resolved)
    ensures changed.Some? ==> changed.value <= head && forall b <- stored :: b.slot < changed.value ==>
      OnResolved(b, resolved)
    ensures changed.Some? ==> exists b :: b in stored && b.slot == changed.value && !OnResolved(b, resolved)
  {
    for i := 0 to |stored|
      invariant forall j :: 0 <= j < i && stored[j].slot <= head ==> OnResolved(stored[j], resolved)
    {
      if stored[i].slot <= head && !OnResolved(stored[i], resolved) {
        assert stored[i] in stored;
        return Some(stored[i].slot);
      }
    }
    return None;
  }

  predicate OnResolved(b: StoredBlock, resolved: map<Slot, Block>) {
    b.slot in resolved && resolved[b.slot].root == b.root
  }

  ghost predicate Sorted(stored: seq<StoredBlock>) {
    forall i, j :: 0 <= i < j < |stored| ==> stored[i].slot < stored[j].slot
  }

  function SlotsFrom(blocks: map<Slot, BlockRow>, lo: Slot): (slots: set<Slot>)
    ensures forall s :: s in slots <==> s in blocks && s >= lo
  {
    set s | s in blocks && s >= lo
  }

  /** The oldest stored block from `lo` on. */
  ghost function OldestFrom(blocks: map<Slot, BlockRow>, lo: Slot): (oldest: Option<Slot>)
    ensures oldest.None? <==> forall s <- blocks :: s < lo
    ensures oldest.Some? ==> oldest.value in blocks && oldest.value >= lo
    ensures oldest.Some? ==> forall s <- blocks :: s >= lo ==> oldest.value <= s
  {
    var slots := SlotsFrom(blocks, lo);
    assert forall s <- blocks :: s >= lo ==> s in slots;
    if slots == {} then None else
      var some :| some in slots;
      LeastExists(slots, some);
      var s :| s in slots && forall x <- slots :: s <= x;
      Some(s)
  }

  /** The first listed block is the oldest. */
  lemma FirstIsOldest(listed: seq<StoredBlock>, blocks: map<Slot, BlockRow>, lo: Slot)
    requires ListsFrom(listed, blocks, lo)
    ensures OldestFrom(blocks, lo) == if listed == [] then None else Some(listed[0].slot)
  {
    if listed != [] {
      assert listed[0] in listed;
      forall s | s in blocks && s >= lo ensures listed[0].slot <= s {
        var b := StoredBlock(s, blocks[s].root, blocks[s].parent);
        assert b in listed;
        var i :| 0 <= i < |listed| && listed[i] == b;
      }
    }
  }

  // ---- Rewards that are due ----

  datatype Config = Config(lag: nat, window: nat)

  function MinEpoch(spec: Spec, head: Slot, config: Config): Epoch {
    SaturatingSub(EpochOf(spec, head), config.window)
  }

  /** Tracked validators that were active and already followed then. */
  function Eligible(t: Tables, tracked: set<Validator>, epoch: Epoch): set<Validator> {
    set v | v in ActiveValidatorsAt(t, tracked, epoch) && v in t.started && t.started[v] <= epoch
  }

  function DueKeys(t: Tables, tracked: set<Validator>, lo: Epoch, hi: Epoch): set<JobKey> {
    set e: Epoch, v | lo <= e < hi && v in Eligible(t, tracked, e) :: AttestationJob(v, e)
  }

  /** Jobs of the epochs whose rewards have settled, and expiry of what left the retry window. */
  function Queued(spec: Spec, t: Tables, tracked: set<Validator>, head: Slot, config: Config): Tables {
    var lo := MinEpoch(spec, head, config);
    JobsExpired(spec, JobsEnqueued(t, DueKeys(t, tracked, lo, QueueEnd(spec, head, config)), None), lo)
  }

  function QueueEnd(spec: Spec, head: Slot, config: Config): (hi: Epoch)
    ensures hi >= MinEpoch(spec, head, config)
  {
    var lo, latest := MinEpoch(spec, head, config), LatestRewardEpoch(spec, head, config.lag);
    if latest.Some? && lo <= latest.value then latest.value + 1 else lo
  }

  ghost predicate NonePendingBefore(spec: Spec, jobs: map<JobKey, Job>, minEpoch: Epoch) {
    forall j <- jobs :: jobs[j].status == Pending ==> j.InEpoch(spec) >= minEpoch
  }

  lemma EnqueuedTwice(t: Tables, a: set<JobKey>, b: set<JobKey>)
    ensures JobsEnqueued(JobsEnqueued(t, a, None), b, None) == JobsEnqueued(t, a + b, None)
  {
    assert JobsEnqueued(JobsEnqueued(t, a, None), b, None).jobs == JobsEnqueued(t, a + b, None).jobs;
  }

  function KeysOf(eligible: set<Validator>, epoch: Epoch): set<JobKey> {
    set v <- eligible :: AttestationJob(v, epoch)
  }

  lemma QueuedOnce(t: Tables, tracked: set<Validator>, lo: Epoch, epoch: Epoch)
    requires lo <= epoch
    ensures EpochQueued(JobsEnqueued(t, DueKeys(t, tracked, lo, epoch), None), tracked, epoch)
         == JobsEnqueued(t, DueKeys(t, tracked, lo, epoch + 1), None)
  {
    var now := JobsEnqueued(t, DueKeys(t, tracked, lo, epoch), None);
    assert Eligible(now, tracked, epoch) == Eligible(t, tracked, epoch);
    EnqueuedTwice(t, DueKeys(t, tracked, lo, epoch), KeysOf(Eligible(t, tracked, epoch), epoch));
    assert DueKeys(t, tracked, lo, epoch + 1)
        == DueKeys(t, tracked, lo, epoch) + KeysOf(Eligible(t, tracked, epoch), epoch);
  }

  function EpochQueued(t: Tables, tracked: set<Validator>, epoch: Epoch): Tables {
    JobsEnqueued(t, KeysOf(Eligible(t, tracked, epoch), epoch), None)
  }

  /** Epochs of `[lo, hi)`, one after the other. */
  ghost function EpochsQueued(t: Tables, tracked: set<Validator>, lo: Epoch, hi: Epoch): Tables {
    if hi <= lo then t else EpochQueued(EpochsQueued(t, tracked, lo, hi - 1), tracked, hi - 1)
  }

  lemma {:induction false} EpochsQueuedAtOnce(t: Tables, tracked: set<Validator>, lo: Epoch, hi: Epoch)
    requires lo <= hi
    ensures EpochsQueued(t, tracked, lo, hi) == JobsEnqueued(t, DueKeys(t, tracked, lo, hi), None)
  {
    if lo == hi {
      NoneQueuedYet(t, tracked, lo);
    } else {
      var last: Epoch := hi - 1;
      EpochsQueuedAtOnce(t, tracked, lo, last);
      QueuedOnce(t, tracked, lo, last);
      assert EpochsQueued(t, tracked, lo, hi) == EpochQueued(EpochsQueued(t, tracked, lo, last), tracked, last);
    }
  }

  lemma NoneQueuedYet(t: Tables, tracked: set<Validator>, lo: Epoch)
    ensures JobsEnqueued(t, DueKeys(t, tracked, lo, lo), None) == t
  {
    assert DueKeys(t, tracked, lo, lo) == {};
    assert JobsEnqueued(t, {}, None).jobs == t.jobs;
  }

  method QueueEpoch(db: Database, tracked: set<Validator>, epoch: Epoch)
    modifies db
    ensures db.View() == EpochQueued(old(db.View()), tracked, epoch)
  {
    var eligible := Eligible(db.View(), tracked, epoch);
    db.EnqueueJobs(KeysOf(eligible, epoch), None);
  }

  method QueueEpochs(db: Database, tracked: set<Validator>, lo: Epoch, hi: Epoch)
    requires lo <= hi
    modifies db
    ensures db.View() == EpochsQueued(old(db.View()), tracked, lo, hi)
  {
    ghost var t := db.View();
    for epoch := lo to hi
      invariant db.View() == EpochsQueued(t, tracked, lo, epoch)
    {
      QueueEpoch(db, tracked, epoch);
    }
  }

  method QueueRewards(db: Database, tracked: set<Validator>, head: Slot, config: Config)
    modifies db
    ensures db.View() == Queued(db.spec, old(db.View()), tracked, head, config)
  {
    var lo := MinEpoch(db.spec, head, config);
    EpochsQueuedAtOnce(db.View(), tracked, lo, QueueEnd(db.spec, head, config));
    QueueEpochs(db, tracked, lo, QueueEnd(db.spec, head, config));
    db.ExpireJobs(lo);
  }

  /** Active, followed by then, in the retry window, and its rewards settled. */
  predicate RewardDue(spec: Spec, t: Tables, tracked: set<Validator>, head: Slot, config: Config, k: Pair) {
    && k.0 in tracked && k.0 in t.validators && k.0 in t.started
    && t.validators[k.0].activation <= k.1 && (t.validators[k.0].exit.Some? ==> t.validators[k.0].exit.value > k.1)
    && t.started[k.0] <= k.1
    && EpochOf(spec, head) <= k.1 + config.window
    && EpochStart(spec, k.1 + 2) + config.lag <= head
  }

  /** A pair has its reward job if and only if it had it or is due, and a new job is pending. */
  lemma DueIsQueued(spec: Spec, t: Tables, tracked: set<Validator>, head: Slot, config: Config, k: Pair)
    ensures var (u, j) := (Queued(spec, t, tracked, head, config), AttestationJob(k.0, k.1));
      && (j in u.jobs <==> j in t.jobs || RewardDue(spec, t, tracked, head, config, k))
      && (j in u.jobs && j !in t.jobs ==> u.jobs[j] == Job(None, None, Pending, None))
  {
    var (lo, hi, j) := (MinEpoch(spec, head, config), QueueEnd(spec, head, config), AttestationJob(k.0, k.1));
    RewardsAreSettled(spec, head, config.lag, k.1);
    assert lo <= k.1 < hi && k.0 in Eligible(t, tracked, k.1) <==> RewardDue(spec, t, tracked, head, config, k);
    assert j in DueKeys(t, tracked, lo, hi) <==> lo <= k.1 < hi && k.0 in Eligible(t, tracked, k.1);
  }

  /** The jobs there were stay, except that what is pending from before the window goes to backfill, as a gap. */
  lemma OldJobsExpire(spec: Spec, t: Tables, tracked: set<Validator>, head: Slot, config: Config)
    ensures var (u, lo) := (Queued(spec, t, tracked, head, config), MinEpoch(spec, head, config));
      && (forall j <- t.jobs :: j in u.jobs && u.jobs[j] ==
            if t.jobs[j].status == Pending && j.InEpoch(spec) < lo then t.jobs[j].(status := NeedsBackfill)
            else t.jobs[j])
      && (forall k: Pair :: k in u.gaps <==>
            k in t.gaps || exists j :: j in t.jobs && t.jobs[j].status == Pending && k.1 < lo && j.Pair(spec) == k)
  {
    var (lo, hi) := (MinEpoch(spec, head, config), QueueEnd(spec, head, config));
    var e := JobsEnqueued(t, DueKeys(t, tracked, lo, hi), None);
    forall k: Pair
      ensures k in JobsExpired(spec, e, lo).gaps <==>
        k in t.gaps || exists j :: j in t.jobs && t.jobs[j].status == Pending && k.1 < lo && j.Pair(spec) == k
    {
      if j :| j in t.jobs && t.jobs[j].status == Pending && k.1 < lo && j.Pair(spec) == k {
        assert Expires(spec, e, j, lo);
      }
      if j :| j in e.jobs && Expires(spec, e, j, lo) && j.Pair(spec) == k {
        assert j in t.jobs;
      }
    }
  }

  /** Only epochs whose end of E+1 lies behind the head are queued, and nothing from before the window stays pending. */
  lemma QueuedShape(spec: Spec, t: Tables, tracked: set<Validator>, head: Slot, config: Config)
    ensures var u := Queued(spec, t, tracked, head, config);
      && u == t.(jobs := u.jobs, gaps := u.gaps)
      && NonePendingBefore(spec, u.jobs, MinEpoch(spec, head, config))
      && (forall j <- u.jobs :: j in t.jobs ==> JobQueued(t.jobs[j], u.jobs[j]))
      && (forall j <- u.jobs :: j !in t.jobs ==>
            j.AttestationJob? && EpochStart(spec, j.jobEpoch + 2) <= head && u.jobs[j].status != Complete
                && u.jobs[j].dependency.None?)
  {
    var u := Queued(spec, t, tracked, head, config);
    forall j | j in u.jobs && j !in t.jobs ensures j.AttestationJob? && EpochStart(spec, j.jobEpoch + 2) <= head {
      RewardsAreSettled(spec, head, config.lag, j.jobEpoch);
    }
  }

  /** A job that was there keeps everything but a pending status. */
  predicate JobQueued(a: Job, b: Job) {
    b == a.(status := b.status) && (b.status == Complete ==> a.status == Complete)
  }

  lemma QueuedStaysSane(b: Branch, t: Tables, tracked: set<Validator>, config: Config)
    requires Sane(b.inputs.spec, b, t)
    ensures Sane(b.inputs.spec, b, Queued(b.inputs.spec, t, tracked, b.tip, config))
  {
    QueuedShape(b.inputs.spec, t, tracked, b.tip, config);
    QueuedJobs(b, t, Queued(b.inputs.spec, t, tracked, b.tip, config));
  }

  lemma QueuedJobs(b: Branch, t: Tables, u: Tables)
    requires Sane(b.inputs.spec, b, t) && u == t.(jobs := u.jobs, gaps := u.gaps)
    requires forall j <- u.jobs :: j in t.jobs ==> JobQueued(t.jobs[j], u.jobs[j])
    requires forall j <- u.jobs :: j !in t.jobs ==>
      && j.AttestationJob? && EpochStart(b.inputs.spec, j.jobEpoch + 2) <= b.tip
      && u.jobs[j].status != Complete && u.jobs[j].dependency.None?
    ensures Sane(b.inputs.spec, b, u)
  {
  }

  // ---- Finality ----

  datatype Checkpoint = Checkpoint(epoch: Epoch, root: Root, verified: Result<bool>)

  lemma ImprovedStaysConsistent(inputs: Inputs, chain: Canonical, tip: Slot, a: Tables, b: Tables)
    requires LiveConsistent(inputs, chain, tip, a) && OnlyAttestations(a, b)
    requires RowsImproved(inputs, chain, a.attestations, b.attestations)
    ensures LiveConsistent(inputs, chain, tip, b)
  {
    ImprovedKeeps(inputs, chain, a.attestations, b.attestations, a.coverage);
  }

  /** An inclusion in a confirmed block, at or past the lowest resolved slot, whose details are not all there. */
  predicate NeedsDetails(t: Tables, roots: set<Root>, lowest: Slot, k: Pair)
    requires k in t.attestations
  {
    var row := t.attestations[k];
    && row.details.included && row.details.inclusionSlot.Some? && row.details.inclusionSlot.value >= lowest
    && row.details.inclusionSlot.value in t.blocks && t.blocks[row.details.inclusionSlot.value].root in roots
    && (row.details.effectiveDelay.None? || !row.marks.Complete())
  }

  function RepairSlots(t: Tables, roots: set<Root>, lowest: Slot): set<Slot> {
    set k | k in t.attestations && NeedsDetails(t, roots, lowest, k) :: t.attestations[k].details.inclusionSlot.value
  }

  /** An inclusion with its effective delay and all of its marks. */
  predicate DetailsThere(row: AttestationRow) {
    row.details.included ==> row.details.effectiveDelay.Some? && row.marks.Complete()
  }

  /** Every row is as it was, or has its details. */
  ghost predicate Mended(a: map<Pair, AttestationRow>, b: map<Pair, AttestationRow>) {
    forall k <- a :: k in b && (b[k] == a[k] || DetailsThere(b[k]))
  }

  /** The row is shown as included at the slot, and its block carries the vote. */
  ghost predicate ShownAt(inputs: Inputs, chain: Canonical, k: Pair, slot: Slot, row: AttestationRow) {
    row.details.included && row.details.inclusionSlot == Some(slot) && Observation(inputs, chain, k, slot).Some?
  }

  /** Rows shown as included at the slot, whose vote its block carries, have their details. */
  ghost predicate MendedAt(
    inputs: Inputs, chain: Canonical, followed: set<Validator>, a: map<Pair, AttestationRow>,
    b: map<Pair, AttestationRow>, slot: Slot)
  {
    forall k <- inputs.duties ::
      k in a && k.0 in followed && slot < EpochStart(inputs.spec, k.1 + 2) && ShownAt(inputs, chain, k, slot, a[k]) ==>
        k in b && DetailsThere(b[k])
  }

  lemma FinalizedScanMends(inputs: Inputs, chain: Canonical, t: Tables, k: Pair, slot: Slot)
    requires k in t.attestations
    ensures var (row, after) := (t.attestations[k], ScannedRow(inputs, chain, t, k, slot, true));
      && after.Some? && (after.value == row || DetailsThere(after.value))
      && (ShownAt(inputs, chain, k, slot, row) ==> DetailsThere(after.value))
  {
  }

  /** The repair of one block mends every row, and those included at it. */
  lemma SlotMends(
    inputs: Inputs, chain: Canonical, followed: set<Validator>, t: Tables, a: Tables, b: Tables, slot: Slot, ok: bool)
    requires Mended(t.attestations, a.attestations)
    requires forall k: Pair :: k !in inputs.duties ==> Lookup(b.attestations, k) == Lookup(a.attestations, k)
    requires forall k <- inputs.duties :: ScannedOrKept(inputs, chain, a, b, k, slot, true)
    requires ok ==> forall k <- inputs.duties :: k.0 in followed && slot < EpochStart(inputs.spec, k.1 + 2) ==>
      Lookup(b.attestations, k) == ScannedRow(inputs, chain, a, k, slot, true)
    ensures Mended(a.attestations, b.attestations) && Mended(t.attestations, b.attestations)
    ensures ok ==> MendedAt(inputs, chain, followed, t.attestations, b.attestations, slot)
  {
    forall k | k in a.attestations
      ensures k in b.attestations && (b.attestations[k] == a.attestations[k] || DetailsThere(b.attestations[k]))
    {
      FinalizedScanMends(inputs, chain, a, k, slot);
      assert k !in inputs.duties ==> Lookup(b.attestations, k) == Lookup(a.attestations, k);
    }
    if ok {
      forall k | k in inputs.duties && k in t.attestations && k.0 in followed && slot < EpochStart(inputs.spec, k.1 + 2)
          && ShownAt(inputs, chain, k, slot, t.attestations[k])
        ensures k in b.attestations && DetailsThere(b.attestations[k])
      {
        FinalizedScanMends(inputs, chain, a, k, slot);
      }
    }
  }

  /** The repaired blocks that can be read have mended the rows included at them. */
  ghost predicate RepairedBlocks(
    inputs: Inputs, b: Branch, followed: set<Validator>, repairs: seq<Slot>, resolved: map<Slot, Block>,
    before: map<Pair, AttestationRow>, after: map<Pair, AttestationRow>)
  {
    && Mended(before, after)
    && forall s <- repairs :: s in resolved && BlockReads(inputs, followed, s, resolved[s].attestations, b.lo) ==>
        MendedAt(b.inputs, b.chain, followed, before, after, s)
  }

  lemma MendedStays(
    inputs: Inputs, b: Branch, followed: set<Validator>, repairs: seq<Slot>, slot: Slot, resolved: map<Slot, Block>,
    t: map<Pair, AttestationRow>, now: map<Pair, AttestationRow>, next: map<Pair, AttestationRow>)
    requires RepairedBlocks(inputs, b, followed, repairs, resolved, t, now)
    requires Mended(now, next) && Mended(t, next)
    requires slot in resolved && BlockReads(inputs, followed, slot, resolved[slot].attestations, b.lo) ==>
      MendedAt(b.inputs, b.chain, followed, t, next, slot)
    ensures RepairedBlocks(inputs, b, followed, repairs + [slot], resolved, t, next)
  {
  }

  /** Blocks of rows with missing details are decoded again; a failing one is passed over. */
  method RepairDetails(
    db: Database, inputs: Inputs, repairs: seq<Slot>, resolved: map<Slot, Block>, ghost b: Branch,
    ghost consistent: bool)
    requires db.spec == inputs.spec && ResolvedBlocks(resolved, b.chain, b.lo)
    requires consistent ==> PartOfAnswers(inputs, b.inputs) && LiveConsistent(b.inputs, b.chain, b.tip, db.View())
    modifies db
    ensures consistent ==> LiveConsistent(b.inputs, b.chain, b.tip, db.View())
    ensures OnlyAttestations(old(db.View()), db.View()) && Safety.AttestationsKeptIn(old(db.View()), db.View())
    ensures consistent ==>
      RepairedBlocks(inputs, b, db.started.Keys, repairs, resolved, old(db.attestations), db.attestations)
  {
    ghost var t := db.View();
    for i := 0 to |repairs|
      invariant consistent ==> LiveConsistent(b.inputs, b.chain, b.tip, db.View())
      invariant OnlyAttestations(t, db.View()) && Safety.AttestationsKeptIn(t, db.View())
      invariant consistent ==>
        RepairedBlocks(inputs, b, t.started.Keys, repairs[..i], resolved, t.attestations, db.attestations)
    {
      assert repairs[..i + 1] == repairs[..i] + [repairs[i]];
      ghost var now := db.attestations;
      if repairs[i] in resolved {
        RepairSlot(db, inputs, repairs[i], resolved, b, consistent, t);
      }
      if consistent {
        MendedStays(inputs, b, t.started.Keys, repairs[..i], repairs[i], resolved, t.attestations, now,
          db.attestations);
      }
    }
    assert repairs[..|repairs|] == repairs;
  }

  method RepairSlot(
    db: Database, inputs: Inputs, slot: Slot, resolved: map<Slot, Block>,
    ghost b: Branch, ghost consistent: bool, ghost t: Tables)
    requires db.spec == inputs.spec && ResolvedBlocks(resolved, b.chain, b.lo) && slot in resolved
    requires consistent ==> PartOfAnswers(inputs, b.inputs) && LiveConsistent(b.inputs, b.chain, b.tip, db.View())
    requires OnlyAttestations(t, db.View()) && Safety.AttestationsKeptIn(t, db.View())
    requires consistent ==> Mended(t.attestations, db.attestations)
    modifies db
    ensures consistent ==> LiveConsistent(b.inputs, b.chain, b.tip, db.View())
    ensures OnlyAttestations(t, db.View()) && Safety.AttestationsKeptIn(t, db.View())
    ensures consistent ==> Mended(old(db.attestations), db.attestations) && Mended(t.attestations, db.attestations)
    ensures consistent && BlockReads(inputs, db.started.Keys, slot, resolved[slot].attestations, b.lo) ==>
      MendedAt(b.inputs, b.chain, db.started.Keys, t.attestations, db.attestations, slot)
  {
    ghost var now := db.View();
    var scanned, failures := ScanLiveAttestationsInSlot(
      db, inputs, db.started.Keys, slot, resolved[slot].attestations, BlockRoots(resolved), true, b.inputs, b.chain,
        b.lo);
    KeptTwice(t, now, db.View());
    if consistent {
      ScanImproves(b.inputs, b.chain, now, db.View(), slot, true);
      ImprovedStaysConsistent(b.inputs, b.chain, b.tip, now, db.View());
      SlotMends(b.inputs, b.chain, now.started.Keys, t, now, db.View(), slot, scanned.Ok?);
    }
  }

  /** The checkpoint is verified, old enough to promote, and connected to stored blocks. */
  ghost predicate Connected(finalized: Checkpoint, blocks: map<Slot, BlockRow>)
    requires DistinctRoots(blocks)
  {
    finalized.epoch >= 2 && finalized.verified == Ok(true) && Confirmed(blocks, finalized.root) != []
  }

  /** The parameters a checkpoint's promotion is run with. */
  ghost predicate BoundTo(t: Tables, p: Params, finalized: Checkpoint) {
    && ConfirmedParams(t, p, finalized.root) && p.finalizedEpoch == finalized.epoch == p.target + 2
    && p.validators == t.started.Keys
  }

  ghost function PromotedIf(spec: Spec, t: Tables, p: Option<Params>): Tables {
    if p.Some? then Promoted(spec, t, p.value) else t
  }

  lemma PromotedStaysSane(b: Branch, t: Tables, p: Params)
    requires Sane(b.inputs.spec, b, t)
    ensures Sane(b.inputs.spec, b, Promoted(b.inputs.spec, t, p))
  {
    Upkeep.PromotionStaysConsistent(b.inputs.spec, b.inputs, b.chain, b.tip, t, p);
    PromotionLeavesJobs(b.inputs.spec, t, p);
  }

  lemma PromotionLeavesJobs(spec: Spec, t: Tables, p: Params)
    ensures var after := Promoted(spec, t, p);
      after.jobs == t.jobs && after.blocks == t.blocks && t.completed <= after.completed
  {
    var settled := Settling.PromotedRows(spec, t, p);
  }

  /** The four newest confirmed blocks, from the lowest resolved slot on, at which rows miss details. */
  ghost function NewestRepairs(t: Tables, roots: set<Root>, root: Root, lowest: Slot): seq<Slot>
    requires DistinctRoots(t.blocks) && Confirmed(t.blocks, root) != []
  {
    Newest(RepairSlots(t, roots, lowest), Confirmed(t.blocks, root)[0].0, 4)
  }

  /**
   * Promotion runs with the ancestry confirmed from the checkpoint through stored blocks, or not at all. `ran` is
   * the state it runs on: the tables with missing details repaired and no final row lost or reopened.
   */
  method FinalizeCollectedEvidence(
    db: Database, inputs: Inputs, finalized: Checkpoint, resolved: map<Slot, Block>,
    ghost b: Branch, ghost consistent: bool)
    returns (r: Result<()>, ghost ran: Tables, ghost p: Option<Params>)
    requires db.spec == inputs.spec && ResolvedBlocks(resolved, b.chain, b.lo) && DistinctRoots(db.blocks)
    requires consistent ==> PartOfAnswers(inputs, b.inputs) && Sane(db.spec, b, db.View())
    modifies db
    ensures consistent ==> Sane(db.spec, b, db.View())
    ensures r.Ok? <==> finalized.epoch < 2 || finalized.verified == Ok(true)
    ensures p.Some? <==> Connected(finalized, old(db.blocks))
    ensures OnlyAttestations(old(db.View()), ran) && Safety.AttestationsKeptIn(old(db.View()), ran)
    ensures p.None? ==> ran == old(db.View())
    ensures p.Some? ==> BoundTo(ran, p.value, finalized)
    ensures p.Some? && consistent ==>
      RepairedBlocks(inputs, b, ran.started.Keys, NewestRepairs(old(db.View()), p.value.roots, finalized.root, b.lo),
        resolved, old(db.attestations), ran.attestations)
    ensures db.View() == PromotedIf(db.spec, ran, p)
  {
    ran, p := db.View(), None;
    var target := FinalizedScanTarget(finalized.epoch);
    if target.None? {
      return Ok(()), ran, None;
    }
    if finalized.verified.Err? {
      return Err(finalized.verified.error), ran, None;
    }
    if !finalized.verified.value {
      return Err(InconsistentBeaconData), ran, None;
    }
    var blocks := RecentBlocks(db.blocks, 0);
    var confirmed := ConfirmedAncestry(blocks, finalized.root, db.blocks);
    if confirmed == [] {
      return Ok(()), ran, None;
    }
    var lowest := LowestSlot(resolved, b);
    var repairs := Newest(RepairSlots(db.View(), RootsOf(confirmed), lowest), confirmed[0].0, 4);
    RepairDetails(db, inputs, repairs, resolved, b, consistent);
    var bound := Params(db.started.Keys, target.value, finalized.epoch, FloorOf(confirmed), RootsOf(confirmed));
    ran, p := db.View(), Some(bound);
    if consistent {
      PromotedStaysSane(b, ran, bound);
    }
    var completed := db.PromoteCollected(bound);
    return Ok(()), ran, p;
  }

  // ---- The poll ----

  /** What the node answers during one poll; the head is read once, before everything else. */
  datatype Poll = Poll(
    head: Slot, root: Root, served: Served, aggregates: map<Slot, seq<Byte>>, inputs: Inputs, node: SlotScan.Node,
    oldTipKnown: bool, stillCanonical: Result<bool>, work: seq<RewardWork>,
    finalized: Result<Checkpoint>)

  /** The part of the head's chain a poll resolved. */
  datatype Walked = Walked(resolved: map<Slot, Block>, chain: Canonical, lo: Slot)

  /** What collection did: the slots it covered, and what it left. */
  datatype Collection = Collection(covered: seq<Slot>, after: Tables, cursor: Option<Slot>, ok: bool)

  /** The states settling went through: rewards collected, details repaired, and the promotion if there was one. */
  datatype Settlement = Settlement(paid: Tables, ran: Tables, p: Option<Params>)

  /**
   * How a poll ended: without the head's ancestry, on a changed block, on a branch switch, or past collection, settled
   * if the head was still canonical then.
   */
  datatype PollOutcome =
    | Unresolved
    | RolledBack(changed: Slot, walk: Walked)
    | Switched(replayed: Slot, walk: Walked, scan: Collection)
    | Collected(walk: Walked, scan: Collection, settled: Option<Settlement>)

  /** Stored blocks from `floor` on are blocks of the chain. */
  ghost predicate OnChain(chain: Canonical, blocks: map<Slot, BlockRow>, floor: Slot) {
    forall s <- blocks :: s >= floor ==> s in chain && chain[s].root == blocks[s].root
  }

  ghost predicate MatchesResolved(blocks: map<Slot, BlockRow>, resolved: map<Slot, Block>, floor: Slot) {
    forall s <- blocks :: s >= floor ==> s in resolved && resolved[s].root == blocks[s].root
  }

  ghost predicate FewerBlocks(a: map<Slot, BlockRow>, b: map<Slot, BlockRow>) {
    forall s <- b :: s in a && b[s] == a[s]
  }

  /** What is stored from the resolved chain stays on it. */
  lemma MatchedIsOnChain(
    blocks: map<Slot, BlockRow>, resolved: map<Slot, Block>, chain: Canonical, lo: Slot, floor: Slot)
    requires ResolvedBlocks(resolved, chain, lo) && MatchesResolved(blocks, resolved, floor)
    ensures OnChain(chain, blocks, floor)
  {
  }

  /** Tracking starts; after an outage past the retry window, an unknown old branch goes and the cursor with it. */
  ghost function Recovered(
    spec: Spec, t: Tables, cursor: Option<Slot>, tracked: set<Validator>, head: Slot, window: nat, oldTipKnown: bool)
    : (Tables, Option<Slot>)
  {
    var registered := TrackingRegistered(spec, t, tracked, EpochOf(spec, head));
    var oldest := OldestFrom(t.blocks, 0);
    if cursor.None? || cursor.value >= Floor(spec, head, window) then (registered, cursor)
    else if oldest.None? || oldTipKnown then (registered, None)
    else (LeftAfter(spec, registered, oldest.value), None)
  }

  /** The ancestry is needed from an epoch before the first slot to collect and the first stored block. */
  ghost function WalkStart(
    spec: Spec, config: Config, head: Slot, blocks: map<Slot, BlockRow>, cursor: Option<Slot>): Slot
  {
    var start := CollectionStart(spec, head, cursor, config.window);
    var oldest := OldestFrom(blocks, Floor(spec, head, config.window));
    ReorgReplayStart(spec, if oldest.Some? then Least(start, oldest.value) else start)
  }

  /**
   * Registering the tracked: each starts at the head's epoch or where it had started before, gaps from before a start
   * go, and so do jobs unless their pair is complete; everything else stays.
   */
  lemma RegisteredKeeps(spec: Spec, t: Tables, tracked: set<Validator>, epoch: Epoch)
    ensures var u := TrackingRegistered(spec, t, tracked, epoch);
      && u == t.(started := u.started, jobs := u.jobs, gaps := u.gaps)
      && (forall v :: v in u.started <==> v in t.started || v in tracked)
      && (forall v <- u.started :: u.started[v] ==
            if v !in t.started then epoch else if v in tracked then Least(t.started[v], epoch) else t.started[v])
      && (forall j :: Lookup(u.jobs, j) ==
            if PrecedesTracking(u.started, j.Pair(spec)) && j.Pair(spec) !in t.completed then None
            else Lookup(t.jobs, j))
      && (forall k: Pair :: k in u.gaps <==> k in t.gaps && !PrecedesTracking(u.started, k))
  {
  }

  predicate PrecedesTracking(started: map<Validator, Epoch>, k: Pair) {
    k.0 in started && k.1 < started[k.0]
  }

  /** It lies an epoch or more before everything that is collected or compared, unless that is all of the chain. */
  lemma WalkStartsEarly(
    spec: Spec, config: Config, head: Slot, blocks: map<Slot, BlockRow>, cursor: Option<Slot>, s: Slot)
    requires s >= CollectionStart(spec, head, cursor, config.window)
             || (s in blocks && s >= Floor(spec, head, config.window))
    ensures var start := WalkStart(spec, config, head, blocks, cursor);
      start == 0 || exists e: Epoch :: start == EpochStart(spec, e) && e + 1 <= EpochOf(spec, s)
  {
    var start := CollectionStart(spec, head, cursor, config.window);
    var oldest := OldestFrom(blocks, Floor(spec, head, config.window));
    var from := if oldest.Some? then Least(start, oldest.value) else start;
    EpochOfBounds(spec, s, EpochOf(spec, from));
    EpochOfBounds(spec, from, EpochOf(spec, from));
    assert WalkStart(spec, config, head, blocks, cursor)
        == EpochStart(spec, SaturatingSub(EpochOf(spec, from), 1));
  }

  function CursorAfter(spec: Spec, changed: Slot): Option<Slot> {
    if ReorgReplayStart(spec, changed) == 0 then None else Some(ReorgReplayStart(spec, changed) - 1)
  }

  /** What is stored, and not yet past collection, agrees with the head's chain. */
  ghost predicate NothingChanged(blocks: map<Slot, BlockRow>, resolved: map<Slot, Block>, floor: Slot, head: Slot) {
    MatchesResolved(blocks, resolved, floor) && forall s <- blocks :: s >= floor ==> s <= head
  }

  /** The first stored block that is not the head's ancestor; failing that, the slot past the head. */
  ghost predicate FirstChanged(
    blocks: map<Slot, BlockRow>, resolved: map<Slot, Block>, floor: Slot, head: Slot, changed: Slot)
  {
    && (forall s <- blocks :: floor <= s < changed ==> s in resolved && resolved[s].root == blocks[s].root)
    && (changed <= head ==> changed in blocks && changed >= floor
                            && !(changed in resolved && resolved[changed].root == blocks[changed].root))
    && (changed > head ==> changed == head + 1 && exists s :: s in blocks && s > head && s >= floor)
  }

  function Least(a: nat, b: nat): nat {
    if a <= b then a else b
  }
}
