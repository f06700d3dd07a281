/** One poll of the live worker, and the loop of polls (src/live/mod.rs:52-92, 119-253). */
module LiveWorker {
  import opened Wrappers
  import opened Chain
  import opened Outcome
  import opened Tables
  import opened Store
  import opened Promotion
  import opened Ancestry
  import opened LiveScan
  import opened HeadScan
  import opened SlotScan
  import opened Reorg
  import opened ChainWalk
  import opened Consistency
  import opened RewardJobs
  import opened Reconcile
  import Safety
  import Upkeep

  // ---- What a poll promises about the evidence ----

  /**
   * The poll is answered on this branch: its chain is the head's, and what the node says of it is part of its answers.
   */
  ghost predicate Answered(poll: Poll, now: Branch) {
    && WellFormed(TreeOf(poll.served)) && now.chain == CanonicalOf(poll.served, poll.root) && now.tip == poll.head
    && WellFormedBranch(now) && PartOfAnswers(poll.inputs, now.inputs) && Honest(now.chain, poll.work)
  }

  /**
   * From the branch the evidence stood on to the one it stands on after the poll. A resolved poll moves to its head,
   * which extends the old branch or was found to replace it; an unresolved one stays, or grows unseen.
   */
  ghost predicate Advances(
    before: Branch, now: Branch, poll: Poll, outcome: PollOutcome, validators: map<Validator, ValidatorRow>)
  {
    if outcome.Unresolved? then now == before || (Extends(before, now) && WellFormedBranch(now))
    else
      && Answered(poll, now)
      && (|| Extends(before, now)
          || (outcome.RolledBack? && SharedBefore(before, now, outcome.changed)
                && DutiesActive(now.inputs, validators)))
  }

  lemma RegisteredStaysSane(spec: Spec, b: Branch, t: Tables, tracked: set<Validator>, epoch: Epoch)
    requires Sane(spec, b, t)
    ensures Sane(spec, b, TrackingRegistered(spec, t, tracked, epoch))
  {
  }

  lemma RecoveredStaysSane(
    b: Branch, t: Tables, cursor: Option<Slot>, tracked: set<Validator>, head: Slot, window: nat, known: bool)
    requires Sane(b.inputs.spec, b, t)
    ensures Sane(b.inputs.spec, b, Recovered(b.inputs.spec, t, cursor, tracked, head, window, known).0)
  {
    var spec := b.inputs.spec;
    RegisteredStaysSane(spec, b, t, tracked, EpochOf(spec, head));
    var oldest := OldestFrom(t.blocks, 0);
    if oldest.Some? {
      SaneIsLeft(spec, b, TrackingRegistered(spec, t, tracked, EpochOf(spec, head)), oldest.value);
    }
  }

  lemma RecoveredShape(
    spec: Spec, t: Tables, cursor: Option<Slot>, tracked: set<Validator>, head: Slot, window: nat, known: bool)
    ensures var (u, _) := Recovered(spec, t, cursor, tracked, head, window, known);
      FewerBlocks(t.blocks, u.blocks) && u.validators == t.validators
  {
  }

  lemma PrunedStaysSane(spec: Spec, b: Branch, t: Tables, retain: Epoch)
    requires Sane(spec, b, t)
    ensures Sane(spec, b, Pruned(spec, t, retain))
  {
  }

  /** A head scan only adds block jobs. */
  lemma ScanStaysSane(spec: Spec, b: Branch, a: Tables, t: Tables)
    requires Sane(spec, b, a) && LiveConsistent(b.inputs, b.chain, b.tip, t) && OnlyLiveFields(a, t)
    ensures Sane(spec, b, t)
  {
  }

  lemma FewerStayDistinct(a: map<Slot, BlockRow>, b: map<Slot, BlockRow>)
    requires DistinctRoots(a) && FewerBlocks(a, b)
    ensures DistinctRoots(b)
  {
  }

  lemma StillMatches(a: Tables, b: Tables, resolved: map<Slot, Block>, floor: Slot)
    requires BlocksFrom(a, b, resolved) && MatchesResolved(a.blocks, resolved, floor)
    ensures MatchesResolved(b.blocks, resolved, floor)
  {
  }

  /** A rollback to where the branches meet. */
  lemma RollbackAdvances(
    before: Branch, now: Branch, t: Tables, poll: Poll, changed: Slot, validators: map<Validator, ValidatorRow>)
    requires Sane(before.inputs.spec, before, t) && t.validators == validators
    requires Answered(poll, now)
    requires Extends(before, now) || (SharedBefore(before, now, changed) && DutiesActive(now.inputs, validators))
    ensures Sane(before.inputs.spec, now, LeftAfter(before.inputs.spec, t, changed))
  {
    if Extends(before, now) {
      SaneGrows(before.inputs.spec, before, now, t);
      SaneIsLeft(before.inputs.spec, now, t, changed);
    } else {
      SaneIsRestored(before.inputs.spec, before, now, t, changed);
    }
  }

  /** What is left lies before the first change, where everything stored matches. */
  lemma LeftMatches(
    spec: Spec, t: Tables, resolved: map<Slot, Block>, chain: Canonical, lo: Slot, floor: Slot, head: Slot,
    changed: Slot)
    requires FirstChanged(t.blocks, resolved, floor, head, changed) && ResolvedBlocks(resolved, chain, lo)
    ensures OnChain(chain, LeftAfter(spec, t, changed).blocks, floor)
    ensures FewerBlocks(t.blocks, LeftAfter(spec, t, changed).blocks)
    ensures Upkeep.SameLifetimes(t, LeftAfter(spec, t, changed))
  {
    ReplayStartsBefore(spec, changed);
  }

  /** The reward groups collected one after the other, then missing details repaired. */
  ghost predicate RanFrom(spec: Spec, walk: Walked, work: seq<RewardWork>, queued: Tables, s: Settlement) {
    && GroupsDone(spec, walk.chain, walk.lo, work, queued, s.paid)
    && OnlyAttestations(s.paid, s.ran) && Safety.AttestationsKeptIn(s.paid, s.ran)
    && RowsAndJobsOnly(queued, s.ran) && JobsProgress(queued.jobs, s.ran.jobs)
  }

  lemma NoneLeftPending(spec: Spec, queued: map<JobKey, Job>, ran: map<JobKey, Job>, minEpoch: Epoch)
    requires NonePendingBefore(spec, queued, minEpoch) && JobsProgress(queued, ran)
    ensures NonePendingBefore(spec, ran, minEpoch)
  {
  }

  /** Promotion and pruning add no job, reopen none, and leave no owed pair without a gap. */
  lemma SettledState(spec: Spec, ran: Tables, p: Option<Params>, retain: Epoch, minEpoch: Epoch)
    requires NonePendingBefore(spec, ran.jobs, minEpoch) && (p.Some? ==> p.value.validators == ran.started.Keys)
    ensures var after := Pruned(spec, PromotedIf(spec, ran, p), retain);
      && FewerBlocks(ran.blocks, after.blocks)
      && NonePendingBefore(spec, after.jobs, minEpoch)
      && Upkeep.SameLifetimes(ran, after)
      && (p.Some? ==> Safety.Balanced(after, p.value.target))
  {
    if p.Some? {
      PromotionLeavesJobs(spec, ran, p.value);
      Safety.PromotionAccounts(spec, ran, p.value);
      Upkeep.PromotionDresses(spec, ran, p.value);
    }
  }

  class Worker {
    const db: Database
    const config: Config
    var cursor: Option<Slot>

    constructor (db: Database, config: Config, cursor: Option<Slot>)
      ensures this.db == db && this.config == config && this.cursor == cursor
    {
      this.db, this.config, this.cursor := db, config, cursor;
    }

    /** Start tracking, and after an outage longer than the retry window start over from recent slots. */
    method Recover(tracked: set<Validator>, head: Slot, oldTipKnown: bool)
      modifies this, db
      ensures (db.View(), cursor)
           == Recovered(db.spec, old(db.View()), old(cursor), tracked, head, config.window, oldTipKnown)
    {
      db.RegisterTrackingStart(tracked, EpochOf(db.spec, head));
      if cursor.Some? && cursor.value < Floor(db.spec, head, config.window) {
        var listed := RecentBlocks(db.blocks, 0);
        FirstIsOldest(listed, db.blocks, 0);
        if listed != [] && !oldTipKnown {
          var _ := Rollback(db, listed[0].slot);
        }
        cursor := None;
      }
    }

    /** Is a stored block no longer on the chain, or past the head? */
    method Detect(head: Slot, resolved: map<Slot, Block>) returns (changed: Option<Slot>)
      ensures changed.None? <==> NothingChanged(db.blocks, resolved, Floor(db.spec, head, config.window), head)
      ensures changed.Some? ==>
        FirstChanged(db.blocks, resolved, Floor(db.spec, head, config.window), head, changed.value)
    {
      var floor := Floor(db.spec, head, config.window);
      var listed := RecentBlocks(db.blocks, floor);
      changed := FindChanged(listed, head, resolved);
      forall s | s in db.blocks && floor <= s <= head && (changed.Some? ==> s < changed.value)
        ensures s in resolved && resolved[s].root == db.blocks[s].root
      {
        assert StoredBlock(s, db.blocks[s].root, db.blocks[s].parent) in listed;
      }
      if changed.None? {
        if listed != [] && listed[|listed| - 1].slot > head {
          assert listed[|listed| - 1] in listed;
          return Some(head + 1);
        }
        forall s | s in db.blocks && s >= floor ensures s <= head {
          assert StoredBlock(s, db.blocks[s].root, db.blocks[s].parent) in listed;
        }
      }
    }

    /** Roll back when a stored block left the chain, or lies past the head. */
    method Compare(head: Slot, resolved: map<Slot, Block>) returns (changed: Option<Slot>)
      modifies this, db
      ensures changed.None? <==> NothingChanged(old(db.blocks), resolved, Floor(db.spec, head, config.window), head)
      ensures changed.None? ==> cursor == old(cursor) && db.View() == old(db.View())
      ensures changed.Some? ==>
        && FirstChanged(old(db.blocks), resolved, Floor(db.spec, head, config.window), head, changed.value)
        && db.View() == LeftAfter(db.spec, old(db.View()), changed.value)
        && cursor == CursorAfter(db.spec, changed.value)
    {
      changed := Detect(head, resolved);
      if changed.Some? {
        cursor := Rollback(db, changed.value);
      }
    }

    /** The head's chain, from before everything this poll compares or collects. */
    method Resolve(poll: Poll)
      returns (r: Result<map<Slot, Block>>, walkStart: Slot, ghost chain: Canonical, ghost lo: Slot)
      requires Keyed(poll.served)
      ensures walkStart == WalkStart(db.spec, config, poll.head, db.blocks, cursor)
      ensures WellFormed(TreeOf(poll.served)) ==>
        (r.Ok? <==> Resolvable(poll.served, poll.head, poll.root,
          Least(walkStart, SaturatingSub(poll.head, config.lag))))
      ensures r.Ok? ==>
        && ResolvedBlocks(r.value, chain, lo) && lo <= walkStart
        && walkStart <= CollectionStart(db.spec, poll.head, cursor, config.window)
      ensures r.Ok? && WellFormed(TreeOf(poll.served)) ==> chain == CanonicalOf(poll.served, poll.root)
    {
      var target := SaturatingSub(poll.head, config.lag);
      var listed := RecentBlocks(db.blocks, Floor(db.spec, poll.head, config.window));
      FirstIsOldest(listed, db.blocks, Floor(db.spec, poll.head, config.window));
      var start := CollectionStart(db.spec, poll.head, cursor, config.window);
      var from := if listed != [] then Least(start, listed[0].slot) else start;
      walkStart := ReorgReplayStart(db.spec, from);
      ReplayStartsBefore(db.spec, from);
      r, lo := ResolveChain(poll.served, poll.head, poll.root, Least(walkStart, target));
      chain := map[];
      if r.Ok? {
        chain := if WellFormed(TreeOf(poll.served)) then CanonicalOf(poll.served, poll.root) else r.value;
      }
    }

    /** The slots a head scan from this cursor selects. */
    ghost function Wanted(t: Tables, tracked: set<Validator>, poll: Poll, from: Option<Slot>, lo: Slot): seq<Slot> {
      SelectedSlots(db.spec, t, tracked, from, Max(lo, Floor(db.spec, poll.head, config.window)),
        SaturatingSub(poll.head, config.lag))
    }

    /** A head scan from a cursor, down to the recovery floor. */
    method ScanRecent(
      poll: Poll, tracked: set<Validator>, from: Option<Slot>, resolved: map<Slot, Block>, ghost b: Branch,
      ghost consistent: bool)
      returns (scan: Result<()>, last: Option<Slot>, ghost covered: seq<Slot>)
      requires poll.inputs.spec == db.spec && ResolvedBlocks(resolved, b.chain, b.lo) && NextSlot(from) >= b.lo
      requires DistinctRoots(db.blocks)
      requires MatchesResolved(db.blocks, resolved, Floor(db.spec, poll.head, config.window))
      requires consistent ==> poll.head <= b.tip && PartOfAnswers(poll.inputs, b.inputs) && Sane(db.spec, b, db.View())
      modifies db
      ensures consistent ==> Sane(db.spec, b, db.View())
      ensures OnlyLiveFields(old(db.View()), db.View())
      ensures DistinctRoots(db.blocks) && MatchesResolved(db.blocks, resolved, Floor(db.spec, poll.head, config.window))
      ensures from.Some? ==> last.Some? && last.value >= from.value
      ensures last == Furthest(from, covered)
      ensures HeadScanned(
        poll.inputs, poll.node, tracked, old(db.View()), db.View(), Wanted(old(db.View()), tracked, poll, from, b.lo),
        covered, resolved, poll.aggregates, b.lo, scan.Ok?)
      ensures scan.Ok? ==>
        Scanned(db.spec, old(db.View()), tracked, from, Max(b.lo, Floor(db.spec, poll.head, config.window)),
          SaturatingSub(poll.head, config.lag))
        == (old(db.View()).(coverage := db.coverage), last)
    {
      ghost var t := db.View();
      var result, furthest, done := ProcessHeadScan(
        db, poll.inputs, poll.node, tracked, from, resolved, poll.aggregates,
        Floor(db.spec, poll.head, config.window), SaturatingSub(poll.head, config.lag), b, consistent);
      FurthestFacts(from, done);
      StillMatches(t, db.View(), resolved, Floor(db.spec, poll.head, config.window));
      if consistent {
        ScanStaysSane(db.spec, b, t, db.View());
      }
      return result, furthest, done;
    }

    /** Collection covered and recorded exactly the slots it could, from where the cursor says. */
    ghost predicate CollectedBy(
      poll: Poll, tracked: set<Validator>, walk: Walked, t: Tables, from: Option<Slot>, done: Collection)
    {
      var start := StartCursor(db.spec, poll.head, from, config.window);
      && done.cursor == Furthest(start, done.covered)
      && HeadScanned(
           poll.inputs, poll.node, tracked, t, done.after, Wanted(t, tracked, poll, start, walk.lo), done.covered,
           walk.resolved, poll.aggregates, walk.lo, done.ok)
      && OnlyLiveFields(t, done.after)
    }

    /** Collection of recent slots; the cursor starts where collection does if it fell behind. */
    method Collect(
      poll: Poll, tracked: set<Validator>, resolved: map<Slot, Block>, ghost b: Branch, ghost consistent: bool)
      returns (scan: Result<()>, ghost done: Collection)
      requires poll.inputs.spec == db.spec && ResolvedBlocks(resolved, b.chain, b.lo) && DistinctRoots(db.blocks)
      requires b.lo <= CollectionStart(db.spec, poll.head, cursor, config.window)
      requires MatchesResolved(db.blocks, resolved, Floor(db.spec, poll.head, config.window))
      requires consistent ==> poll.head <= b.tip && PartOfAnswers(poll.inputs, b.inputs) && Sane(db.spec, b, db.View())
      modifies this, db
      ensures consistent ==> Sane(db.spec, b, db.View())
      ensures DistinctRoots(db.blocks) && MatchesResolved(db.blocks, resolved, Floor(db.spec, poll.head, config.window))
      ensures OnlyLiveFields(old(db.View()), db.View())
      ensures old(cursor).Some? ==> cursor.Some? && cursor.value >= old(cursor).value
      ensures done.after == db.View() && done.cursor == cursor && done.ok == scan.Ok?
      ensures CollectedBy(poll, tracked, Walked(resolved, b.chain, b.lo), old(db.View()), old(cursor), done)
      ensures scan.Ok? ==>
        Scanned(db.spec, old(db.View()), tracked, StartCursor(db.spec, poll.head, old(cursor), config.window),
                Max(b.lo, Floor(db.spec, poll.head, config.window)), SaturatingSub(poll.head, config.lag))
        == (old(db.View()).(coverage := db.coverage), cursor)
    {
      var start := CollectionStart(db.spec, poll.head, cursor, config.window);
      StartCursorFacts(db.spec, poll.head, cursor, config.window);
      var from := cursor;
      if cursor.None? || cursor.value + 1 < start {
        from := if start >= 1 then Some(start - 1) else None;
      }
      assert from == StartCursor(db.spec, poll.head, cursor, config.window);
      var result, last, covered := ScanRecent(poll, tracked, from, resolved, b, consistent);
      ghost var after := db.View();
      scan, cursor, done := result, last, Collection(covered, after, last, result.Ok?);
      assert db.View() == after;
    }

    /** Rewards and finality. `s.ran` is the state the promotion ran on, if one did. */
    method Finish(
      poll: Poll, tracked: set<Validator>, resolved: map<Slot, Block>, ghost b: Branch, ghost consistent: bool)
      returns (r: Result<()>, ghost s: Settlement)
      requires poll.inputs.spec == db.spec && ResolvedBlocks(resolved, b.chain, b.lo) && DistinctRoots(db.blocks)
      requires consistent ==> poll.head == b.tip && PartOfAnswers(poll.inputs, b.inputs) && Honest(b.chain, poll.work)
      requires consistent ==> Sane(db.spec, b, db.View())
      modifies db
      ensures consistent ==> Sane(db.spec, b, db.View())
      ensures RanFrom(db.spec, Walked(resolved, b.chain, b.lo), poll.work,
        Queued(db.spec, old(db.View()), tracked, poll.head, config), s)
      ensures r.Ok? <==> Finalizes(poll)
      ensures Promotes(poll, old(db.View()), s)
      ensures db.View() == PromotedIf(db.spec, s.ran, s.p)
    {
      ghost var t := db.View();
      QueueRewards(db, tracked, poll.head, config);
      if consistent {
        QueuedStaysSane(b, t, tracked, config);
      }
      CollectJobs(db, poll.work, BlockRoots(resolved), b, consistent);
      ghost var paid := db.View();
      if poll.finalized.Err? {
        return Err(poll.finalized.error), Settlement(paid, paid, None);
      }
      ghost var ran, p;
      r, ran, p := FinalizeCollectedEvidence(db, poll.inputs, poll.finalized.value, resolved, b, consistent);
      s := Settlement(paid, ran, p);
    }

    /** Finality was answered, and its checkpoint is verified unless too early to promote. */
    ghost predicate Finalizes(poll: Poll) {
      poll.finalized.Ok? && (poll.finalized.value.epoch < 2 || poll.finalized.value.verified == Ok(true))
    }

    /**
     * Due rewards queued and old jobs expired, the reward groups collected, details repaired, then the promotion if
     * there is one, and pruning unless finality failed.
     */
    ghost predicate SettledBy(
      poll: Poll, tracked: set<Validator>, walk: Walked, t: Tables, s: Settlement, after: Tables)
    {
      && DistinctRoots(t.blocks)
      && RanFrom(db.spec, walk, poll.work, Queued(db.spec, t, tracked, poll.head, config), s)
      && Promotes(poll, t, s)
      && after == (if !Finalizes(poll) then PromotedIf(db.spec, s.ran, s.p)
                   else Pruned(db.spec, PromotedIf(db.spec, s.ran, s.p),
                          Least(MinEpoch(db.spec, poll.head, config), SaturatingSub(poll.finalized.value.epoch, 2))))
    }

    /** A promotion runs exactly on a connected checkpoint, and is bound to it. */
    ghost predicate Promotes(poll: Poll, before: Tables, s: Settlement)
      requires DistinctRoots(before.blocks)
    {
      && (s.p.Some? <==> poll.finalized.Ok? && Connected(poll.finalized.value, before.blocks))
      && (s.p.Some? ==> BoundTo(s.ran, s.p.value, poll.finalized.value))
    }

    /**
     * Rewards, expiry, finality and pruning: no block is stored here. Afterwards no reward job from before the
     * retry window is still pending, and, when the checkpoint connects to what is stored, every tracked active
     * pair through its target is complete or a gap.
     */
    method Settle(
      poll: Poll, tracked: set<Validator>, resolved: map<Slot, Block>, ghost b: Branch, ghost consistent: bool)
      returns (r: Result<()>, ghost s: Settlement)
      requires poll.inputs.spec == db.spec && ResolvedBlocks(resolved, b.chain, b.lo) && DistinctRoots(db.blocks)
      requires consistent ==> poll.head == b.tip && PartOfAnswers(poll.inputs, b.inputs) && Honest(b.chain, poll.work)
      requires consistent ==> Sane(db.spec, b, db.View())
      modifies db
      ensures consistent ==> Sane(db.spec, b, db.View())
      ensures r.Ok? <==> Finalizes(poll)
      ensures SettledBy(poll, tracked, Walked(resolved, b.chain, b.lo), old(db.View()), s, db.View())
      ensures r.Ok? ==> NonePendingBefore(db.spec, db.jobs, MinEpoch(db.spec, poll.head, config))
      ensures r.Ok? && s.p.Some? ==> Safety.Balanced(db.View(), poll.finalized.value.epoch - 2)
      ensures FewerBlocks(old(db.blocks), db.blocks) && Upkeep.SameLifetimes(old(db.View()), db.View())
    {
      ghost var queued := Queued(db.spec, db.View(), tracked, poll.head, config);
      QueuedShape(db.spec, db.View(), tracked, poll.head, config);
      r, s := Finish(poll, tracked, resolved, b, consistent);
      var minEpoch := MinEpoch(db.spec, poll.head, config);
      NoneLeftPending(db.spec, queued.jobs, s.ran.jobs, minEpoch);
      if r.Err? {
        SettledState(db.spec, s.ran, s.p, 0, minEpoch);
        return;
      }
      var retain := Least(minEpoch, SaturatingSub(poll.finalized.value.epoch, 2));
      SettledState(db.spec, s.ran, s.p, retain, minEpoch);
      if consistent {
        PrunedStaysSane(db.spec, b, db.View(), retain);
      }
      db.PruneCompletedEvidence(retain);
    }

    /** The state a poll starts comparing from. */
    ghost function Begun(t: Tables, from: Option<Slot>, tracked: set<Validator>, poll: Poll): (Tables, Option<Slot>) {
      Recovered(db.spec, t, from, tracked, poll.head, config.window, poll.oldTipKnown)
    }

    /** Where the ancestry of this poll's head is needed from. */
    ghost function Needed(t: Tables, from: Option<Slot>, tracked: set<Validator>, poll: Poll): Slot {
      var (u, cursor) := Begun(t, from, tracked, poll);
      Least(WalkStart(db.spec, config, poll.head, u.blocks, cursor), SaturatingSub(poll.head, config.lag))
    }

    /** The evidence stands on this branch. */
    ghost predicate StandsOn(b: Branch, t: Tables) {
      b.inputs.spec == db.spec && Sane(db.spec, b, t)
    }

    /** If it stood on one branch, and the poll moves from there to the other, it stands on that one now. */
    ghost predicate Carries(
      before: Branch, t: Tables, poll: Poll, outcome: PollOutcome, now: Branch, after: Tables)
    {
      StandsOn(before, t) && Advances(before, now, poll, outcome, t.validators) ==> StandsOn(now, after)
    }

    /** Everything a poll does once the chain is known to hold what is stored. */
    method Proceed(
      poll: Poll, tracked: set<Validator>, resolved: map<Slot, Block>, walkStart: Slot, ghost b: Branch,
      ghost consistent: bool)
      returns (r: Result<()>, ghost outcome: PollOutcome)
      requires poll.inputs.spec == db.spec && ResolvedBlocks(resolved, b.chain, b.lo) && DistinctRoots(db.blocks)
      requires b.lo <= CollectionStart(db.spec, poll.head, cursor, config.window)
      requires MatchesResolved(db.blocks, resolved, Floor(db.spec, poll.head, config.window))
      requires consistent ==> poll.head == b.tip && PartOfAnswers(poll.inputs, b.inputs) && Honest(b.chain, poll.work)
      requires consistent ==> StandsOn(b, db.View())
      modifies this, db
      ensures consistent ==> StandsOn(b, db.View())
      ensures DistinctRoots(db.blocks) && MatchesResolved(db.blocks, resolved, Floor(db.spec, poll.head, config.window))
      ensures Upkeep.SameLifetimes(old(db.View()), db.View())
      ensures outcome.Switched? || outcome.Collected?
      ensures outcome.Switched? ==> outcome.replayed == walkStart
      ensures Ends(
        poll, tracked, Walked(resolved, b.chain, b.lo), old(db.View()), old(cursor), outcome, db.View(), cursor, r.Ok?)
    {
      var scan, done := Collect(poll, tracked, resolved, b, consistent);
      r, outcome := Conclude(poll, tracked, resolved, walkStart, scan, done, b, consistent);
    }

    /** A resolved poll: a rollback if a stored block left the chain, else collection and what follows it. */
    ghost predicate Ends(
      poll: Poll, tracked: set<Validator>, walk: Walked, t: Tables, from: Option<Slot>, outcome: PollOutcome,
      after: Tables, to: Option<Slot>, ok: bool)
    {
      match outcome
      case Unresolved => false
      case RolledBack(changed, w) =>
        && w == walk && ok && after == LeftAfter(db.spec, t, changed) && to == CursorAfter(db.spec, changed)
      case _ =>
        && outcome.walk == walk && CollectedBy(poll, tracked, walk, t, from, outcome.scan)
        && Concludes(poll, tracked, outcome, after, to, ok)
    }

    /** After collection: a rollback if the branch switched meanwhile, else settling; nothing if that is not known. */
    ghost predicate Concludes(
      poll: Poll, tracked: set<Validator>, outcome: PollOutcome, after: Tables, to: Option<Slot>, ok: bool)
    {
      match outcome
      case Unresolved => false
      case RolledBack(_, _) => false
      case Switched(replayed, _, scan) =>
        && poll.stillCanonical == Ok(false) && ok
        && after == LeftAfter(db.spec, scan.after, replayed) && to == CursorAfter(db.spec, replayed)
      case Collected(walk, scan, settled) =>
        && to == scan.cursor && poll.stillCanonical != Ok(false)
        && (settled.Some? <==> poll.stillCanonical == Ok(true))
        && (ok <==> settled.Some? && Finalizes(poll) && scan.ok)
        && (if settled.None? then after == scan.after
            else SettledBy(poll, tracked, walk, scan.after, settled.value, after))
    }

    /** What follows collection. */
    method Conclude(
      poll: Poll, tracked: set<Validator>, resolved: map<Slot, Block>, walkStart: Slot, scan: Result<()>,
      ghost done: Collection, ghost b: Branch, ghost consistent: bool)
      returns (r: Result<()>, ghost outcome: PollOutcome)
      requires poll.inputs.spec == db.spec && ResolvedBlocks(resolved, b.chain, b.lo) && DistinctRoots(db.blocks)
      requires MatchesResolved(db.blocks, resolved, Floor(db.spec, poll.head, config.window))
      requires consistent ==> poll.head == b.tip && PartOfAnswers(poll.inputs, b.inputs) && Honest(b.chain, poll.work)
      requires consistent ==> StandsOn(b, db.View())
      requires done.after == db.View() && done.cursor == cursor && done.ok == scan.Ok?
      modifies this, db
      ensures consistent ==> StandsOn(b, db.View())
      ensures DistinctRoots(db.blocks) && MatchesResolved(db.blocks, resolved, Floor(db.spec, poll.head, config.window))
      ensures Upkeep.SameLifetimes(old(db.View()), db.View())
      ensures (outcome.Switched? && outcome.replayed == walkStart) || outcome.Collected?
      ensures outcome.walk == Walked(resolved, b.chain, b.lo) && outcome.scan == done
      ensures Concludes(poll, tracked, outcome, db.View(), cursor, r.Ok?)
    {
      ghost var walk := Walked(resolved, b.chain, b.lo);
      if poll.stillCanonical.Err? {
        return Err(poll.stillCanonical.error), Collected(walk, done, None);
      }
      if !poll.stillCanonical.value {
        SwitchBack(walkStart, resolved, Floor(db.spec, poll.head, config.window), b, consistent);
        return Ok(()), Switched(walkStart, walk, done);
      }
      ghost var collected := db.blocks;
      var settled, s := Settle(poll, tracked, resolved, b, consistent);
      FewerStayDistinct(collected, db.blocks);
      return if settled.Err? then settled else scan, Collected(walk, done, Some(s));
    }

    /** The branch switched during collection: everything this attempt may have written goes. */
    method SwitchBack(
      walkStart: Slot, ghost resolved: map<Slot, Block>, ghost floor: Slot, ghost b: Branch, ghost consistent: bool)
      requires DistinctRoots(db.blocks) && MatchesResolved(db.blocks, resolved, floor)
      requires consistent ==> StandsOn(b, db.View())
      modifies this, db
      ensures consistent ==> StandsOn(b, db.View())
      ensures db.View() == LeftAfter(db.spec, old(db.View()), walkStart) && cursor == CursorAfter(db.spec, walkStart)
      ensures DistinctRoots(db.blocks) && MatchesResolved(db.blocks, resolved, floor)
    {
      if consistent {
        SaneIsLeft(db.spec, b, db.View(), walkStart);
      }
      cursor := Rollback(db, walkStart);
    }

    lemma RolledBackState(
      before: Branch, now: Branch, t: Tables, poll: Poll, walk: Walked, changed: Slot)
      requires FirstChanged(t.blocks, walk.resolved, Floor(db.spec, poll.head, config.window), poll.head, changed)
      requires ResolvedBlocks(walk.resolved, walk.chain, walk.lo) && DistinctRoots(t.blocks)
      ensures var left := LeftAfter(db.spec, t, changed);
        && Carries(before, t, poll, RolledBack(changed, walk), now, left)
        && DistinctRoots(left.blocks) && Upkeep.SameLifetimes(t, left)
        && OnChain(walk.chain, left.blocks, Floor(db.spec, poll.head, config.window))
    {
      LeftMatches(db.spec, t, walk.resolved, walk.chain, walk.lo, Floor(db.spec, poll.head, config.window), poll.head,
        changed);
      FewerStayDistinct(t.blocks, LeftAfter(db.spec, t, changed).blocks);
      if StandsOn(before, t) && Advances(before, now, poll, RolledBack(changed, walk), t.validators) {
        RollbackAdvances(before, now, t, poll, changed, t.validators);
      }
    }

    /** The evidence stood on a branch that the poll's head extends. */
    ghost predicate Steady(before: Branch, t: Tables, poll: Poll, now: Branch) {
      StandsOn(before, t) && Answered(poll, now) && Extends(before, now)
    }

    lemma CollectedCarries(before: Branch, t: Tables, poll: Poll, outcome: PollOutcome, now: Branch, after: Tables)
      requires outcome.Collected? || outcome.Switched?
      requires Steady(before, t, poll, now) ==> StandsOn(now, after)
      ensures Carries(before, t, poll, outcome, now, after)
    {
    }

    lemma SteadyStands(before: Branch, t: Tables, poll: Poll, now: Branch, lo: Slot)
      requires Steady(before, t, poll, now)
      ensures StandsOn(now.(lo := lo), t) && poll.head == now.tip
      ensures PartOfAnswers(poll.inputs, now.inputs) && Honest(now.chain, poll.work)
      ensures WellFormed(TreeOf(poll.served)) && now.chain == CanonicalOf(poll.served, poll.root)
    {
      SaneGrows(db.spec, before, now, t);
    }

    lemma StandsWhateverLo(b: Branch, lo: Slot, t: Tables)
      requires StandsOn(b.(lo := lo), t)
      ensures StandsOn(b, t)
    {
    }

    /** From the comparison on. */
    method Resume(
      poll: Poll, tracked: set<Validator>, resolved: map<Slot, Block>, walkStart: Slot,
      ghost chain: Canonical, ghost lo: Slot, ghost before: Branch, ghost now: Branch)
      returns (r: Result<()>, ghost outcome: PollOutcome)
      requires poll.inputs.spec == db.spec && ResolvedBlocks(resolved, chain, lo) && DistinctRoots(db.blocks)
      requires lo <= CollectionStart(db.spec, poll.head, cursor, config.window)
      requires WellFormed(TreeOf(poll.served)) ==> chain == CanonicalOf(poll.served, poll.root)
      modifies this, db
      ensures Carries(before, old(db.View()), poll, outcome, now, db.View())
      ensures DistinctRoots(db.blocks) && Upkeep.SameLifetimes(old(db.View()), db.View())
      ensures OnChain(chain, db.blocks, Floor(db.spec, poll.head, config.window)) && !outcome.Unresolved?
      ensures Decides(poll, Walked(resolved, chain, lo), old(db.blocks), outcome)
      ensures outcome.Switched? ==> outcome.replayed == walkStart
      ensures Ends(
        poll, tracked, Walked(resolved, chain, lo), old(db.View()), old(cursor), outcome, db.View(), cursor, r.Ok?)
    {
      ghost var t := db.View();
      ghost var steady := Steady(before, t, poll, now);
      if steady {
        SteadyStands(before, t, poll, now, lo);
      }
      ghost var (b, walk) := (now.(chain := chain, lo := lo), Walked(resolved, chain, lo));
      var changed := Compare(poll.head, resolved);
      if changed.Some? {
        RolledBackState(before, now, t, poll, walk, changed.value);
        return Ok(()), RolledBack(changed.value, walk);
      }
      r, outcome := Proceed(poll, tracked, resolved, walkStart, b, steady);
      if steady {
        StandsWhateverLo(now, lo, db.View());
      }
      CollectedCarries(before, t, poll, outcome, now, db.View());
      MatchedIsOnChain(db.blocks, resolved, chain, lo, Floor(db.spec, poll.head, config.window));
    }

    /** The resolved part of the head's chain. */
    ghost predicate WalkOf(poll: Poll, walk: Walked) {
      && ResolvedBlocks(walk.resolved, walk.chain, walk.lo)
      && (WellFormed(TreeOf(poll.served)) ==> walk.chain == CanonicalOf(poll.served, poll.root))
    }

    /** The comparison rolls back exactly when something stored is not on the chain, and to the first of it. */
    ghost predicate Decides(poll: Poll, walk: Walked, blocks: map<Slot, BlockRow>, outcome: PollOutcome) {
      var floor := Floor(db.spec, poll.head, config.window);
      if outcome.RolledBack? then FirstChanged(blocks, walk.resolved, floor, poll.head, outcome.changed)
      else NothingChanged(blocks, walk.resolved, floor, poll.head)
    }

    /** What the poll did, step by step, from one state of tables and cursor to the next. */
    ghost predicate Polled(
      tracked: set<Validator>, poll: Poll, t: Tables, from: Option<Slot>, outcome: PollOutcome, after: Tables,
      to: Option<Slot>, ok: bool)
    {
      var (u, c) := Begun(t, from, tracked, poll);
      if outcome.Unresolved? then after == u && to == c && !ok
      else
        && WalkOf(poll, outcome.walk) && Decides(poll, outcome.walk, u.blocks, outcome)
        && Ends(poll, tracked, outcome.walk, u, c, outcome, after, to, ok)
        && (outcome.Switched? ==> outcome.replayed == WalkStart(db.spec, config, poll.head, u.blocks, c))
    }

    /**
     * Whatever reorgs happened between polls: the poll is resolved exactly when the head's ancestry can be walked, and
     * then every stored block from the recovery floor on is an ancestor of that head or the head itself. Evidence
     * that stood on one branch stands on the head's afterwards, if that extends it or if the poll found where it
     * replaces it.
     */
    method Reconcile(tracked: set<Validator>, poll: Poll, ghost before: Branch, ghost now: Branch)
      returns (r: Result<()>, ghost outcome: PollOutcome)
      requires DistinctRoots(db.blocks) && Keyed(poll.served) && poll.inputs.spec == db.spec
      modifies this, db
      ensures Carries(before, old(db.View()), poll, outcome, now, db.View())
      ensures DistinctRoots(db.blocks) && Upkeep.SameLifetimes(old(db.View()), db.View())
      ensures WellFormed(TreeOf(poll.served)) ==>
        (outcome.Unresolved? <==> !Resolvable(poll.served, poll.head, poll.root,
          Needed(old(db.View()), old(cursor), tracked, poll)))
      ensures !outcome.Unresolved? && WellFormed(TreeOf(poll.served)) ==>
        OnChain(CanonicalOf(poll.served, poll.root), db.blocks, Floor(db.spec, poll.head, config.window))
      ensures Polled(tracked, poll, old(db.View()), old(cursor), outcome, db.View(), cursor, r.Ok?)
    {
      ghost var t := db.View();
      Begin(tracked, poll, before);
      var walked, walkStart, chain, lo := Resolve(poll);
      if walked.Err? {
        if StandsOn(before, t) && Extends(before, now) && WellFormedBranch(now) {
          SaneGrows(db.spec, before, now, db.View());
        }
        return Err(walked.error), Unresolved;
      }
      r, outcome := Resume(poll, tracked, walked.value, walkStart, chain, lo, before, now);
    }

    /** Before the comparison: tracking starts, and an old branch out of reach goes. */
    method Begin(tracked: set<Validator>, poll: Poll, ghost before: Branch)
      requires DistinctRoots(db.blocks)
      modifies this, db
      ensures (db.View(), cursor) == Begun(old(db.View()), old(cursor), tracked, poll)
      ensures StandsOn(before, old(db.View())) ==> StandsOn(before, db.View())
      ensures DistinctRoots(db.blocks) && db.validators == old(db.validators)
    {
      ghost var t := db.View();
      Recover(tracked, poll.head, poll.oldTipKnown);
      RecoveredShape(db.spec, t, old(cursor), tracked, poll.head, config.window, poll.oldTipKnown);
      FewerStayDistinct(t.blocks, db.blocks);
      if StandsOn(before, t) {
        RecoveredStaysSane(before, t, old(cursor), tracked, poll.head, config.window, poll.oldTipKnown);
      }
    }

    /** A rollback leaves nothing provisional that depends on the first changed slot, or the replayed one, or later. */
    lemma PolledDepends(
      tracked: set<Validator>, poll: Poll, t: Tables, from: Option<Slot>, outcome: PollOutcome, after: Tables,
      to: Option<Slot>, ok: bool)
      requires Polled(tracked, poll, t, from, outcome, after, to, ok)
      ensures outcome.RolledBack? ==> DependsOnlyBefore(db.spec, after, outcome.changed)
      ensures outcome.Switched? ==> DependsOnlyBefore(db.spec, after, outcome.replayed)
    {
      var (u, c) := Begun(t, from, tracked, poll);
      match outcome
      case RolledBack(changed, _) =>
        SurvivorsDependOnlyBefore(db.spec, u, changed);
      case Switched(replayed, _, scan) =>
        SurvivorsDependOnlyBefore(db.spec, scan.after, replayed);
      case _ =>
    }

    /**
     * The loop over wake-ups: a failing poll is retried at the next. However the head grows or switches branches,
     * the evidence gathered poll by poll stands on the last branch, and every duty row whose window is covered by
     * then is the reference outcome on it.
     */
    method RunLiveTracking(tracked: set<Validator>, polls: seq<Poll>, ghost start: Branch, ghost branches: seq<Branch>)
      returns (ghost outcomes: seq<PollOutcome>, ghost trace: seq<(Tables, Option<Slot>)>)
      requires DistinctRoots(db.blocks) && |branches| == |polls|
      requires forall poll <- polls :: Keyed(poll.served) && poll.inputs.spec == db.spec
      modifies this, db
      ensures DistinctRoots(db.blocks) && |outcomes| == |polls|
      ensures IsRun(tracked, polls, outcomes, trace)
      ensures trace[0] == (old(db.View()), old(cursor)) && trace[|polls|] == (db.View(), cursor)
      ensures StandsOn(start, old(db.View())) && Follows(start, branches, polls, outcomes, old(db.validators)) ==>
        && StandsOn(Latest(start, branches, |polls|), db.View())
        && CoveredRowsAreExpected(Latest(start, branches, |polls|), db.View())
    {
      outcomes, trace := [], [(db.View(), cursor)];
      ghost var (t, from) := (db.View(), cursor);
      for i := 0 to |polls|
        invariant DistinctRoots(db.blocks)
        invariant TrackedSoFar(tracked, polls, start, branches, t, from, i, outcomes, trace, db.View(), cursor)
      {
        assert polls[i] in polls;
        ghost var now := db.View();
        var ignored, outcome := Reconcile(tracked, polls[i], Latest(start, branches, i), branches[i]);
        TrackedOn(tracked, polls, start, branches, t, from, i, outcomes, trace, now, outcome, db.View(), cursor,
          ignored.Ok?);
        outcomes, trace := outcomes + [outcome], trace + [(db.View(), cursor)];
      }
      assert polls[..|polls|] == polls;
      if StandsOn(Latest(start, branches, |polls|), db.View()) {
        ConsistentRowsAreExpected(Latest(start, branches, |polls|), db.View());
      }
    }

    /** The first `n` polls have been run, from the tables and cursor at the start to those now. */
    ghost predicate TrackedSoFar(
      tracked: set<Validator>, polls: seq<Poll>, start: Branch, branches: seq<Branch>, t: Tables, from: Option<Slot>,
      n: nat, outcomes: seq<PollOutcome>, trace: seq<(Tables, Option<Slot>)>, now: Tables, to: Option<Slot>)
      requires |branches| == |polls| && n <= |polls|
    {
      && |outcomes| == n && IsRun(tracked, polls[..n], outcomes, trace)
      && trace[0] == (t, from) && trace[n] == (now, to)
      && Upkeep.SameLifetimes(t, now) && Carried(start, t, branches, polls, n, outcomes, now)
    }

    lemma TrackedOn(
      tracked: set<Validator>, polls: seq<Poll>, start: Branch, branches: seq<Branch>, t: Tables, from: Option<Slot>,
      n: nat, outcomes: seq<PollOutcome>, trace: seq<(Tables, Option<Slot>)>, now: Tables, outcome: PollOutcome,
      after: Tables, to: Option<Slot>, ok: bool)
      requires |branches| == |polls| && n < |polls| && |outcomes| == n && |trace| == n + 1
      requires TrackedSoFar(tracked, polls, start, branches, t, from, n, outcomes, trace, now, trace[n].1)
      requires Polled(tracked, polls[n], now, trace[n].1, outcome, after, to, ok)
      requires Carries(Latest(start, branches, n), now, polls[n], outcome, branches[n], after)
      requires Upkeep.SameLifetimes(now, after)
      ensures TrackedSoFar(
        tracked, polls, start, branches, t, from, n + 1, outcomes + [outcome], trace + [(after, to)], after, to)
    {
      RunGrows(tracked, polls, outcomes, trace, n, outcome, after, to, ok);
      CarriedOn(start, t, branches, polls, n, outcomes, now, outcome, after);
      LifetimesStay(t, now, after);
    }

    /** Each poll takes the tables and the cursor from one state of the trace to the next. */
    ghost predicate IsRun(
      tracked: set<Validator>, polls: seq<Poll>, outcomes: seq<PollOutcome>, trace: seq<(Tables, Option<Slot>)>)
    {
      && |outcomes| == |polls| && |trace| == |polls| + 1
      && forall i :: 0 <= i < |polls| ==> Stepped(tracked, polls[i], trace[i], outcomes[i], trace[i + 1])
    }

    ghost predicate Stepped(
      tracked: set<Validator>, poll: Poll, a: (Tables, Option<Slot>), outcome: PollOutcome, b: (Tables, Option<Slot>))
    {
      exists ok :: Polled(tracked, poll, a.0, a.1, outcome, b.0, b.1, ok)
    }

    lemma RunGrows(
      tracked: set<Validator>, polls: seq<Poll>, outcomes: seq<PollOutcome>, trace: seq<(Tables, Option<Slot>)>, n: nat,
      outcome: PollOutcome, after: Tables, to: Option<Slot>, ok: bool)
      requires n < |polls| && IsRun(tracked, polls[..n], outcomes, trace)
      requires Polled(tracked, polls[n], trace[n].0, trace[n].1, outcome, after, to, ok)
      ensures IsRun(tracked, polls[..n + 1], outcomes + [outcome], trace + [(after, to)])
    {
      var (more, longer) := (outcomes + [outcome], trace + [(after, to)]);
      forall i | 0 <= i < n + 1
        ensures Stepped(tracked, polls[..n + 1][i], longer[i], more[i], longer[i + 1])
      {
        if i < n {
          assert Stepped(tracked, polls[..n][i], trace[i], outcomes[i], trace[i + 1]);
        } else {
          assert Polled(tracked, polls[n], longer[n].0, longer[n].1, more[n], longer[n + 1].0, longer[n + 1].1, ok);
        }
      }
    }

    /** After the first `n` polls, if each moved as it may, the evidence stands on the branch of the last one. */
    ghost predicate Carried(
      start: Branch, t: Tables, branches: seq<Branch>, polls: seq<Poll>, n: nat, outcomes: seq<PollOutcome>,
      now: Tables)
      requires |branches| == |polls| && n == |outcomes| <= |polls|
    {
      StandsOn(start, t) && Follows(start, branches, polls[..n], outcomes, t.validators) ==>
        StandsOn(Latest(start, branches, n), now)
    }

    lemma CarriedOn(
      start: Branch, t: Tables, branches: seq<Branch>, polls: seq<Poll>, n: nat, outcomes: seq<PollOutcome>,
      now: Tables, outcome: PollOutcome, after: Tables)
      requires |branches| == |polls| && n == |outcomes| < |polls| && Upkeep.SameLifetimes(t, now)
      requires Carried(start, t, branches, polls, n, outcomes, now)
      requires Carries(Latest(start, branches, n), now, polls[n], outcome, branches[n], after)
      ensures Carried(start, t, branches, polls, n + 1, outcomes + [outcome], after)
    {
      var longer := outcomes + [outcome];
      if StandsOn(start, t) && Follows(start, branches, polls[..n + 1], longer, t.validators) {
        assert Follows(start, branches, polls[..n], outcomes, t.validators) by {
          forall i | 0 <= i < n
            ensures Advances(Latest(start, branches, i), branches[i], polls[..n][i], outcomes[i], t.validators)
          {
            assert Advances(Latest(start, branches, i), branches[i], polls[..n + 1][i], longer[i], t.validators);
          }
        }
        assert Advances(Latest(start, branches, n), branches[n], polls[..n + 1][n], longer[n], t.validators);
        LifetimesDecide(branches[n].inputs, t, now);
      }
    }
  }

  /** The branch reached after `n` polls. */
  ghost function Latest(start: Branch, branches: seq<Branch>, n: nat): Branch
    requires n <= |branches|
  {
    if n == 0 then start else branches[n - 1]
  }

  ghost predicate Follows(
    start: Branch, branches: seq<Branch>, polls: seq<Poll>, outcomes: seq<PollOutcome>,
    validators: map<Validator, ValidatorRow>)
    requires |outcomes| == |polls| <= |branches|
  {
    forall i :: 0 <= i < |polls| ==>
      Advances(Latest(start, branches, i), branches[i], polls[i], outcomes[i], validators)
  }

  lemma LifetimesDecide(inputs: Inputs, a: Tables, b: Tables)
    requires Upkeep.SameLifetimes(a, b)
    ensures DutiesActive(inputs, a.validators) <==> DutiesActive(inputs, b.validators)
  {
  }

  lemma LifetimesStay(a: Tables, b: Tables, c: Tables)
    requires Upkeep.SameLifetimes(a, b) && Upkeep.SameLifetimes(b, c)
    ensures Upkeep.SameLifetimes(a, c)
  {
  }
}
