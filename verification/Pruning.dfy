/** Pruning completed evidence is invisible to later promotions of retained epochs (src/db/scanner/live.rs:286-312). */
module Pruning {
  import opened Wrappers
  import opened Chain
  import opened Tables
  import opened Promotion
  import opened Settling
  import opened Ancestry

  // ---- The confirmed walk becomes its own prefix ----

  /** The walk down to `anchor`. */
  function DownTo(walk: seq<(Slot, Root)>, anchor: Slot): seq<(Slot, Root)> {
    if walk == [] || walk[0].0 < anchor then [] else [walk[0]] + DownTo(walk[1..], anchor)
  }

  function KeptBlocks(blocks: map<Slot, BlockRow>, anchor: Slot): map<Slot, BlockRow> {
    map s | s in blocks && s >= anchor :: blocks[s]
  }

  lemma KeptByRoot(blocks: map<Slot, BlockRow>, anchor: Slot, root: Root)
    requires DistinctRoots(blocks)
    ensures DistinctRoots(KeptBlocks(blocks, anchor))
    ensures Lookup(ByRootOf(KeptBlocks(blocks, anchor)), root)
         == if root in ByRootOf(blocks) && ByRootOf(blocks)[root].0 >= anchor then Some(ByRootOf(blocks)[root])
             else None
  {
    var kept := KeptBlocks(blocks, anchor);
    if root in ByRootOf(blocks) {
      var s :| s in blocks && blocks[s].root == root;
      assert ByRootOf(blocks)[root] == (s, blocks[s].parent);
      if s >= anchor {
        assert s in kept && kept[s].root == root;
      }
    }
  }

  lemma {:induction false} WalkIsCutAtAnchor(
    blocks: map<Slot, BlockRow>, anchor: Slot, cursor: Root, child: Option<Slot>)
    requires DistinctRoots(blocks)
    ensures DistinctRoots(KeptBlocks(blocks, anchor))
    ensures Walk(ByRootOf(KeptBlocks(blocks, anchor)), cursor, child)
        == DownTo(Walk(ByRootOf(blocks), cursor, child), anchor)
    decreases if child.Some? then child.value
        else if cursor in ByRootOf(blocks) then ByRootOf(blocks)[cursor].0 + 1 else 0
  {
    KeptByRoot(blocks, anchor, cursor);
    var all := ByRootOf(blocks);
    if cursor in all && (child.None? || all[cursor].0 < child.value) && all[cursor].0 >= anchor {
      WalkIsCutAtAnchor(blocks, anchor, all[cursor].1, Some(all[cursor].0));
    }
  }

  ghost predicate Descends(walk: seq<(Slot, Root)>) {
    forall i, j :: 0 <= i < j < |walk| ==> walk[i].0 > walk[j].0
  }

  /** A descending walk keeps exactly its entries at or above the anchor. */
  lemma {:induction false} DownToKeeps(walk: seq<(Slot, Root)>, anchor: Slot)
    requires Descends(walk)
    ensures forall c :: c in DownTo(walk, anchor) <==> c in walk && c.0 >= anchor
  {
    if walk != [] {
      var rest := walk[1..];
      assert walk == [walk[0]] + rest;
      if walk[0].0 < anchor {
        forall c | c in walk ensures c.0 < anchor {
          var i :| 0 <= i < |walk| && walk[i] == c;
        }
      } else {
        forall i, j | 0 <= i < j < |rest| ensures rest[i].0 > rest[j].0 {
          assert rest[i] == walk[i + 1] && rest[j] == walk[j + 1];
        }
        DownToKeeps(rest, anchor);
      }
    }
  }

  /** A walk that stays at or above the anchor is not cut. */
  lemma {:induction false} NothingCut(walk: seq<(Slot, Root)>, anchor: Slot)
    requires forall c <- walk :: c.0 >= anchor
    ensures DownTo(walk, anchor) == walk
  {
    if walk != [] {
      NothingCut(walk[1..], anchor);
      assert walk == [walk[0]] + walk[1..];
    }
  }

  lemma {:induction false} WalkDescends(byRoot: ByRoot, cursor: Root, child: Option<Slot>)
    ensures var walk := Walk(byRoot, cursor, child);
      && Descends(walk)
      && (child.Some? ==> forall c <- walk :: c.0 < child.value)
    decreases if child.Some? then child.value else if cursor in byRoot then byRoot[cursor].0 + 1 else 0
  {
    if cursor in byRoot && (child.None? || byRoot[cursor].0 < child.value) {
      var (slot, parent) := byRoot[cursor];
      var rest := Walk(byRoot, parent, Some(slot));
      WalkDescends(byRoot, parent, Some(slot));
      var walk := Walk(byRoot, cursor, child);
      assert walk == [(slot, cursor)] + rest;
      forall i, j | 0 <= i < j < |walk| ensures walk[i].0 > walk[j].0 {
        assert walk[j] == rest[j - 1] && rest[j - 1] in rest;
        if i > 0 { assert walk[i] == rest[i - 1]; }
      }
    }
  }

  // ---- Two promotions that see the same above an epoch ----

  /** Tables and bind parameters agree on everything that a promotion reads about epochs from `retain` on. */
  ghost predicate SameAbove(spec: Spec, retain: Epoch, t: Tables, p: Params, u: Tables, q: Params) {
    && p.validators == q.validators && p.target == q.target && p.finalizedEpoch == q.finalizedEpoch
    && t.attestations == u.attestations && t.proposals == u.proposals && t.syncs == u.syncs
    && t.completed == u.completed && t.gaps == u.gaps && t.started == u.started && t.validators == u.validators
    && (forall s: Slot :: s >= EpochStart(spec, retain) ==> SameSlot(t, p, u, q, s))
    && (forall v, s: Slot :: s >= EpochStart(spec, retain) ==> ((v, s) in t.coverage <==> (v, s) in u.coverage))
    && (forall j: JobKey :: OpenFrom(spec, t, retain, j) ==> SameJob(t, p, u, q, j))
  }

  /** A job that can still matter: its epoch is retained and its pair not complete. */
  predicate OpenFrom(spec: Spec, t: Tables, retain: Epoch, j: JobKey) {
    j.InEpoch(spec) >= retain && j.Pair(spec) !in t.completed
  }

  ghost predicate SameSlot(t: Tables, p: Params, u: Tables, q: Params, s: Slot) {
    && (s >= p.floor <==> s >= q.floor)
    && (s in t.blocks <==> s in u.blocks)
    && (BlockConfirmed(t, p, s) <==> BlockConfirmed(u, q, s))
  }

  ghost predicate SameJob(t: Tables, p: Params, u: Tables, q: Params, j: JobKey) {
    && Lookup(t.jobs, j) == Lookup(u.jobs, j)
    && (Settled(t, p, j) <==> Settled(u, q, j))
  }

  /** An inclusion lies in its window, past the start of the epoch. */
  ghost predicate InclusionsFollow(spec: Spec, t: Tables) {
    forall k <- t.attestations ::
      t.attestations[k].details.inclusionSlot.Some? ==>
        t.attestations[k].details.inclusionSlot.value >= EpochStart(spec, k.1)
  }

  lemma WindowAgrees(spec: Spec, retain: Epoch, t: Tables, p: Params, u: Tables, q: Params, k: Pair)
    requires SameAbove(spec, retain, t, p, u, q) && k.1 >= retain
    ensures WindowCounted(spec, t, k) <==> WindowCounted(spec, u, k)
  {
    CountMeansEverySlot(spec, t, k);
    CountMeansEverySlot(spec, u, k);
    EpochStartMonotone(spec, retain, k.1);
  }

  lemma AttestationAgrees(spec: Spec, retain: Epoch, t: Tables, p: Params, u: Tables, q: Params, k: Pair)
    requires SameAbove(spec, retain, t, p, u, q) && InclusionsFollow(spec, t) && k.1 >= retain && k in t.attestations
    ensures SettledAttestation(spec, t, p, k) == SettledAttestation(spec, u, q, k)
  {
    WindowAgrees(spec, retain, t, p, u, q, k);
    EpochStartMonotone(spec, retain, k.1);
    assert OpenFrom(spec, t, retain, AttestationJob(k.0, k.1)) ==> SameJob(t, p, u, q, AttestationJob(k.0, k.1));
    assert SameSlot(t, p, u, q, EpochStart(spec, k.1));
    var details := t.attestations[k].details;
    if details.inclusionSlot.Some? {
      assert SameSlot(t, p, u, q, details.inclusionSlot.value);
    }
  }

  lemma SlotAgrees(
    spec: Spec, retain: Epoch, t: Tables, p: Params, u: Tables, q: Params, owner: Validator, s: Slot, present: bool)
    requires SameAbove(spec, retain, t, p, u, q) && EpochOf(spec, s) >= retain
    ensures SlotEvidence(spec, t, p, owner, s, present) <==> SlotEvidence(spec, u, q, owner, s, present)
    ensures s in t.proposals ==> SettledProposal(spec, t, p, s) == SettledProposal(spec, u, q, s)
    ensures (owner, s) in t.syncs ==> SettledSync(spec, t, p, (owner, s)) == SettledSync(spec, u, q, (owner, s))
  {
    EpochOfBounds(spec, s, retain);
    assert SameSlot(t, p, u, q, s);
    assert OpenFrom(spec, t, retain, SyncJob(owner, s)) ==> SameJob(t, p, u, q, SyncJob(owner, s));
    if s in t.proposals {
      var job := ProposalJob(t.proposals[s].proposer, s);
      assert OpenFrom(spec, t, retain, job) ==> SameJob(t, p, u, q, job);
      var row := t.proposals[s];
      assert SlotEvidence(spec, t, p, row.proposer, s, row.proposed)
         <==> SlotEvidence(spec, u, q, row.proposer, s, row.proposed);
    }
  }

  /** Settled rows of retained epochs agree, with the same job table above `retain`. */
  ghost predicate SameSettled(spec: Spec, retain: Epoch, a: Tables, b: Tables) {
    && (forall k: Pair :: k.1 >= retain ==> Lookup(a.attestations, k) == Lookup(b.attestations, k))
    && (forall s: Slot :: EpochOf(spec, s) >= retain ==> Lookup(a.proposals, s) == Lookup(b.proposals, s))
    && (forall k: (Validator, Slot) :: EpochOf(spec, k.1) >= retain ==> Lookup(a.syncs, k) == Lookup(b.syncs, k))
  }

  lemma SettlingAgrees(spec: Spec, retain: Epoch, t: Tables, p: Params, u: Tables, q: Params, a: Tables, b: Tables)
    requires SameAbove(spec, retain, t, p, u, q) && InclusionsFollow(spec, t)
    requires SettledFrom(spec, t, p, a) && SettledFrom(spec, u, q, b)
    ensures SameSettled(spec, retain, a, b)
  {
    forall k: Pair | k.1 >= retain ensures Lookup(a.attestations, k) == Lookup(b.attestations, k) {
      if k in t.attestations { AttestationAgrees(spec, retain, t, p, u, q, k); }
    }
    forall s: Slot | EpochOf(spec, s) >= retain ensures Lookup(a.proposals, s) == Lookup(b.proposals, s) {
      if s in t.proposals { SlotAgrees(spec, retain, t, p, u, q, 0, s, true); }
    }
    forall k: (Validator, Slot) | EpochOf(spec, k.1) >= retain ensures Lookup(a.syncs, k) == Lookup(b.syncs, k) {
      if k in t.syncs { SlotAgrees(spec, retain, t, p, u, q, k.0, k.1, true); }
    }
  }

  /** Evidence of the settled tables is that of the tables they settle. */
  lemma ReadyAgrees(
    spec: Spec, retain: Epoch, t: Tables, p: Params, u: Tables, q: Params, a: Tables, b: Tables, k: Pair)
    requires SameAbove(spec, retain, t, p, u, q) && SettledFrom(spec, t, p, a) && SettledFrom(spec, u, q, b)
    requires SameSettled(spec, retain, a, b) && k.1 >= retain && k in ReadyPairs(spec, a, p)
    ensures k in ReadyPairs(spec, b, q)
  {
    assert Lookup(a.attestations, k) == Lookup(b.attestations, k);
    EpochStartMonotone(spec, retain, k.1);
    assert SameSlot(t, p, u, q, EpochStart(spec, k.1));
    assert WindowCounted(spec, b, k) by {
      WindowAgrees(spec, retain, t, p, u, q, k);
      CountMeansEverySlot(spec, a, k);
      CountMeansEverySlot(spec, t, k);
      CountMeansEverySlot(spec, u, k);
      CountMeansEverySlot(spec, b, k);
    }
    RewardsAgree(spec, retain, t, p, u, q, a, b, k);
  }

  lemma RewardsAgree(
    spec: Spec, retain: Epoch, t: Tables, p: Params, u: Tables, q: Params, a: Tables, b: Tables, k: Pair)
    requires SameAbove(spec, retain, t, p, u, q) && a.jobs == t.jobs && b.jobs == u.jobs && k !in t.completed
    requires SameSettled(spec, retain, a, b) && k.1 >= retain && RewardsSettled(spec, a, p, k)
    ensures RewardsSettled(spec, b, q, k)
  {
    forall j: JobKey | j.Pair(spec) == k ensures j in a.jobs <==> j in b.jobs
                                         ensures Settled(a, p, j) <==> Settled(b, q, j)
    {
      assert OpenFrom(spec, t, retain, j) && SameJob(t, p, u, q, j);
    }
    assert AttestationJob(k.0, k.1).Pair(spec) == k;
    forall s | s in b.proposals ensures !ProposalPending(spec, b, q, k, s) {
      ProposalAgrees(spec, retain, a, p, b, q, k, s);
    }
    forall s | s in b.syncs ensures !SyncPending(spec, b, q, k, s) {
      SyncAgrees(spec, retain, a, p, b, q, k, s);
    }
  }

  lemma ProposalAgrees(spec: Spec, retain: Epoch, a: Tables, p: Params, b: Tables, q: Params, k: Pair, s: Slot)
    requires SameSettled(spec, retain, a, b) && k.1 >= retain && s in b.proposals
    requires ProposalJob(k.0, s).Pair(spec) == k ==>
      (Settled(a, p, ProposalJob(k.0, s)) <==> Settled(b, q, ProposalJob(k.0, s)))
    requires forall x <- a.proposals :: !ProposalPending(spec, a, p, k, x)
    ensures !ProposalPending(spec, b, q, k, s)
  {
    if EpochOf(spec, s) == k.1 {
      assert Lookup(a.proposals, s) == Lookup(b.proposals, s);
      assert !ProposalPending(spec, a, p, k, s);
    }
  }

  lemma SyncAgrees(spec: Spec, retain: Epoch, a: Tables, p: Params, b: Tables, q: Params, k: Pair, s: (Validator, Slot))
    requires SameSettled(spec, retain, a, b) && k.1 >= retain && s in b.syncs
    requires SyncJob(k.0, s.1).Pair(spec) == k ==>
      (Settled(a, p, SyncJob(k.0, s.1)) <==> Settled(b, q, SyncJob(k.0, s.1)))
    requires forall x <- a.syncs :: !SyncPending(spec, a, p, k, x)
    ensures !SyncPending(spec, b, q, k, s)
  {
    if EpochOf(spec, s.1) == k.1 {
      assert Lookup(a.syncs, s) == Lookup(b.syncs, s);
      assert !SyncPending(spec, a, p, k, s);
    }
  }

  lemma SameAboveSwaps(spec: Spec, retain: Epoch, t: Tables, p: Params, u: Tables, q: Params)
    requires SameAbove(spec, retain, t, p, u, q)
    ensures SameAbove(spec, retain, u, q, t, p)
  {
    forall s: Slot | s >= EpochStart(spec, retain) ensures SameSlot(u, q, t, p, s) {
      assert SameSlot(t, p, u, q, s);
    }
    forall j: JobKey | OpenFrom(spec, u, retain, j) ensures SameJob(u, q, t, p, j) {
      assert OpenFrom(spec, t, retain, j) && SameJob(t, p, u, q, j);
    }
  }

  /** Rows, completions and gaps of retained epochs. */
  ghost predicate SameOutcome(spec: Spec, retain: Epoch, a: Tables, b: Tables) {
    && SameSettled(spec, retain, a, b)
    && (forall k: Pair :: k.1 >= retain ==> (k in a.completed <==> k in b.completed))
    && (forall k: Pair :: k.1 >= retain ==> (k in a.gaps <==> k in b.gaps))
  }

  lemma DecisionsAgree(spec: Spec, retain: Epoch, t: Tables, p: Params, u: Tables, q: Params)
    requires SameAbove(spec, retain, t, p, u, q) && InclusionsFollow(spec, t)
    ensures SameSettled(spec, retain, Promoted(spec, t, p), Promoted(spec, u, q))
    ensures forall k: Pair :: k.1 >= retain ==>
      (k in Promoted(spec, t, p).completed <==> k in Promoted(spec, u, q).completed)
  {
    var a := PromotedRows(spec, t, p);
    var b := PromotedRows(spec, u, q);
    CompletionsAgree(spec, retain, t, p, u, q, a, b, Promoted(spec, t, p), Promoted(spec, u, q));
  }

  /** `a` and `b` are outcomes whose gaps are what `PromotedGap` says. */
  lemma GapsAgree(spec: Spec, retain: Epoch, t: Tables, p: Params, u: Tables, q: Params, a: Tables, b: Tables)
    requires SameAbove(spec, retain, t, p, u, q)
    requires forall k: Pair :: k in a.gaps <==> k in t.gaps || (Owed(t, p, k) && k !in a.completed)
    requires forall k: Pair :: k in b.gaps <==> k in u.gaps || (Owed(u, q, k) && k !in b.completed)
    requires forall k: Pair :: k.1 >= retain ==> (k in a.completed <==> k in b.completed)
    ensures forall k: Pair :: k.1 >= retain ==> (k in a.gaps <==> k in b.gaps)
  {
  }

  lemma PromotedGaps(spec: Spec, t: Tables, p: Params)
    ensures forall k: Pair ::
      k in Promoted(spec, t, p).gaps <==> k in t.gaps || (Owed(t, p, k) && k !in Promoted(spec, t, p).completed)
  {
    forall k: Pair
      ensures k in Promoted(spec, t, p).gaps <==> k in t.gaps || (Owed(t, p, k) && k !in Promoted(spec, t, p).completed)
    {
      PromotedGap(spec, t, p, k);
    }
  }

  /** Two promotions that see the same above an epoch decide the same above it. */
  lemma PromotionsAgree(spec: Spec, retain: Epoch, t: Tables, p: Params, u: Tables, q: Params)
    requires SameAbove(spec, retain, t, p, u, q) && InclusionsFollow(spec, t)
    ensures SameOutcome(spec, retain, Promoted(spec, t, p), Promoted(spec, u, q))
  {
    DecisionsAgree(spec, retain, t, p, u, q);
    PromotedGaps(spec, t, p);
    PromotedGaps(spec, u, q);
    GapsAgree(spec, retain, t, p, u, q, Promoted(spec, t, p), Promoted(spec, u, q));
  }

  lemma CompletionsAgree(
    spec: Spec, retain: Epoch, t: Tables, p: Params, u: Tables, q: Params, a: Tables, b: Tables, after: Tables,
    after': Tables)
    requires SameAbove(spec, retain, t, p, u, q) && InclusionsFollow(spec, t)
    requires SettledFrom(spec, t, p, a) && CompletedFrom(spec, a, ReadyPairs(spec, a, p), after)
    requires SettledFrom(spec, u, q, b) && CompletedFrom(spec, b, ReadyPairs(spec, b, q), after')
    ensures SameSettled(spec, retain, after, after')
    ensures forall k: Pair :: k.1 >= retain ==> (k in after.completed <==> k in after'.completed)
  {
    SettlingAgrees(spec, retain, t, p, u, q, a, b);
    ReadyPairsAgree(spec, retain, t, p, u, q, a, b);
    CompletedRowsAgree(spec, retain, a, ReadyPairs(spec, a, p), after, b, ReadyPairs(spec, b, q), after');
  }

  lemma ReadyPairsAgree(spec: Spec, retain: Epoch, t: Tables, p: Params, u: Tables, q: Params, a: Tables, b: Tables)
    requires SameAbove(spec, retain, t, p, u, q) && SettledFrom(spec, t, p, a) && SettledFrom(spec, u, q, b)
    requires SameSettled(spec, retain, a, b)
    ensures forall k: Pair :: k.1 >= retain ==> (k in ReadyPairs(spec, a, p) <==> k in ReadyPairs(spec, b, q))
  {
    SameAboveSwaps(spec, retain, t, p, u, q);
    forall k: Pair | k.1 >= retain ensures k in ReadyPairs(spec, a, p) <==> k in ReadyPairs(spec, b, q) {
      if k in ReadyPairs(spec, a, p) { ReadyAgrees(spec, retain, t, p, u, q, a, b, k); }
      if k in ReadyPairs(spec, b, q) { ReadyAgrees(spec, retain, u, q, t, p, b, a, k); }
    }
  }

  lemma CompletedRowsAgree(
    spec: Spec, retain: Epoch, a: Tables, ready: set<Pair>, after: Tables, b: Tables, ready': set<Pair>, after': Tables)
    requires CompletedFrom(spec, a, ready, after) && CompletedFrom(spec, b, ready', after')
    requires SameSettled(spec, retain, a, b) && forall k: Pair :: k.1 >= retain ==> (k in ready <==> k in ready')
    ensures SameSettled(spec, retain, after, after')
  {
    forall k: Pair | k.1 >= retain ensures Lookup(after.attestations, k) == Lookup(after'.attestations, k) {
      assert Lookup(a.attestations, k) == Lookup(b.attestations, k);
      CompletedAttestation(spec, a, ready, after, k);
      CompletedAttestation(spec, b, ready', after', k);
    }
    forall s: Slot | EpochOf(spec, s) >= retain ensures Lookup(after.proposals, s) == Lookup(after'.proposals, s) {
      assert Lookup(a.proposals, s) == Lookup(b.proposals, s);
      CompletedProposal(spec, a, ready, after, s);
      CompletedProposal(spec, b, ready', after', s);
    }
    forall k: (Validator, Slot) | EpochOf(spec, k.1) >= retain
      ensures Lookup(after.syncs, k) == Lookup(after'.syncs, k)
    {
      assert Lookup(a.syncs, k) == Lookup(b.syncs, k);
      CompletedSync(spec, a, ready, after, k);
      CompletedSync(spec, b, ready', after', k);
    }
  }

  lemma CompletedAttestation(spec: Spec, a: Tables, ready: set<Pair>, after: Tables, k: Pair)
    requires CompletedFrom(spec, a, ready, after)
    ensures Lookup(after.attestations, k) == if k !in a.attestations then None
      else Some(a.attestations[k].(finalized := a.attestations[k].finalized || k in ready))
  {
  }

  lemma CompletedProposal(spec: Spec, a: Tables, ready: set<Pair>, after: Tables, s: Slot)
    requires CompletedFrom(spec, a, ready, after)
    ensures Lookup(after.proposals, s) == if s !in a.proposals then None
      else Some(a.proposals[s].(
        finalized := a.proposals[s].finalized || (a.proposals[s].proposer, EpochOf(spec, s)) in ready))
  {
  }

  lemma CompletedSync(spec: Spec, a: Tables, ready: set<Pair>, after: Tables, k: (Validator, Slot))
    requires CompletedFrom(spec, a, ready, after)
    ensures Lookup(after.syncs, k) == if k !in a.syncs then None
      else Some(a.syncs[k].(finalized := a.syncs[k].finalized || (k.0, EpochOf(spec, k.1)) in ready))
  {
  }

  /** Tracked, active and final enough to be complete or else a gap. */
  predicate Owed(t: Tables, p: Params, k: Pair) {
    && k.0 in p.validators && k.0 in t.started && k.0 in t.validators
    && t.started[k.0] <= k.1 <= p.target && ActiveAt(t.validators[k.0], k.1)
  }

  /** After a promotion a pair is a gap exactly when it was one, or is owed and still not complete. */
  lemma PromotedGap(spec: Spec, t: Tables, p: Params, k: Pair)
    ensures k in Promoted(spec, t, p).gaps <==> k in t.gaps || (Owed(t, p, k) && k !in Promoted(spec, t, p).completed)
  {
    var settled := FlagsSettled(spec, t, p);
    FlagsSettledShape(spec, t, p);
    GapAfter(spec, settled, ReadyPairs(spec, settled, p), p, k);
    PairsCompletedRows(spec, settled, ReadyPairs(spec, settled, p), p);
  }

  lemma GapAfter(spec: Spec, a: Tables, ready: set<Pair>, p: Params, k: Pair)
    ensures k in GapsRecorded(PairsCompleted(spec, a, ready), p).gaps
       <==> k in a.gaps || (Owed(a, p, k) && k !in a.completed + ready)
  {
    var done := PairsCompleted(spec, a, ready);
    assert done.validators.Keys == a.validators.Keys;
    assert Missing(done, p, k) <==> Owed(a, p, k) && k !in done.completed;
  }

  // ---- Pruning is such a change ----

  /** Stored blocks are real and lie on the chain of one head. */
  ghost predicate OneChain(tree: Tree, head: Root, blocks: map<Slot, BlockRow>) {
    && WellFormed(tree) && Real(tree, blocks)
    && forall s <- blocks :: blocks[s].root in Ancestors(tree, head)
  }

  /** Open reward jobs of retained epochs depend on no block before the anchor. */
  ghost predicate DependenciesKept(spec: Spec, tree: Tree, t: Tables, retain: Epoch, anchor: Slot) {
    forall j <- t.jobs ::
      OpenFrom(spec, t, retain, j) && t.jobs[j].dependency.Some? && t.jobs[j].dependency.value in tree ==>
        tree[t.jobs[j].dependency.value].slot >= anchor
  }

  /** The last block of the head's chain at or before `start`. */
  ghost predicate LastAtOrBefore(tree: Tree, head: Root, checkpoint: Root, start: Slot)
    requires WellFormed(tree)
  {
    && checkpoint in tree && checkpoint in Ancestors(tree, head)
    && forall a <- Ancestors(tree, head) :: a in tree && tree[a].slot <= start ==> tree[a].slot <= tree[checkpoint].slot
  }

  /** Same bind parameters, over what is confirmed in the pruned tables. */
  ghost predicate Rebound(t: Tables, p: Params, q: Params, checkpoint: Root) {
    && q == p.(floor := q.floor, roots := q.roots)
    && ConfirmedParams(t, q, checkpoint)
  }

  /** Pruning cuts the confirmed walk at the anchor. */
  lemma PrunedWalk(spec: Spec, t: Tables, checkpoint: Root, retain: Epoch, anchor: Slot)
    requires DistinctRoots(t.blocks) && NewestBelow(t.blocks, EpochStart(spec, retain)) == Some(anchor)
    ensures DistinctRoots(Pruned(spec, t, retain).blocks)
    ensures Confirmed(Pruned(spec, t, retain).blocks, checkpoint) == DownTo(Confirmed(t.blocks, checkpoint), anchor)
  {
    assert Pruned(spec, t, retain).blocks == KeptBlocks(t.blocks, anchor);
    WalkIsCutAtAnchor(t.blocks, anchor, checkpoint, None);
  }

  lemma CutRoots(tree: Tree, blocks: map<Slot, BlockRow>, checkpoint: Root, anchor: Slot)
    requires WellFormed(tree) && Real(tree, blocks) && DistinctRoots(blocks)
    ensures var walk := Confirmed(blocks, checkpoint);
      forall r :: r in RootsOf(DownTo(walk, anchor)) <==> r in RootsOf(walk) && r in tree && tree[r].slot >= anchor
  {
    var walk := Confirmed(blocks, checkpoint);
    WalkDescends(ByRootOf(blocks), checkpoint, None);
    DownToKeeps(walk, anchor);
    WalkVisitsAncestors(tree, blocks, checkpoint, None);
    RootsAbove(tree, blocks, walk, anchor);
  }

  /** With the anchor on the checkpoint's chain, the walk's floor stays at or below it or does not move. */
  lemma CutFloor(tree: Tree, head: Root, blocks: map<Slot, BlockRow>, checkpoint: Root, anchor: Slot)
    requires OneChain(tree, head, blocks) && DistinctRoots(blocks) && anchor in blocks
    requires checkpoint in tree && anchor <= tree[checkpoint].slot
    requires Confirmed(blocks, checkpoint) != [] && DownTo(Confirmed(blocks, checkpoint), anchor) != []
    ensures var walk := Confirmed(blocks, checkpoint);
      DownTo(walk, anchor) == walk || (FloorOf(walk) <= anchor && FloorOf(DownTo(walk, anchor)) <= anchor)
  {
    var walk := Confirmed(blocks, checkpoint);
    WalkDescends(ByRootOf(blocks), checkpoint, None);
    if FloorOf(walk) < anchor {
      AnchorIsConfirmed(tree, head, blocks, checkpoint, anchor);
      DownToKeeps(walk, anchor);
      FloorIsLowest(DownTo(walk, anchor), anchor, blocks[anchor].root, walk, anchor);
    } else {
      AboveFloor(walk, anchor);
      NothingCut(walk, anchor);
    }
  }

  lemma AboveFloor(walk: seq<(Slot, Root)>, anchor: Slot)
    requires Descends(walk) && walk != [] && FloorOf(walk) >= anchor
    ensures forall c <- walk :: c.0 >= anchor
  {
    forall c | c in walk ensures c.0 >= anchor {
      var i :| 0 <= i < |walk| && walk[i] == c;
    }
  }

  lemma PrunedParams(
    spec: Spec, tree: Tree, head: Root, t: Tables, p: Params, q: Params, checkpoint: Root, retain: Epoch, anchor: Slot)
    requires OneChain(tree, head, t.blocks) && ConfirmedParams(t, p, checkpoint)
    requires NewestBelow(t.blocks, EpochStart(spec, retain)) == Some(anchor)
    requires checkpoint in tree && anchor <= tree[checkpoint].slot
    requires ConfirmedParams(Pruned(spec, t, retain), q, checkpoint)
    ensures forall r :: r in q.roots <==> r in p.roots && r in tree && tree[r].slot >= anchor
    ensures p.floor == q.floor || (p.floor <= EpochStart(spec, retain) && q.floor <= EpochStart(spec, retain))
  {
    NewestBelowIsMax(t.blocks, EpochStart(spec, retain));
    PrunedWalk(spec, t, checkpoint, retain, anchor);
    CutRoots(tree, t.blocks, checkpoint, anchor);
    CutFloor(tree, head, t.blocks, checkpoint, anchor);
  }

  lemma RootsAbove(tree: Tree, blocks: map<Slot, BlockRow>, walk: seq<(Slot, Root)>, anchor: Slot)
    requires Real(tree, blocks) && forall c <- walk :: c.0 in blocks && blocks[c.0].root == c.1
    requires forall c :: c in DownTo(walk, anchor) <==> c in walk && c.0 >= anchor
    ensures forall r ::
      r in RootsOf(DownTo(walk, anchor)) <==> r in RootsOf(walk) && r in tree && tree[r].slot >= anchor
  {
    forall r ensures r in RootsOf(DownTo(walk, anchor)) <==> r in RootsOf(walk) && r in tree && tree[r].slot >= anchor {
      if r in RootsOf(walk) {
        var c :| c in walk && c.1 == r;
        assert tree[r].slot == c.0;
      }
    }
  }

  lemma AnchorIsConfirmed(tree: Tree, head: Root, blocks: map<Slot, BlockRow>, checkpoint: Root, anchor: Slot)
    requires OneChain(tree, head, blocks) && DistinctRoots(blocks) && anchor in blocks && checkpoint in tree
    requires anchor <= tree[checkpoint].slot
    requires Confirmed(blocks, checkpoint) != [] && FloorOf(Confirmed(blocks, checkpoint)) <= anchor
    ensures (anchor, blocks[anchor].root) in Confirmed(blocks, checkpoint)
  {
    WalkIsAncestry(tree, blocks, checkpoint, None);
    assert checkpoint in ByRootOf(blocks);
    var s :| s in blocks && blocks[s].root == checkpoint;
    AncestorsNest(tree, head, checkpoint, blocks[anchor].root);
  }

  /** The last entry of a cut walk is its lowest. */
  lemma FloorIsLowest(cut: seq<(Slot, Root)>, slot: Slot, root: Root, walk: seq<(Slot, Root)>, anchor: Slot)
    requires Descends(walk)
    requires cut == DownTo(walk, anchor) && (slot, root) in cut
    ensures FloorOf(cut) <= slot
  {
    CutDescends(walk, anchor);
    var i :| 0 <= i < |cut| && cut[i] == (slot, root);
  }

  lemma {:induction false} CutDescends(walk: seq<(Slot, Root)>, anchor: Slot)
    ensures DownTo(walk, anchor) <= walk
  {
    if walk != [] && walk[0].0 >= anchor {
      CutDescends(walk[1..], anchor);
      assert walk == [walk[0]] + walk[1..];
    }
  }

  lemma PrunedSlot(spec: Spec, tree: Tree, t: Tables, p: Params, q: Params, retain: Epoch, anchor: Slot, s: Slot)
    requires WellFormed(tree) && Real(tree, t.blocks) && s >= EpochStart(spec, retain)
    requires NewestBelow(t.blocks, EpochStart(spec, retain)) == Some(anchor) && anchor < EpochStart(spec, retain)
    requires forall r :: r in q.roots <==> r in p.roots && r in tree && tree[r].slot >= anchor
    requires p.floor == q.floor || (p.floor <= EpochStart(spec, retain) && q.floor <= EpochStart(spec, retain))
    ensures SameSlot(t, p, Pruned(spec, t, retain), q, s)
  {
    assert s in t.blocks ==> tree[t.blocks[s].root].slot == s;
  }

  lemma PrunedJob(spec: Spec, tree: Tree, t: Tables, p: Params, q: Params, retain: Epoch, anchor: Slot, j: JobKey)
    requires OpenFrom(spec, t, retain, j) && DependenciesKept(spec, tree, t, retain, anchor)
    requires forall r :: r in q.roots <==> r in p.roots && r in tree && tree[r].slot >= anchor
    requires forall r <- p.roots :: r in tree
    ensures SameJob(t, p, Pruned(spec, t, retain), q, j)
  {
  }

  lemma PrunedLooksTheSame(
    spec: Spec, tree: Tree, head: Root, t: Tables, p: Params, q: Params, checkpoint: Root, retain: Epoch, anchor: Slot)
    requires OneChain(tree, head, t.blocks) && ConfirmedParams(t, p, checkpoint)
    requires NewestBelow(t.blocks, EpochStart(spec, retain)) == Some(anchor)
    requires DependenciesKept(spec, tree, t, retain, anchor)
    requires checkpoint in tree && anchor <= tree[checkpoint].slot
    requires Rebound(Pruned(spec, t, retain), p, q, checkpoint)
    ensures SameAbove(spec, retain, t, p, Pruned(spec, t, retain), q)
  {
    var u := Pruned(spec, t, retain);
    PrunedParams(spec, tree, head, t, p, q, checkpoint, retain, anchor);
    NewestBelowIsMax(t.blocks, EpochStart(spec, retain));
    forall s: Slot | s >= EpochStart(spec, retain) ensures SameSlot(t, p, u, q, s) {
      PrunedSlot(spec, tree, t, p, q, retain, anchor, s);
    }
    ConfirmedAreReal(tree, t, p, checkpoint);
    forall j: JobKey | OpenFrom(spec, t, retain, j) ensures SameJob(t, p, u, q, j) {
      PrunedJob(spec, tree, t, p, q, retain, anchor, j);
    }
  }

  lemma ConfirmedAreReal(tree: Tree, t: Tables, p: Params, checkpoint: Root)
    requires WellFormed(tree) && Real(tree, t.blocks) && ConfirmedParams(t, p, checkpoint)
    ensures forall r <- p.roots :: r in tree
  {
    WalkVisitsAncestors(tree, t.blocks, checkpoint, None);
  }

  /** Nothing below the retained epoch: no block goes. */
  lemma NothingToPrune(spec: Spec, t: Tables, p: Params, q: Params, checkpoint: Root, retain: Epoch)
    requires NewestBelow(t.blocks, EpochStart(spec, retain)).None? && ConfirmedParams(t, p, checkpoint)
    requires Rebound(Pruned(spec, t, retain), p, q, checkpoint)
    ensures SameAbove(spec, retain, t, p, Pruned(spec, t, retain), q)
  {
    var u := Pruned(spec, t, retain);
    assert u.blocks == t.blocks;
    assert p == q;
    forall s: Slot | s >= EpochStart(spec, retain) ensures SameSlot(t, p, u, q, s) {
    }
    forall j: JobKey | OpenFrom(spec, t, retain, j) ensures SameJob(t, p, u, q, j) {
    }
  }

  /**
   * Pruning at an epoch no later than the checkpoint's, while the stored blocks lie on one chain, changes no row,
   * completion or gap that the next promotion decides for a retained epoch.
   */
  lemma PruningIsInvisible(
    spec: Spec, tree: Tree, head: Root, t: Tables, p: Params, q: Params, checkpoint: Root, retain: Epoch)
    requires OneChain(tree, head, t.blocks) && ConfirmedParams(t, p, checkpoint) && InclusionsFollow(spec, t)
    requires LastAtOrBefore(tree, head, checkpoint, EpochStart(spec, p.finalizedEpoch)) && retain <= p.finalizedEpoch
    requires Rebound(Pruned(spec, t, retain), p, q, checkpoint)
    requires NewestBelow(t.blocks, EpochStart(spec, retain)).Some? ==>
      DependenciesKept(spec, tree, t, retain, NewestBelow(t.blocks, EpochStart(spec, retain)).value)
    ensures SameOutcome(spec, retain, Promoted(spec, t, p), Promoted(spec, Pruned(spec, t, retain), q))
  {
    var anchor := NewestBelow(t.blocks, EpochStart(spec, retain));
    if anchor.Some? {
      NewestBelowIsMax(t.blocks, EpochStart(spec, retain));
      EpochStartMonotone(spec, retain, p.finalizedEpoch);
      assert t.blocks[anchor.value].root in Ancestors(tree, head);
      PrunedLooksTheSame(spec, tree, head, t, p, q, checkpoint, retain, anchor.value);
    } else {
      NothingToPrune(spec, t, p, q, checkpoint, retain);
    }
    PromotionsAgree(spec, retain, t, p, Pruned(spec, t, retain), q);
  }
}
