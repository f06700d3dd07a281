/**
 * A branch change that the comparison of stored blocks cannot see: slots past the newest stored block were covered as
 * skipped, and the new branch has blocks there (src/live/mod.rs:153-176, src/live/head.rs:17-128).
 */
module Unnoticed {
  import opened Wrappers
  import opened Chain
  import opened Outcome
  import opened Tables
  import opened Ancestry
  import opened LiveScan
  import opened SlotScan
  import opened Reorg
  import opened ChainWalk
  import opened Consistency
  import opened RewardJobs
  import opened Reconcile

  /** Two heads over a common block share everything up to it. */
  lemma SharedBlock(served: Served, one: Root, other: Root, m: Slot)
    requires WellFormed(TreeOf(served)) && Keyed(served)
    requires m in CanonicalOf(served, one) && m in CanonicalOf(served, other)
    requires CanonicalOf(served, one)[m].root == CanonicalOf(served, other)[m].root
    ensures AgreeBefore(CanonicalOf(served, one), CanonicalOf(served, other), m + 1)
  {
    CanonicalIsAncestry(served, one);
    CanonicalIsAncestry(served, other);
    var root := CanonicalOf(served, one)[m].root;
    forall s: Slot | s < m + 1 ensures Lookup(CanonicalOf(served, one), s) == Lookup(CanonicalOf(served, other), s) {
      SharedAncestor(served, one, root, s);
      SharedAncestor(served, other, root, s);
    }
  }

  /** Every slot past `m` that the evidence speaks of and the chain occupies is stored. */
  predicate StoredWhereOccupied(t: Tables, chain: Canonical, m: Slot) {
    && (forall c <- t.coverage :: c.1 > m && c.1 in chain ==> c.1 in t.blocks)
    && (forall s <- t.proposals :: !t.proposals[s].finalized && s > m && s in chain ==> s in t.blocks)
    && (forall k: (Validator, Slot) <- t.syncs :: !t.syncs[k].finalized && k.1 > m && k.1 in chain ==> k.1 in t.blocks)
  }

  /**
   * The newest stored block is on both branches, so the poll notices nothing. The evidence then stands on the new
   * branch if and only if no slot past that block now holds a block that matters; it does if every slot it speaks of
   * that is occupied there is stored.
   */
  lemma UnnoticedChange(served: Served, one: Root, other: Root, a: Branch, b: Branch, t: Tables, m: Slot)
    requires WellFormed(TreeOf(served)) && Keyed(served)
    requires a.chain == CanonicalOf(served, one) && b.chain == CanonicalOf(served, other)
    requires LiveConsistent(a.inputs, a.chain, a.tip, t) && WellFormedBranch(b) && DutiesActive(b.inputs, t.validators)
    requires OnChain(a.chain, t.blocks, m) && OnChain(b.chain, t.blocks, m)
    requires m in t.blocks && forall s <- t.blocks :: s <= m
    requires RestsOn(b.inputs, a.chain, m, t) && SameWhereItMatters(a.inputs, b.inputs, b.chain, t)
    requires NoLaterThan(b.tip, t)
    ensures LiveConsistent(b.inputs, b.chain, b.tip, t) <==> NothingFilled(b.inputs, b.chain, m, t)
    ensures StoredWhereOccupied(t, b.chain, m) ==> LiveConsistent(b.inputs, b.chain, b.tip, t)
  {
    SharedBlock(served, one, other, m);
    ConsistencyFollows(a.inputs, b.inputs, a.chain, b.chain, m, a.tip, b.tip, t);
    if StoredWhereOccupied(t, b.chain, m) {
      StoredSlotsSuffice(b, t, m);
    }
  }

  lemma StoredSlotsSuffice(b: Branch, t: Tables, m: Slot)
    requires StoredWhereOccupied(t, b.chain, m) && forall s <- t.blocks :: s <= m
    ensures NothingFilled(b.inputs, b.chain, m, t)
  {
  }

  // ---- It happens ----

  const FORK: Served := map[
    14 := SignedBlock(4, Block(14, 13, [])), 15 := SignedBlock(5, Block(15, 14, [])),
    17 := SignedBlock(7, Block(17, 14, [])), 18 := SignedBlock(8, Block(18, 15, []))]

  const FOUR_SLOT_EPOCHS: Spec := ChainSpec(4, 1, 1, 0)
  const NO_ANSWERS := Inputs(FOUR_SLOT_EPOCHS, map[], map[])

  /** Head 7 with a lag of two slots: slots 4 and 5 are covered, and 5 was skipped. */
  const COVERED_AS_SKIPPED := EMPTY.(
    proposals := map[5 := ProposalRow(0, false, ProposalRewards(None, None, None, None), false)],
    blocks := map[4 := BlockRow(14, 13)],
    coverage := {(0, 4), (0, 5)})

  lemma ForkChains()
    ensures WellFormed(TreeOf(FORK)) && Keyed(FORK)
    ensures CanonicalOf(FORK, 17) == map[4 := Block(14, 13, []), 7 := Block(17, 14, [])]
    ensures CanonicalOf(FORK, 18) == map[4 := Block(14, 13, []), 5 := Block(15, 14, []), 8 := Block(18, 15, [])]
  {
    assert CanonicalOf(FORK, 13) == map[];
    assert CanonicalOf(FORK, 14) == map[4 := Block(14, 13, [])];
    assert CanonicalOf(FORK, 15) == map[4 := Block(14, 13, []), 5 := Block(15, 14, [])];
  }

  lemma ConsistentWithOldHead(chain: Canonical)
    requires chain == map[4 := Block(14, 13, []), 7 := Block(17, 14, [])]
    ensures LiveConsistent(NO_ANSWERS, chain, 7, COVERED_AS_SKIPPED)
  {
  }

  /**
   * Consistent with head 7; the next poll sees head 8 on another branch, finds every stored block on it and so nothing
   * changed, while the proposal of slot 5 still reads as missed.
   */
  lemma FilledSlotGoesUnnoticed()
    ensures WellFormed(TreeOf(FORK)) && Keyed(FORK)
    ensures LiveConsistent(NO_ANSWERS, CanonicalOf(FORK, 17), 7, COVERED_AS_SKIPPED)
    ensures NothingChanged(COVERED_AS_SKIPPED.blocks, CanonicalOf(FORK, 18), 0, 8)
    ensures ResolvedBlocks(CanonicalOf(FORK, 18), CanonicalOf(FORK, 18), 4)
    ensures !LiveConsistent(NO_ANSWERS, CanonicalOf(FORK, 18), 8, COVERED_AS_SKIPPED)
  {
    ForkChains();
    ConsistentWithOldHead(CanonicalOf(FORK, 17));
    var t := COVERED_AS_SKIPPED;
    assert !FlagsTrue(CanonicalOf(FORK, 18), 8, t.proposals, t.syncs) by {
      assert 5 in t.proposals && 5 in CanonicalOf(FORK, 18);
    }
  }
}
