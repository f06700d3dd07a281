/** The head's ancestry as the live worker resolves it (src/live/head.rs:289-333). */
module ChainWalk {
  import opened Wrappers
  import opened Chain
  import opened Outcome
  import opened Tables
  import opened Ancestry
  import opened SlotScan

  datatype SignedBlock = SignedBlock(slot: Slot, block: Block)

  /** The blocks the node serves by root, on every branch. */
  type Served = map<Root, SignedBlock>

  ghost predicate Keyed(served: Served) {
    forall r <- served :: served[r].block.root == r
  }

  ghost function TreeOf(served: Served): Tree {
    map r | r in served :: Ancestry.Node(served[r].slot, served[r].block.parent)
  }

  /** The whole chain ending at `root`. */
  ghost function CanonicalOf(served: Served, root: Root): Canonical
    requires WellFormed(TreeOf(served))
    decreases if root in served then served[root].slot + 1 else 0
  {
    if root !in served then map[]
    else CanonicalOf(served, Parent(served, root))[served[root].slot := served[root].block]
  }

  ghost function Parent(served: Served, root: Root): (parent: Root)
    requires WellFormed(TreeOf(served)) && root in served
    ensures parent == served[root].block.parent
    ensures parent in served ==> served[parent].slot < served[root].slot
  {
    var tree := TreeOf(served);
    assert tree[root].parent in tree ==> tree[tree[root].parent].slot < tree[root].slot;
    served[root].block.parent
  }

  /** A slot of the chain holds exactly the ancestor at that slot. */
  lemma {:induction false} CanonicalIsAncestry(served: Served, root: Root)
    requires WellFormed(TreeOf(served)) && Keyed(served)
    ensures forall s <- CanonicalOf(served, root) ::
              var block := CanonicalOf(served, root)[s];
              block.root in Ancestors(TreeOf(served), root) && block.root in served
                  && served[block.root] == SignedBlock(s, block)
    ensures forall a <- Ancestors(TreeOf(served), root) ::
              a in served && served[a].slot in CanonicalOf(served, root)
                  && CanonicalOf(served, root)[served[a].slot] == served[a].block
    ensures root in served ==> forall s <- CanonicalOf(served, root) :: s <= served[root].slot
    decreases if root in served then served[root].slot + 1 else 0
  {
    if root in served {
      var parent := Parent(served, root);
      CanonicalIsAncestry(served, parent);
      forall a | a in Ancestors(TreeOf(served), root) && a != root ensures served[a].slot < served[root].slot {
        AncestorSlots(TreeOf(served), root, a);
      }
    }
  }

  /** Two heads with a common ancestor share everything up to it. */
  lemma {:induction false} SharedAncestor(served: Served, head: Root, a: Root, s: Slot)
    requires WellFormed(TreeOf(served)) && Keyed(served)
    requires a in Ancestors(TreeOf(served), head) && a in served && s <= served[a].slot
    ensures Lookup(CanonicalOf(served, head), s) == Lookup(CanonicalOf(served, a), s)
    decreases if head in served then served[head].slot + 1 else 0
  {
    if a != head {
      AncestorSlots(TreeOf(served), head, a);
      SharedAncestor(served, Parent(served, head), a, s);
    }
  }

  /** The walk from the head can reach `start`. */
  ghost predicate Resolvable(served: Served, slot: Slot, root: Root, start: Slot)
    requires WellFormed(TreeOf(served))
  {
    && root in served && served[root].slot == slot
    && exists a :: a in Ancestors(TreeOf(served), root) && a in served && served[a].slot <= start
  }

  method FetchByRoot(served: Served, root: Root) returns (r: Result<SignedBlock>)
    ensures r == if root in served then Ok(served[root]) else Err(InconsistentBeaconData)
  {
    return if root in served then Ok(served[root]) else Err(InconsistentBeaconData);
  }

  /** Blocks so far hold the chain from `child` up; `root` continues it below. */
  ghost predicate WalkedTo(served: Served, head: Root, chain: map<Slot, Block>, child: Slot, root: Root)
    requires WellFormed(TreeOf(served))
  {
    && child in chain
    && (forall s <- chain :: s >= child)
    && (forall s: Slot :: Lookup(CanonicalOf(served, head), s) == if s >= child then Lookup(chain, s)
          else Lookup(CanonicalOf(served, root), s))
  }

  /**
   * Exactly the head's chain from the first block at or below `start` up, every absent slot between truly
   * skipped; it fails exactly when the head or an ancestor it needs is not served.
   */
  method ResolveChain(served: Served, slot: Slot, root: Root, start: Slot)
    returns (r: Result<map<Slot, Block>>, ghost lo: Slot)
    requires Keyed(served)
    ensures WellFormed(TreeOf(served)) ==> (r.Ok? <==> Resolvable(served, slot, root, start))
    ensures r.Ok? ==> lo <= start && lo in r.value && slot in r.value && r.value[slot].root == root
    ensures r.Ok? ==> forall s <- r.value :: s >= lo && (s != lo ==> s > start)
    ensures r.Ok? && WellFormed(TreeOf(served)) ==> ResolvedBlocks(r.value, CanonicalOf(served, root), lo)
  {
    var chain: map<Slot, Block> := map[];
    var cursor := root;
    var child: Option<Slot> := None;
    lo := 0;
    while true
      invariant child.None? ==> cursor == root && chain == map[]
      invariant child.Some? ==> child.value > start && child.value in chain && slot in chain && chain[slot].root == root
      invariant child.Some? ==> forall s <- chain :: s >= child.value
      invariant child.Some? ==> root in served && served[root].slot == slot
      invariant child.Some? && WellFormed(TreeOf(served)) ==>
                  && WalkedTo(served, root, chain, child.value, cursor)
                  && (cursor in served ==> served[cursor].slot < child.value)
                  && (forall a <- Ancestors(TreeOf(served), root) ::
                        a in served && (served[a].slot > start || a in Ancestors(TreeOf(served), cursor)))
                  && Ancestors(TreeOf(served), cursor) <= Ancestors(TreeOf(served), root)
      decreases if child.Some? then child.value + 1 else slot + 2
    {
      var fetched := FetchByRoot(served, cursor);
      if fetched.Err? {
        return Err(fetched.error), lo;
      }
      var block := fetched.value;
      if child.None? && block.slot != slot {
        return Err(InconsistentBeaconData), lo;
      }
      if child.Some? && block.slot >= child.value {
        return Err(InconsistentBeaconData), lo;
      }
      ghost var (was, from) := (chain, cursor);
      chain := chain[block.slot := block.block];
      if WellFormed(TreeOf(served)) {
        WalkStep(served, root, was, child, cursor, start);
      }
      if block.slot <= start {
        lo := block.slot;
        return Ok(chain), lo;
      }
      child := Some(block.slot);
      cursor := block.block.parent;
    }
  }

  /** One more block of the walk. */
  lemma WalkStep(served: Served, head: Root, chain: map<Slot, Block>, child: Option<Slot>, root: Root, start: Slot)
    requires WellFormed(TreeOf(served)) && Keyed(served) && root in served
    requires child.None? ==> root == head && chain == map[]
    requires child.Some? ==> WalkedTo(served, head, chain, child.value, root) && served[root].slot < child.value
    ensures WalkedTo(served, head, chain[served[root].slot := served[root].block], served[root].slot,
      served[root].block.parent)
    ensures Ancestors(TreeOf(served), root) == {root} + Ancestors(TreeOf(served), served[root].block.parent)
    ensures forall a <- Ancestors(TreeOf(served), head) :: a in served
    ensures served[root].slot <= start ==>
      ResolvedBlocks(chain[served[root].slot := served[root].block], CanonicalOf(served, head), served[root].slot)
  {
    var (slot, parent) := (served[root].slot, Parent(served, root));
    CanonicalIsAncestry(served, parent);
    CanonicalIsAncestry(served, head);
    var longer := chain[slot := served[root].block];
    forall s: Slot
      ensures Lookup(CanonicalOf(served, head), s) == if s >= slot then Lookup(longer, s)
          else Lookup(CanonicalOf(served, parent), s)
    {
      assert CanonicalOf(served, root) == CanonicalOf(served, parent)[slot := served[root].block];
      assert s >= slot ==> s !in CanonicalOf(served, parent);
      if child.Some? && s >= child.value {
        assert Lookup(CanonicalOf(served, head), s) == Lookup(chain, s);
      }
    }
    forall s: Slot ensures s in longer <==> s in CanonicalOf(served, head) && s >= slot {
      assert Lookup(CanonicalOf(served, head), s) == if s >= slot then Lookup(longer, s)
          else Lookup(CanonicalOf(served, parent), s);
    }
    forall s | s in longer ensures longer[s] == CanonicalOf(served, head)[s] {
      assert Lookup(CanonicalOf(served, head), s) == Lookup(longer, s);
    }
  }
}
