/** The block tree, confirmed ancestry (src/live/finalization.rs:94-114), and what finality certifies. */
module Ancestry {
  import opened Wrappers
  import opened Chain
  import opened Tables
  import opened Promotion
  import opened Settling

  datatype Node = Node(slot: Slot, parent: Root)

  /** Every block ever seen, on every branch. */
  type Tree = map<Root, Node>

  ghost predicate WellFormed(tree: Tree) {
    forall r <- tree :: tree[r].parent in tree ==> tree[tree[r].parent].slot < tree[r].slot
  }

  /** `root` and its ancestors. */
  ghost function Ancestors(tree: Tree, root: Root): set<Root>
    requires WellFormed(tree)
    decreases if root in tree then tree[root].slot + 1 else 0
  {
    if root !in tree then {} else {root} + Ancestors(tree, tree[root].parent)
  }

  /** The chain ending at `root` has a block at `slot`. */
  ghost predicate Occupied(tree: Tree, root: Root, slot: Slot)
    requires WellFormed(tree)
  {
    exists a :: a in Ancestors(tree, root) && a in tree && tree[a].slot == slot
  }

  lemma {:induction false} AncestorSlots(tree: Tree, root: Root, a: Root)
    requires WellFormed(tree) && a in Ancestors(tree, root)
    ensures a in tree && root in tree && tree[a].slot <= tree[root].slot
    ensures a == root || tree[a].slot < tree[root].slot
    decreases if root in tree then tree[root].slot + 1 else 0
  {
    if a != root {
      AncestorSlots(tree, tree[root].parent, a);
    }
  }

  /** Two ancestors of one head lie on one line. */
  lemma {:induction false} AncestorsNest(tree: Tree, head: Root, upper: Root, lower: Root)
    requires WellFormed(tree) && upper in Ancestors(tree, head) && lower in Ancestors(tree, head)
    requires lower in tree && upper in tree && tree[lower].slot <= tree[upper].slot
    ensures lower in Ancestors(tree, upper)
    decreases if head in tree then tree[head].slot + 1 else 0
  {
    AncestorSlots(tree, head, upper);
    AncestorSlots(tree, head, lower);
    if upper != head {
      AncestorsNest(tree, tree[head].parent, upper, lower);
    }
  }

  lemma {:induction false} AncestorsWithin(tree: Tree, head: Root, upper: Root)
    requires WellFormed(tree) && upper in Ancestors(tree, head)
    ensures Ancestors(tree, upper) <= Ancestors(tree, head)
    decreases if head in tree then tree[head].slot + 1 else 0
  {
    if upper != head {
      AncestorsWithin(tree, tree[head].parent, upper);
    }
  }

  // ---- The parent walk over stored blocks ----

  datatype StoredBlock = StoredBlock(slot: Slot, root: Root, parent: Root)

  type ByRoot = map<Root, (Slot, Root)>

  /** The uninterrupted parent chain from `cursor`; a parent not below its child ends it. */
  function Walk(byRoot: ByRoot, cursor: Root, child: Option<Slot>): seq<(Slot, Root)>
    decreases if child.Some? then child.value else if cursor in byRoot then byRoot[cursor].0 + 1 else 0
  {
    if cursor !in byRoot || (child.Some? && byRoot[cursor].0 >= child.value) then []
    else [(byRoot[cursor].0, cursor)] + Walk(byRoot, byRoot[cursor].1, Some(byRoot[cursor].0))
  }

  function ByRootOf(blocks: map<Slot, BlockRow>): ByRoot
    requires DistinctRoots(blocks)
  {
    map s | s in blocks :: blocks[s].root := (s, blocks[s].parent)
  }

  /** The UNIQUE constraint on `live_blocks.root`. */
  predicate DistinctRoots(blocks: map<Slot, BlockRow>) {
    forall a <- blocks, b <- blocks :: blocks[a].root == blocks[b].root ==> a == b
  }

  function Confirmed(blocks: map<Slot, BlockRow>, checkpoint: Root): seq<(Slot, Root)>
    requires DistinctRoots(blocks)
  {
    Walk(ByRootOf(blocks), checkpoint, None)
  }

  /** `recent_blocks` returns the stored rows. */
  ghost predicate Lists(blocks: seq<StoredBlock>, table: map<Slot, BlockRow>) {
    && (forall b <- blocks :: b.slot in table && table[b.slot] == BlockRow(b.root, b.parent))
    && (forall s <- table :: StoredBlock(s, table[s].root, table[s].parent) in blocks)
  }

  /** The index by root that the walk uses. */
  method IndexByRoot(blocks: seq<StoredBlock>, ghost table: map<Slot, BlockRow>) returns (byRoot: ByRoot)
    requires DistinctRoots(table) && Lists(blocks, table)
    ensures byRoot == ByRootOf(table)
  {
    byRoot := map[];
    for i := 0 to |blocks|
      invariant forall r <- byRoot :: r in ByRootOf(table) && byRoot[r] == ByRootOf(table)[r]
      invariant forall k :: 0 <= k < i ==> blocks[k].root in byRoot
    {
      assert blocks[i] in blocks;
      byRoot := byRoot[blocks[i].root := (blocks[i].slot, blocks[i].parent)];
    }
    forall r | r in ByRootOf(table) ensures r in byRoot {
      var s :| s in table && table[s].root == r;
      assert StoredBlock(s, table[s].root, table[s].parent) in blocks;
    }
  }

  method ConfirmedAncestry(blocks: seq<StoredBlock>, root: Root, ghost table: map<Slot, BlockRow>)
    returns (confirmed: seq<(Slot, Root)>)
    requires DistinctRoots(table) && Lists(blocks, table)
    ensures confirmed == Confirmed(table, root) && IsLine(table, root, confirmed)
  {
    var byRoot := IndexByRoot(blocks, table);
    confirmed := FollowParents(byRoot, root);
    ConfirmedIsLine(table, root);
  }

  method FollowParents(byRoot: ByRoot, root: Root) returns (confirmed: seq<(Slot, Root)>)
    ensures confirmed == Walk(byRoot, root, None)
  {
    confirmed := [];
    var cursor := root;
    var child: Option<Slot> := None;
    while cursor in byRoot && (child.None? || byRoot[cursor].0 < child.value)
      invariant confirmed + Walk(byRoot, cursor, child) == Walk(byRoot, root, None)
      decreases if child.Some? then child.value else if cursor in byRoot then byRoot[cursor].0 + 1 else 0
    {
      ghost var (before, here) := (confirmed, Walk(byRoot, cursor, child));
      var (slot, parent) := byRoot[cursor];
      confirmed := confirmed + [(slot, cursor)];
      assert confirmed + Walk(byRoot, parent, Some(slot)) == before + here;
      child := Some(slot);
      cursor := parent;
    }
    assert confirmed + [] == confirmed;
  }

  predicate Stored(blocks: map<Slot, BlockRow>, slot: Slot, root: Root) {
    slot in blocks && blocks[slot].root == root
  }

  /** Each stored block the parent of the one before, at a lower slot. */
  ghost predicate IsChained(blocks: map<Slot, BlockRow>, line: seq<(Slot, Root)>) {
    && (forall i :: 0 <= i < |line| ==> Stored(blocks, line[i].0, line[i].1))
    && (forall i :: 0 < i < |line| ==> line[i].1 == blocks[line[i - 1].0].parent && line[i].0 < line[i - 1].0)
  }

  /** No stored block with this root lies below `limit`. */
  ghost predicate NoneBelow(blocks: map<Slot, BlockRow>, root: Root, limit: Option<Slot>) {
    forall s <- blocks :: (limit.Some? ==> s < limit.value) ==> blocks[s].root != root
  }

  /** From `cursor` down, below `limit`, for as long as parents are stored. */
  ghost predicate IsLineFrom(blocks: map<Slot, BlockRow>, cursor: Root, limit: Option<Slot>, line: seq<(Slot, Root)>) {
    && IsChained(blocks, line)
    && (if line == [] then NoneBelow(blocks, cursor, limit)
        else
          && line[0].1 == cursor && (limit.Some? ==> line[0].0 < limit.value)
          && NoneBelow(blocks, blocks[line[|line| - 1].0].parent, Some(line[|line| - 1].0)))
  }

  /** Stored blocks from the checkpoint down, for as long as parents are stored. */
  ghost predicate IsLine(blocks: map<Slot, BlockRow>, checkpoint: Root, line: seq<(Slot, Root)>) {
    IsLineFrom(blocks, checkpoint, None, line)
  }

  lemma Longer(blocks: map<Slot, BlockRow>, slot: Slot, limit: Option<Slot>, rest: seq<(Slot, Root)>)
    requires slot in blocks && (limit.Some? ==> slot < limit.value)
    requires IsLineFrom(blocks, blocks[slot].parent, Some(slot), rest)
    ensures IsLineFrom(blocks, blocks[slot].root, limit, [(slot, blocks[slot].root)] + rest)
  {
    var line := [(slot, blocks[slot].root)] + rest;
    forall i | 0 <= i < |line| ensures Stored(blocks, line[i].0, line[i].1) {
      if i > 0 { assert line[i] == rest[i - 1]; }
    }
    forall i | 0 < i < |line| ensures line[i].1 == blocks[line[i - 1].0].parent && line[i].0 < line[i - 1].0 {
      assert line[i] == rest[i - 1];
      if i > 1 { assert line[i - 1] == rest[i - 2]; }
    }
  }

  lemma {:induction false} WalkIsLine(blocks: map<Slot, BlockRow>, cursor: Root, child: Option<Slot>)
    requires DistinctRoots(blocks)
    ensures IsLineFrom(blocks, cursor, child, Walk(ByRootOf(blocks), cursor, child))
    decreases if child.Some? then child.value
        else if cursor in ByRootOf(blocks) then ByRootOf(blocks)[cursor].0 + 1 else 0
  {
    var byRoot := ByRootOf(blocks);
    if cursor in byRoot && (child.None? || byRoot[cursor].0 < child.value) {
      var (slot, parent) := byRoot[cursor];
      WalkIsLine(blocks, parent, Some(slot));
      Longer(blocks, slot, child, Walk(byRoot, parent, Some(slot)));
    } else {
      forall s | s in blocks && (child.Some? ==> s < child.value) ensures blocks[s].root != cursor {
        assert blocks[s].root in byRoot && byRoot[blocks[s].root].0 == s;
      }
    }
  }

  lemma ConfirmedIsLine(blocks: map<Slot, BlockRow>, checkpoint: Root)
    requires DistinctRoots(blocks)
    ensures IsLine(blocks, checkpoint, Confirmed(blocks, checkpoint))
  {
    WalkIsLine(blocks, checkpoint, None);
  }

  lemma {:induction false} LinesShare(
    blocks: map<Slot, BlockRow>, checkpoint: Root, a: seq<(Slot, Root)>, b: seq<(Slot, Root)>, n: nat)
    requires DistinctRoots(blocks) && IsLine(blocks, checkpoint, a) && IsLine(blocks, checkpoint, b) && n <= |a|
    ensures n <= |b| && a[..n] == b[..n]
  {
    if n > 0 {
      LinesShare(blocks, checkpoint, a, b, n - 1);
      if n > 1 {
        assert a[n - 2] == a[..n - 1][n - 2] == b[..n - 1][n - 2] == b[n - 2];
      }
      assert Stored(blocks, a[n - 1].0, a[n - 1].1);
      assert n - 1 < |b| && Stored(blocks, b[n - 1].0, b[n - 1].1);
      assert a[n - 1] == b[n - 1];
    }
  }

  /** There is one such line only. */
  lemma LineIsUnique(blocks: map<Slot, BlockRow>, checkpoint: Root, a: seq<(Slot, Root)>, b: seq<(Slot, Root)>)
    requires DistinctRoots(blocks) && IsLine(blocks, checkpoint, a) && IsLine(blocks, checkpoint, b)
    ensures a == b
  {
    LinesShare(blocks, checkpoint, a, b, |a|);
    LinesShare(blocks, checkpoint, b, a, |b|);
  }

  /** A stored parent of a confirmed block, at a lower slot, is confirmed too. */
  lemma ConfirmedIsClosed(blocks: map<Slot, BlockRow>, checkpoint: Root, c: (Slot, Root), parent: Slot)
    requires DistinctRoots(blocks) && c in Confirmed(blocks, checkpoint) && c.0 in blocks
    requires parent in blocks && parent < c.0 && blocks[parent].root == blocks[c.0].parent
    ensures (parent, blocks[parent].root) in Confirmed(blocks, checkpoint)
  {
    ConfirmedIsLine(blocks, checkpoint);
    var line := Confirmed(blocks, checkpoint);
    var i :| 0 <= i < |line| && line[i] == c;
    assert i + 1 < |line|;
    assert Stored(blocks, line[i + 1].0, line[i + 1].1);
    assert line[i + 1] in line;
  }

  /** Lowest confirmed slot: the walk descends, so it is the last one. */
  function FloorOf(confirmed: seq<(Slot, Root)>): Slot
    requires confirmed != []
  {
    confirmed[|confirmed| - 1].0
  }

  function RootsOf(confirmed: seq<(Slot, Root)>): set<Root> {
    set c <- confirmed :: c.1
  }

  /** Stored rows are real blocks of the tree, from any branches and any time. */
  ghost predicate Real(tree: Tree, blocks: map<Slot, BlockRow>) {
    forall s <- blocks :: blocks[s].root in tree && tree[blocks[s].root] == Node(s, blocks[s].parent)
  }

  lemma {:induction false} WalkVisitsAncestors(
    tree: Tree, blocks: map<Slot, BlockRow>, cursor: Root, child: Option<Slot>)
    requires WellFormed(tree) && Real(tree, blocks) && DistinctRoots(blocks)
    ensures var walk := Walk(ByRootOf(blocks), cursor, child);
      forall c <- walk :: c.1 in Ancestors(tree, cursor) && c.0 in blocks && blocks[c.0].root == c.1
    decreases if child.Some? then child.value
        else if cursor in ByRootOf(blocks) then ByRootOf(blocks)[cursor].0 + 1 else 0
  {
    var byRoot := ByRootOf(blocks);
    if cursor in byRoot && (child.None? || byRoot[cursor].0 < child.value) {
      var (slot, parent) := byRoot[cursor];
      assert tree[cursor] == Node(slot, parent);
      WalkVisitsAncestors(tree, blocks, parent, Some(slot));
    }
  }

  lemma {:induction false} WalkMissesNone(
    tree: Tree, blocks: map<Slot, BlockRow>, cursor: Root, child: Option<Slot>, a: Root)
    requires WellFormed(tree) && Real(tree, blocks) && DistinctRoots(blocks)
    requires child.Some? && cursor in tree ==> tree[cursor].slot < child.value
    requires a in Ancestors(tree, cursor)
    ensures var walk := Walk(ByRootOf(blocks), cursor, child);
      a in tree && (walk != [] && tree[a].slot >= FloorOf(walk) ==> (tree[a].slot, a) in walk)
    decreases if child.Some? then child.value
        else if cursor in ByRootOf(blocks) then ByRootOf(blocks)[cursor].0 + 1 else 0
  {
    var byRoot := ByRootOf(blocks);
    AncestorSlots(tree, cursor, a);
    if cursor in byRoot {
      var (slot, parent) := byRoot[cursor];
      assert tree[cursor] == Node(slot, parent);
      var rest := Walk(byRoot, parent, Some(slot));
      var walk := Walk(byRoot, cursor, child);
      assert walk == [(slot, cursor)] + rest;
      if a != cursor {
        WalkMissesNone(tree, blocks, parent, Some(slot), a);
        if rest != [] {
          assert FloorOf(walk) == FloorOf(rest);
        }
      }
    }
  }

  /** The walk visits ancestors only, and every ancestor down to where it stops. */
  lemma WalkIsAncestry(tree: Tree, blocks: map<Slot, BlockRow>, cursor: Root, child: Option<Slot>)
    requires WellFormed(tree) && Real(tree, blocks) && DistinctRoots(blocks)
    requires child.Some? && cursor in tree ==> tree[cursor].slot < child.value
    ensures var walk := Walk(ByRootOf(blocks), cursor, child);
      && (forall c <- walk :: c.1 in Ancestors(tree, cursor) && c.0 in blocks && blocks[c.0].root == c.1)
      && (forall a <- Ancestors(tree, cursor) ::
            a in tree && (walk != [] && tree[a].slot >= FloorOf(walk) ==> (tree[a].slot, a) in walk))
      && (walk == [] <==> cursor !in ByRootOf(blocks))
  {
    WalkVisitsAncestors(tree, blocks, cursor, child);
    forall a | a in Ancestors(tree, cursor) {
      WalkMissesNone(tree, blocks, cursor, child, a);
    }
    if cursor in ByRootOf(blocks) {
      assert tree[cursor].slot == ByRootOf(blocks)[cursor].0;
    }
  }

  /** No ancestor of the checkpoint at or above `a` is missing. */
  ghost predicate Unbroken(tree: Tree, blocks: map<Slot, BlockRow>, checkpoint: Root, a: Root)
    requires WellFormed(tree)
  {
    && a in tree
    && forall x <- Ancestors(tree, checkpoint) ::
        x in tree && (tree[x].slot >= tree[a].slot ==> Stored(blocks, tree[x].slot, x))
  }

  /** Down an unbroken line the walk goes on. */
  lemma {:induction false} WalkReaches(
    tree: Tree, blocks: map<Slot, BlockRow>, checkpoint: Root, cursor: Root, a: Root)
    requires WellFormed(tree) && Real(tree, blocks) && DistinctRoots(blocks)
    requires cursor in Ancestors(tree, checkpoint) && cursor in tree && a in Ancestors(tree, cursor)
    requires Unbroken(tree, blocks, checkpoint, a)
    requires (tree[cursor].slot, cursor) in Confirmed(blocks, checkpoint)
    ensures (tree[a].slot, a) in Confirmed(blocks, checkpoint)
    decreases tree[cursor].slot
  {
    AncestorSlots(tree, cursor, a);
    if a != cursor {
      var parent := tree[cursor].parent;
      AncestorSlots(tree, parent, a);
      AncestorsWithin(tree, checkpoint, cursor);
      assert parent in Ancestors(tree, cursor);
      assert Stored(blocks, tree[parent].slot, parent) && Stored(blocks, tree[cursor].slot, cursor);
      ConfirmedIsClosed(blocks, checkpoint, (tree[cursor].slot, cursor), tree[parent].slot);
      WalkReaches(tree, blocks, checkpoint, parent, a);
    }
  }

  /** An ancestor of the checkpoint is confirmed if and only if every block between them is stored, itself included. */
  lemma ConfirmedIffUnbroken(tree: Tree, blocks: map<Slot, BlockRow>, checkpoint: Root, a: Root)
    requires WellFormed(tree) && Real(tree, blocks) && DistinctRoots(blocks)
    requires a in Ancestors(tree, checkpoint) && a in tree
    ensures (tree[a].slot, a) in Confirmed(blocks, checkpoint) <==> Unbroken(tree, blocks, checkpoint, a)
  {
    var line := Confirmed(blocks, checkpoint);
    AncestorSlots(tree, checkpoint, a);
    if Unbroken(tree, blocks, checkpoint, a) {
      assert Stored(blocks, tree[checkpoint].slot, checkpoint);
      ConfirmedIsLine(blocks, checkpoint);
      assert line != [] && Stored(blocks, line[0].0, line[0].1) && line[0] in line;
      WalkReaches(tree, blocks, checkpoint, checkpoint, a);
    }
    if (tree[a].slot, a) in line {
      WalkIsAncestry(tree, blocks, checkpoint, None);
      FloorBelow(blocks, checkpoint, (tree[a].slot, a));
      forall x | x in Ancestors(tree, checkpoint) && tree[x].slot >= tree[a].slot
        ensures Stored(blocks, tree[x].slot, x)
      {
        assert (tree[x].slot, x) in line;
      }
    }
  }

  lemma {:induction false} LineDescends(blocks: map<Slot, BlockRow>, checkpoint: Root, i: nat, j: nat)
    requires DistinctRoots(blocks) && i <= j < |Confirmed(blocks, checkpoint)|
    ensures Confirmed(blocks, checkpoint)[j].0 <= Confirmed(blocks, checkpoint)[i].0
  {
    ConfirmedIsLine(blocks, checkpoint);
    if i < j {
      LineDescends(blocks, checkpoint, i, j - 1);
    }
  }

  lemma FloorBelow(blocks: map<Slot, BlockRow>, checkpoint: Root, c: (Slot, Root))
    requires DistinctRoots(blocks) && c in Confirmed(blocks, checkpoint)
    ensures FloorOf(Confirmed(blocks, checkpoint)) <= c.0
  {
    var line := Confirmed(blocks, checkpoint);
    var i :| 0 <= i < |line| && line[i] == c;
    LineDescends(blocks, checkpoint, i, |line| - 1);
  }

  // ---- Slot truth ----

  /** The parameters a promotion is run with for a confirmed checkpoint. */
  ghost predicate ConfirmedParams(t: Tables, p: Params, checkpoint: Root) {
    && DistinctRoots(t.blocks)
    && var confirmed := Confirmed(t.blocks, checkpoint);
       confirmed != [] && p.floor == FloorOf(confirmed) && p.roots == RootsOf(confirmed)
  }

  /** Slot evidence decides rightly: present exactly when the checkpoint's chain has a block there. */
  lemma SlotEvidenceIsTrue(
    spec: Spec, tree: Tree, t: Tables, p: Params, checkpoint: Root, owner: Validator, slot: Slot, present: bool)
    requires WellFormed(tree) && Real(tree, t.blocks) && ConfirmedParams(t, p, checkpoint)
    requires SlotEvidence(spec, t, p, owner, slot, present)
    ensures present <==> Occupied(tree, checkpoint, slot)
  {
    WalkIsAncestry(tree, t.blocks, checkpoint, None);
    var confirmed := Confirmed(t.blocks, checkpoint);
    if present {
      var root := t.blocks[slot].root;
      var c :| c in confirmed && c.1 == root;
      assert tree[root].slot == slot && root in Ancestors(tree, checkpoint);
    }
  }

  /** A proposal row frozen by the slot-evidence pass tells the truth, whatever is stored. */
  lemma FrozenProposalsAreTrue(spec: Spec, tree: Tree, t: Tables, p: Params, checkpoint: Root, s: Slot)
    requires WellFormed(tree) && Real(tree, t.blocks) && ConfirmedParams(t, p, checkpoint)
    requires s in t.proposals && !t.proposals[s].finalized
    requires s in FlagsSettled(spec, t, p).proposals && FlagsSettled(spec, t, p).proposals[s].finalized
    ensures FlagsSettled(spec, t, p).proposals[s].proposed <==> Occupied(tree, checkpoint, s)
  {
    FlagsSettledProposal(spec, t, p, s);
    SlotEvidenceIsTrue(spec, tree, t, p, checkpoint, t.proposals[s].proposer, s, t.proposals[s].proposed);
  }

  /** Likewise a sync row: it is marked missed exactly when the chain skipped the slot. */
  lemma FrozenSyncsAreTrue(spec: Spec, tree: Tree, t: Tables, p: Params, checkpoint: Root, k: (Validator, Slot))
    requires WellFormed(tree) && Real(tree, t.blocks) && ConfirmedParams(t, p, checkpoint)
    requires k in t.syncs && !t.syncs[k].finalized
    requires k in FlagsSettled(spec, t, p).syncs && FlagsSettled(spec, t, p).syncs[k].finalized
    ensures FlagsSettled(spec, t, p).syncs[k].missedBlock <==> !Occupied(tree, checkpoint, k.1)
  {
    FlagsSettledSync(spec, t, p, k);
    SlotEvidenceIsTrue(spec, tree, t, p, checkpoint, k.0, k.1, !t.syncs[k].missedBlock);
  }

  /**
   * Every later head agrees: if the checkpoint is the last block of its chain at or before the epoch
   * start, then before that start a descendant's chain is occupied exactly where the checkpoint's is.
   */
  lemma DescendantsAgree(tree: Tree, head: Root, checkpoint: Root, start: Slot, slot: Slot)
    requires WellFormed(tree) && checkpoint in tree && checkpoint in Ancestors(tree, head)
    requires forall a <- Ancestors(tree, head) ::
      a in tree && (tree[a].slot > tree[checkpoint].slot ==> tree[a].slot > start)
    requires slot < start
    ensures Occupied(tree, head, slot) <==> Occupied(tree, checkpoint, slot)
  {
    AncestorSlots(tree, head, checkpoint);
    AncestorsWithin(tree, head, checkpoint);
    if Occupied(tree, head, slot) {
      var a :| a in Ancestors(tree, head) && a in tree && tree[a].slot == slot;
      AncestorsNest(tree, head, checkpoint, a);
    }
  }

  // ---- The ready loop does not look at the slots again ----

  predicate AgreesWithBlocks(t: Tables, p: Params, slot: Slot, present: bool) {
    if present then BlockConfirmed(t, p, slot) else slot !in t.blocks
  }

  /**
   * For a proposal of a ready pair, slot evidence was there exactly when the flag agrees with the stored
   * block; otherwise the ready loop freezes the row without evidence.
   */
  lemma ReadyRowHasEvidenceIffItAgrees(spec: Spec, t: Tables, p: Params, k: Pair, s: Slot)
    requires k in t.attestations && k in ReadyPairs(spec, t, p) && p.target < p.finalizedEpoch
    requires s in t.proposals && t.proposals[s].proposer == k.0 && EpochOf(spec, s) == k.1
    ensures var row := t.proposals[s];
      SlotEvidence(spec, t, p, row.proposer, s, row.proposed) <==> AgreesWithBlocks(t, p, s, row.proposed)
  {
    EpochOfBounds(spec, s, k.1);
    CountMeansEverySlot(spec, t, k);
    EpochStartMonotone(spec, k.1 + 1, k.1 + 2);
  }

  /** From the floor of the confirmed walk on, the chain has a block exactly where a confirmed one is stored. */
  lemma StoredBlockDecides(tree: Tree, t: Tables, p: Params, checkpoint: Root, slot: Slot)
    requires WellFormed(tree) && Real(tree, t.blocks) && ConfirmedParams(t, p, checkpoint) && slot >= p.floor
    ensures BlockConfirmed(t, p, slot) <==> Occupied(tree, checkpoint, slot)
  {
    WalkIsAncestry(tree, t.blocks, checkpoint, None);
    var confirmed := Confirmed(t.blocks, checkpoint);
    if BlockConfirmed(t, p, slot) {
      var c :| c in confirmed && c.1 == t.blocks[slot].root;
      assert tree[c.1].slot == slot && c.1 in Ancestors(tree, checkpoint);
    }
    if Occupied(tree, checkpoint, slot) {
      var a :| a in Ancestors(tree, checkpoint) && a in tree && tree[a].slot == slot;
      assert (slot, a) in confirmed;
    }
  }

  /** Whatever froze it, a row that a promotion has just made final lies at or past the floor. */
  lemma FrozenPastFloor(spec: Spec, t: Tables, p: Params, settled: Tables, after: Tables)
    requires SettledFrom(spec, t, p, settled) && CompletedFrom(spec, settled, ReadyPairs(spec, settled, p), after)
    ensures forall s <- t.proposals ::
      after.proposals[s].proposed == t.proposals[s].proposed
      && (!t.proposals[s].finalized && after.proposals[s].finalized ==> s >= p.floor)
    ensures forall k: (Validator, Slot) <- t.syncs ::
      after.syncs[k].missedBlock == t.syncs[k].missedBlock
      && (!t.syncs[k].finalized && after.syncs[k].finalized ==> k.1 >= p.floor)
  {
    forall s | s in t.proposals
      ensures after.proposals[s].proposed == t.proposals[s].proposed
      ensures !t.proposals[s].finalized && after.proposals[s].finalized ==> s >= p.floor
    {
      assert settled.proposals[s] == SettledProposal(spec, t, p, s);
      EpochOfBounds(spec, s, EpochOf(spec, s));
    }
    forall k: (Validator, Slot) | k in t.syncs
      ensures after.syncs[k].missedBlock == t.syncs[k].missedBlock
      ensures !t.syncs[k].finalized && after.syncs[k].finalized ==> k.1 >= p.floor
    {
      assert settled.syncs[k] == SettledSync(spec, t, p, k);
      EpochOfBounds(spec, k.1, EpochOf(spec, k.1));
    }
  }

  /**
   * A proposal row that a promotion freezes, by slot evidence or in the ready loop, tells the truth if and only if its
   * flag agrees with whether a confirmed block is stored in its slot.
   */
  lemma FrozenProposalIsTrueIff(spec: Spec, tree: Tree, t: Tables, p: Params, checkpoint: Root, s: Slot)
    requires WellFormed(tree) && Real(tree, t.blocks) && ConfirmedParams(t, p, checkpoint)
    requires s in t.proposals && !t.proposals[s].finalized
    requires s in Promoted(spec, t, p).proposals && Promoted(spec, t, p).proposals[s].finalized
    ensures (Promoted(spec, t, p).proposals[s].proposed <==> Occupied(tree, checkpoint, s))
       <==> (t.proposals[s].proposed <==> BlockConfirmed(t, p, s))
  {
    var settled := PromotedRows(spec, t, p);
    FrozenPastFloor(spec, t, p, settled, Promoted(spec, t, p));
    StoredBlockDecides(tree, t, p, checkpoint, s);
  }

  /** Likewise a sync row. */
  lemma FrozenSyncIsTrueIff(spec: Spec, tree: Tree, t: Tables, p: Params, checkpoint: Root, k: (Validator, Slot))
    requires WellFormed(tree) && Real(tree, t.blocks) && ConfirmedParams(t, p, checkpoint)
    requires k in t.syncs && !t.syncs[k].finalized
    requires k in Promoted(spec, t, p).syncs && Promoted(spec, t, p).syncs[k].finalized
    ensures (Promoted(spec, t, p).syncs[k].missedBlock <==> !Occupied(tree, checkpoint, k.1))
       <==> (t.syncs[k].missedBlock <==> !BlockConfirmed(t, p, k.1))
  {
    var settled := PromotedRows(spec, t, p);
    FrozenPastFloor(spec, t, p, settled, Promoted(spec, t, p));
    StoredBlockDecides(tree, t, p, checkpoint, k.1);
  }
}
