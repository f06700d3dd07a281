/**
 * How the consistency of live evidence carries over: to a longer chain, through a rollback, past every other statement.
 */
module Consistency {
  import opened Chain
  import opened Attestations
  import opened Rows
  import opened Outcome
  import opened Tables
  import opened LiveScan
  import opened LiveSlot
  import opened SlotScan
  import opened Reorg

  // ---- What two chains show alike ----

  /** Both branches answer alike about pair `k`. */
  ghost predicate SameFor(a: Inputs, b: Inputs, k: Pair) {
    a.spec == b.spec && Lookup(a.duties, k) == Lookup(b.duties, k)
        && Lookup(a.committees, k.1) == Lookup(b.committees, k.1)
  }

  /** A block votes only for epochs that have begun by then. */
  lemma ObservedEpochHasBegun(inputs: Inputs, chain: Canonical, k: Pair, s: Slot)
    requires VotesPrecedeBlocks(chain) && Observation(inputs, chain, k, s).Some?
    ensures EpochStart(inputs.spec, k.1) < s
  {
    var view := EpochView(inputs.spec, k.1, inputs.committees[k.1]);
    FirstVoteFacts(view, chain[s].attestations, k.0);
    var att :| att in chain[s].attestations && CarriesVote(view, att, k.0);
    EpochOfBounds(inputs.spec, att.data.slot, k.1);
    assert att.data.slot < s;
  }

  /** A block shows the same on every chain that agrees up to it. */
  lemma SharedObservation(a: Inputs, b: Inputs, before: Canonical, after: Canonical, k: Pair, s: Slot, m: Slot)
    requires SameFor(a, b, k) && AgreeBefore(before, after, m + 1) && s <= m && VotesPrecedeBlocks(before)
    ensures Observation(a, before, k, s) == Observation(b, after, k, s)
  {
    assert Lookup(before, s) == Lookup(after, s);
    if Observation(a, before, k, s).Some? {
      var view := EpochView(a.spec, k.1, a.committees[k.1]);
      ObservedEpochHasBegun(a, before, k, s);
      SameCounts(before, after, m + 1, a.duties[k].slot + 1, s + 1);
      SameRoots(before, after, m + 1, EpochStart(a.spec, k.1));
      FirstVoteFacts(view, before[s].attestations, k.0);
      var vote := FirstVote(view, before[s].attestations, k.0).value;
      assert vote.slot < s;
      SameRoots(before, after, m + 1, vote.slot);
    }
  }

  lemma FollowedRow(
    a: Inputs, b: Inputs, before: Canonical, after: Canonical, m: Slot, k: Pair, row: AttestationRow)
    requires SameFor(a, b, k) && AgreeBefore(before, after, m + 1) && VotesPrecedeBlocks(before)
    requires Explained(a, before, k, row)
    requires RowRestsOn(row, m)
    ensures Explained(b, after, k, row)
  {
    if !row.finalized && row.details != NO_DETAILS {
      var s: Slot :| s < EpochStart(a.spec, k.1 + 2) && IsSeen(a, before, k, s, row);
      SharedObservation(a, b, before, after, k, s, m);
      assert IsSeen(b, after, k, s, row);
    }
  }

  // ---- A longer or filled chain ----

  predicate RowRestsOn(row: AttestationRow, m: Slot) {
    !row.finalized && row.details.inclusionSlot.Some? ==> row.details.inclusionSlot.value <= m
  }

  /** Evidence past `m` comes from skipped slots only. */
  ghost predicate RestsOn(inputs: Inputs, before: Canonical, m: Slot, t: Tables) {
    && (forall k <- inputs.duties :: k in t.attestations ==> RowRestsOn(t.attestations[k], m))
    && (forall c <- t.coverage :: c.1 > m ==> c.1 !in before)
    && (forall s <- t.proposals :: !t.proposals[s].finalized && s > m ==> s !in before)
    && (forall k: (Validator, Slot) <- t.syncs :: !t.syncs[k].finalized && k.1 > m ==> k.1 !in before)
  }

  /** The outcome of `k` is still open to earlier votes: no row, or a provisional one that shows no inclusion. */
  predicate StillOpen(t: Tables, k: Pair) {
    k in t.attestations ==> !t.attestations[k].finalized && !t.attestations[k].details.included
  }

  /**
   * No slot past `m` that was taken for skipped now holds a block that matters: none with a provisional proposal
   * or sync row, and no covered one whose block carries the vote of a duty that is still open.
   */
  ghost predicate NothingFilled(inputs: Inputs, after: Canonical, m: Slot, t: Tables) {
    && (forall s <- t.proposals :: !t.proposals[s].finalized && s > m ==> s !in after)
    && (forall k: (Validator, Slot) <- t.syncs :: !t.syncs[k].finalized && k.1 > m ==> k.1 !in after)
    && (forall k <- inputs.duties, s: Slot :: (k.0, s) in t.coverage && s > m ==> NothingNew(inputs, after, k, s, t))
  }

  /** The block at `s` carries no vote that could still count for `k`. */
  ghost predicate NothingNew(inputs: Inputs, chain: Canonical, k: Pair, s: Slot, t: Tables) {
    s < EpochStart(inputs.spec, k.1 + 2) && StillOpen(t, k) ==> Observation(inputs, chain, k, s).None?
  }

  /** A later block changes nothing unless the outcome is still open. */
  lemma LateVote(inputs: Inputs, chain: Canonical, k: Pair, s: Slot, m: Slot, t: Tables)
    requires k in t.attestations ==> Explained(inputs, chain, k, t.attestations[k]) && RowRestsOn(t.attestations[k], m)
    requires s > m
    ensures Accounted(inputs, chain, k, s, Lookup(t.attestations, k)) <==> NothingNew(inputs, chain, k, s, t)
  {
  }

  ghost predicate NoLaterThan(tip: Slot, t: Tables) {
    && (forall c <- t.coverage :: c.1 <= tip)
    && (forall s <- t.proposals :: !t.proposals[s].finalized ==> s <= tip)
    && (forall k: (Validator, Slot) <- t.syncs :: !t.syncs[k].finalized ==> k.1 <= tip)
  }

  /** The pairs that provisional evidence speaks of have the same answers on both branches. */
  ghost predicate SameWhereItMatters(a: Inputs, b: Inputs, after: Canonical, t: Tables) {
    && a.spec == b.spec
    && (forall k <- b.duties :: k in t.attestations && !t.attestations[k].finalized ==> SameFor(a, b, k))
    && (forall k <- b.duties, s: Slot :: (k.0, s) in t.coverage && Observation(b, after, k, s).Some? ==>
          SameFor(a, b, k))
  }

  lemma FollowedRows(a: Inputs, b: Inputs, before: Canonical, after: Canonical, m: Slot, tip: Slot, t: Tables)
    requires LiveConsistent(a, before, tip, t) && AgreeBefore(before, after, m + 1)
    requires RestsOn(b, before, m, t) && SameWhereItMatters(a, b, after, t)
    ensures RowsExplained(b, after, t.attestations)
  {
    forall k | k in b.duties && k in t.attestations ensures Explained(b, after, k, t.attestations[k]) {
      if !t.attestations[k].finalized {
        assert SameFor(a, b, k);
        assert Lookup(a.duties, k).Some?;
        FollowedRow(a, b, before, after, m, k, t.attestations[k]);
      }
    }
  }

  lemma FollowedCoverage(
    a: Inputs, b: Inputs, before: Canonical, after: Canonical, m: Slot, tip: Slot, t: Tables, k: Pair, s: Slot)
    requires LiveConsistent(a, before, tip, t) && AgreeBefore(before, after, m + 1)
    requires SameWhereItMatters(a, b, after, t) && s <= m && k in b.duties && (k.0, s) in t.coverage
    ensures Accounted(b, after, k, s, Lookup(t.attestations, k))
  {
    if Observation(b, after, k, s).Some? {
      assert SameFor(a, b, k);
      assert Lookup(a.duties, k).Some?;
      SharedObservation(a, b, before, after, k, s, m);
      assert Accounted(a, before, k, s, Lookup(t.attestations, k));
    }
  }

  lemma FollowedFlags(before: Canonical, after: Canonical, inputs: Inputs, m: Slot, tip: Slot, tip': Slot, t: Tables)
    requires FlagsTrue(before, tip, t.proposals, t.syncs) && AgreeBefore(before, after, m + 1)
    requires RestsOn(inputs, before, m, t) && NoLaterThan(tip', t)
    ensures FlagsTrue(after, tip', t.proposals, t.syncs) <==>
      && (forall s <- t.proposals :: !t.proposals[s].finalized && s > m ==> s !in after)
      && (forall k: (Validator, Slot) <- t.syncs :: !t.syncs[k].finalized && k.1 > m ==> k.1 !in after)
  {
    forall s: Slot | s <= m ensures s in before <==> s in after {
      assert Lookup(before, s) == Lookup(after, s);
    }
  }

  /**
   * Evidence consistent with one chain, on another chain that agrees with it up to `m`: it is consistent with
   * that one too if and only if no slot past `m` that was taken for skipped now holds a block that matters.
   */
  lemma ConsistencyFollows(
    a: Inputs, b: Inputs, before: Canonical, after: Canonical, m: Slot, tip: Slot, tip': Slot, t: Tables)
    requires LiveConsistent(a, before, tip, t) && AgreeBefore(before, after, m + 1)
    requires RestsOn(b, before, m, t) && SameWhereItMatters(a, b, after, t)
    requires WellFormedScan(b, after) && DutiesActive(b, t.validators)
    requires (forall s <- after :: s <= tip') && NoLaterThan(tip', t)
    ensures LiveConsistent(b, after, tip', t) <==> NothingFilled(b, after, m, t)
  {
    FollowedRows(a, b, before, after, m, tip, t);
    FollowedFlags(before, after, b, m, tip, tip', t);
    forall k, s: Slot | k in b.duties && (k.0, s) in t.coverage && s <= m
      ensures Accounted(b, after, k, s, Lookup(t.attestations, k))
    {
      FollowedCoverage(a, b, before, after, m, tip, t, k, s);
    }
    forall k, s: Slot | k in b.duties && (k.0, s) in t.coverage && s > m
      ensures Accounted(b, after, k, s, Lookup(t.attestations, k)) <==> NothingNew(b, after, k, s, t)
    {
      LateVote(b, after, k, s, m, t);
    }
    FollowedParts(b, after, m, tip', t);
  }

  /** What is left to ask once the rows, and coverage up to `m`, are known to agree. */
  lemma FollowedParts(b: Inputs, after: Canonical, m: Slot, tip': Slot, t: Tables)
    requires RowsExplained(b, after, t.attestations)
    requires WellFormedScan(b, after) && DutiesActive(b, t.validators)
    requires (forall s <- after :: s <= tip') && NoLaterThan(tip', t)
    requires FlagsTrue(after, tip', t.proposals, t.syncs) <==>
      && (forall s <- t.proposals :: !t.proposals[s].finalized && s > m ==> s !in after)
      && (forall k: (Validator, Slot) <- t.syncs :: !t.syncs[k].finalized && k.1 > m ==> k.1 !in after)
    requires forall k <- b.duties, s: Slot :: (k.0, s) in t.coverage && s <= m ==>
      Accounted(b, after, k, s, Lookup(t.attestations, k))
    requires forall k <- b.duties, s: Slot :: (k.0, s) in t.coverage && s > m ==>
      (Accounted(b, after, k, s, Lookup(t.attestations, k)) <==> NothingNew(b, after, k, s, t))
    ensures LiveConsistent(b, after, tip', t) <==> NothingFilled(b, after, m, t)
  {
  }

  /** As the head grows on one branch, its evidence stays consistent poll after poll. */
  lemma ConsistencyGrows(inputs: Inputs, before: Canonical, after: Canonical, tip: Slot, tip': Slot, t: Tables)
    requires LiveConsistent(inputs, before, tip, t) && AgreeBefore(before, after, tip + 1) && tip <= tip'
    requires WellFormedScan(inputs, after) && forall s <- after :: s <= tip'
    ensures LiveConsistent(inputs, after, tip', t)
  {
    forall k | k in inputs.duties && k in t.attestations ensures RowRestsOn(t.attestations[k], tip) {
      var row := t.attestations[k];
      if !row.finalized && row.details != NO_DETAILS {
        var s: Slot :| s < EpochStart(inputs.spec, k.1 + 2) && IsSeen(inputs, before, k, s, row);
        assert s in before;
      }
    }
    ConsistencyFollows(inputs, inputs, before, after, tip, tip, tip', t);
  }

  // ---- A rollback ----

  /** Assignments of an epoch are settled by blocks two epochs before its window ends. */
  ghost predicate SameInputsBefore(a: Inputs, b: Inputs, boundary: Slot) {
    a.spec == b.spec && forall k: Pair :: EpochStart(a.spec, k.1 + 2) <= boundary ==> SameFor(a, b, k)
  }

  /** Start of the epoch of the first changed slot: how far back the branches must agree. */
  function Boundary(spec: Spec, changed: Slot): Slot {
    EpochStart(spec, EpochOf(spec, changed))
  }

  /** A vote in a block before the replay start is for an epoch before the replayed ones. */
  lemma ObservedIsEarly(inputs: Inputs, chain: Canonical, changed: Slot, k: Pair, s: Slot)
    requires VotesPrecedeBlocks(chain) && Observation(inputs, chain, k, s).Some?
    requires s < ReorgReplayStart(inputs.spec, changed)
    ensures k.1 < EpochOf(inputs.spec, ReorgReplayStart(inputs.spec, changed))
    ensures EpochStart(inputs.spec, k.1 + 2) <= Boundary(inputs.spec, changed)
  {
    ObservedEpochHasBegun(inputs, chain, k, s);
    ReplayStartsBefore(inputs.spec, changed);
    EpochOfBounds(inputs.spec, s, EpochOf(inputs.spec, ReorgReplayStart(inputs.spec, changed)));
    EpochOfBounds(inputs.spec, s, k.1);
    EarlyEpoch(inputs.spec, changed, k.1);
  }

  function LeftAfter(spec: Spec, t: Tables, changed: Slot): Tables {
    InvalidatedFrom(spec, t, ReorgReplayStart(spec, changed))
  }

  /** What a rollback leaves on the same chain is still accounted for. */
  lemma LeftCoverage(inputs: Inputs, chain: Canonical, tip: Slot, t: Tables, changed: Slot, k: Pair, s: Slot)
    requires LiveConsistent(inputs, chain, tip, t) && k in inputs.duties
    requires (k.0, s) in t.coverage && s < ReorgReplayStart(inputs.spec, changed)
    ensures Accounted(inputs, chain, k, s, Lookup(LeftAfter(inputs.spec, t, changed).attestations, k))
  {
    assert Accounted(inputs, chain, k, s, Lookup(t.attestations, k));
    if Observation(inputs, chain, k, s).Some? {
      ObservedIsEarly(inputs, chain, changed, k, s);
      RowIsLeft(inputs.spec, t, changed, k);
    }
  }

  lemma RowIsLeft(spec: Spec, t: Tables, changed: Slot, k: Pair)
    requires k.1 < EpochOf(spec, ReorgReplayStart(spec, changed))
    ensures Lookup(LeftAfter(spec, t, changed).attestations, k) == Lookup(t.attestations, k)
  {
  }

  lemma LeftIsConsistent(inputs: Inputs, chain: Canonical, tip: Slot, t: Tables, changed: Slot)
    requires LiveConsistent(inputs, chain, tip, t)
    ensures LiveConsistent(inputs, chain, tip, LeftAfter(inputs.spec, t, changed))
  {
    var left := LeftAfter(inputs.spec, t, changed);
    forall k, s: Slot | k in inputs.duties && (k.0, s) in left.coverage
      ensures Accounted(inputs, chain, k, s, Lookup(left.attestations, k))
    {
      LeftCoverage(inputs, chain, tip, t, changed, k, s);
    }
  }

  lemma LeftMatters(a: Inputs, b: Inputs, after: Canonical, t: Tables, changed: Slot)
    requires SameInputsBefore(a, b, Boundary(a.spec, changed)) && VotesPrecedeBlocks(after)
    ensures SameWhereItMatters(a, b, after, LeftAfter(a.spec, t, changed))
  {
    var left := LeftAfter(a.spec, t, changed);
    forall k | k in b.duties && k in left.attestations && !left.attestations[k].finalized ensures SameFor(a, b, k) {
      EarlyEpoch(a.spec, changed, k.1);
    }
    forall k, s: Slot | k in b.duties && (k.0, s) in left.coverage && Observation(b, after, k, s).Some?
      ensures SameFor(a, b, k)
    {
      ObservedIsEarly(b, after, changed, k, s);
    }
  }

  /**
   * After a rollback the evidence left is consistent with the new branch if and only if no slot it still covers,
   * past the last block both branches share, was taken for skipped and now holds a block that matters.
   */
  lemma RollbackFollows(
    a: Inputs, b: Inputs, before: Canonical, after: Canonical, m: Slot, tip: Slot, tip': Slot, t: Tables, changed: Slot)
    requires LiveConsistent(a, before, tip, t) && AgreeBefore(before, after, m + 1)
    requires SameInputsBefore(a, b, Boundary(a.spec, changed)) && WellFormedScan(b, after)
    requires DutiesActive(b, t.validators)
    requires RestsOn(b, before, m, LeftAfter(a.spec, t, changed))
    requires (forall s <- after :: s <= tip') && NoLaterThan(tip', LeftAfter(a.spec, t, changed))
    ensures LiveConsistent(b, after, tip', LeftAfter(a.spec, t, changed))
       <==> NothingFilled(b, after, m, LeftAfter(a.spec, t, changed))
  {
    LeftIsConsistent(a, before, tip, t, changed);
    LeftMatters(a, b, after, t, changed);
    ConsistencyFollows(a, b, before, after, m, tip, tip', LeftAfter(a.spec, t, changed));
  }

  lemma LeftRowRestsOn(a: Inputs, b: Inputs, before: Canonical, tip: Slot, t: Tables, changed: Slot, m: Slot, k: Pair)
    requires LiveConsistent(a, before, tip, t) && SameInputsBefore(a, b, Boundary(a.spec, changed))
    requires m + 1 == Boundary(a.spec, changed) && k in b.duties && k in LeftAfter(a.spec, t, changed).attestations
    ensures RowRestsOn(LeftAfter(a.spec, t, changed).attestations[k], m)
  {
    var row := t.attestations[k];
    if !row.finalized && row.details != NO_DETAILS {
      EarlyEpoch(a.spec, changed, k.1);
      assert SameFor(a, b, k) && Lookup(a.duties, k).Some?;
      var s: Slot :| s < EpochStart(a.spec, k.1 + 2) && IsSeen(a, before, k, s, row);
    }
  }

  /** Coverage and provisional slot rows up to `m`. */
  ghost predicate SlotsUpTo(m: Slot, t: Tables) {
    && (forall c <- t.coverage :: c.1 <= m)
    && (forall s <- t.proposals :: !t.proposals[s].finalized ==> s <= m)
    && (forall k: (Validator, Slot) <- t.syncs :: !t.syncs[k].finalized ==> k.1 <= m)
  }

  lemma LeftUpTo(spec: Spec, t: Tables, changed: Slot, m: Slot)
    requires m + 1 == Boundary(spec, changed)
    ensures SlotsUpTo(m, LeftAfter(spec, t, changed))
  {
    EpochStartMonotone(spec, SaturatingSub(EpochOf(spec, changed), 1), EpochOf(spec, changed));
  }

  lemma LeftRestsOn(a: Inputs, b: Inputs, before: Canonical, tip: Slot, t: Tables, changed: Slot, m: Slot)
    requires LiveConsistent(a, before, tip, t) && SameInputsBefore(a, b, Boundary(a.spec, changed))
    requires m + 1 == Boundary(a.spec, changed)
    ensures RestsOn(b, before, m, LeftAfter(a.spec, t, changed)) && SlotsUpTo(m, LeftAfter(a.spec, t, changed))
  {
    LeftUpTo(a.spec, t, changed, m);
    forall k | k in b.duties && k in LeftAfter(a.spec, t, changed).attestations
      ensures RowRestsOn(LeftAfter(a.spec, t, changed).attestations[k], m)
    {
      LeftRowRestsOn(a, b, before, tip, t, changed, m, k);
    }
  }

  /** Nothing past `m` is spoken of, so nothing there can have been filled. */
  lemma NothingPast(inputs: Inputs, after: Canonical, m: Slot, t: Tables)
    requires SlotsUpTo(m, t)
    ensures NothingFilled(inputs, after, m, t)
  {
  }

  /**
   * Evidence consistent with one branch is, after the rollback, consistent with any branch that agrees with it
   * before the epoch of the first changed slot.
   */
  lemma RollbackRestores(
    a: Inputs, b: Inputs, before: Canonical, after: Canonical, tip: Slot, tip': Slot, t: Tables, changed: Slot)
    requires LiveConsistent(a, before, tip, t) && WellFormedScan(b, after) && DutiesActive(b, t.validators)
    requires SameInputsBefore(a, b, Boundary(a.spec, changed)) && AgreeBefore(before, after, Boundary(a.spec, changed))
    requires (forall s <- after :: s <= tip') && ReorgReplayStart(a.spec, changed) <= tip' + 1
    ensures LiveConsistent(b, after, tip', LeftAfter(a.spec, t, changed))
  {
    var left := LeftAfter(a.spec, t, changed);
    assert NoLaterThan(tip', left);
    if Boundary(a.spec, changed) == 0 {
      NothingLeft(b, after, tip', t, changed);
    } else {
      var m := Boundary(a.spec, changed) - 1;
      LeftRestsOn(a, b, before, tip, t, changed, m);
      RollbackFollows(a, b, before, after, m, tip, tip', t, changed);
      NothingPast(b, after, m, left);
    }
  }

  /** A change in the first epoch leaves nothing provisional at all. */
  lemma NothingLeft(inputs: Inputs, chain: Canonical, tip: Slot, t: Tables, changed: Slot)
    requires Boundary(inputs.spec, changed) == 0 && WellFormedScan(inputs, chain) && DutiesActive(inputs, t.validators)
    requires forall s <- chain :: s <= tip
    ensures LiveConsistent(inputs, chain, tip, LeftAfter(inputs.spec, t, changed))
  {
    ReplayStartsBefore(inputs.spec, changed);
    EpochStartMonotone(inputs.spec, 0, EpochOf(inputs.spec, changed));
    assert EpochOf(inputs.spec, changed) == 0;
  }
}
