/** What one promotion does to each row, and what running it again does: nothing. */
module Settling {
  import opened Chain
  import opened Rows
  import opened Tables
  import opened Promotion

  // ---- One row through the statements before the completion query ----

  function ReplayedRow(t: Tables, p: Params, k: Pair): AttestationRow
    requires k in t.attestations
  {
    var staged := StagedTotals(t, p, k);
    if staged.Some? then RewardJoined(t.attestations[k], staged.value) else t.attestations[k]
  }

  /** This promotion proves the outcome: by a confirmed inclusion block, or by a full window. */
  predicate Proven(spec: Spec, t: Tables, p: Params, k: Pair)
    requires k in t.attestations
  {
    InclusionConfirmed(t, p, k) || WindowProven(spec, t, p, k)
  }

  /** Rewards replayed; "known" and "finalized" set together, exactly on proof. */
  function SettledAttestation(spec: Spec, t: Tables, p: Params, k: Pair): AttestationRow
    requires k in t.attestations
  {
    var row := ReplayedRow(t, p, k);
    if Proven(spec, t, p, k) then row.(inclusionKnown := true, finalized := true) else row
  }

  function SettledProposal(spec: Spec, t: Tables, p: Params, s: Slot): ProposalRow
    requires s in t.proposals
  {
    var row, staged := t.proposals[s], StagedProposal(spec, t, p, s);
    row.(rewards := if staged.Some? then staged.value else row.rewards,
         finalized := row.finalized || SlotEvidence(spec, t, p, row.proposer, s, row.proposed))
  }

  function SettledSync(spec: Spec, t: Tables, p: Params, k: (Validator, Slot)): SyncRow
    requires k in t.syncs
  {
    var row, staged := t.syncs[k], StagedSync(spec, t, p, k);
    row.(reward := if staged.Some? then staged else row.reward,
         finalized := row.finalized || SlotEvidence(spec, t, p, k.0, k.1, !row.missedBlock))
  }

  /** `after` is `t` with every row settled and nothing else changed. */
  ghost predicate SettledFrom(spec: Spec, t: Tables, p: Params, after: Tables) {
    && after == t.(attestations := after.attestations, proposals := after.proposals, syncs := after.syncs)
    && after.attestations.Keys == t.attestations.Keys
    && after.proposals.Keys == t.proposals.Keys
    && after.syncs.Keys == t.syncs.Keys
    && (forall k <- t.attestations :: after.attestations[k] == SettledAttestation(spec, t, p, k))
    && (forall s <- t.proposals :: after.proposals[s] == SettledProposal(spec, t, p, s))
    && (forall k <- t.syncs :: after.syncs[k] == SettledSync(spec, t, p, k))
  }

  lemma FlagsSettledRow(spec: Spec, t: Tables, p: Params, k: Pair)
    requires k in t.attestations
    ensures k in FlagsSettled(spec, t, p).attestations
    ensures FlagsSettled(spec, t, p).attestations[k] == SettledAttestation(spec, t, p, k)
  {
    var t3 := SyncsReplayed(spec, ProposalsReplayed(spec, TotalsReplayed(t, p), p), p);
    assert t3.attestations[k] == ReplayedRow(t, p, k);
    var t4 := InclusionsFinalized(t3, p);
    var t5 := InclusionsKnown(spec, t4, p);
    var t6 := OutcomesFinalized(spec, t5, p);
    assert InclusionConfirmed(t3, p, k) == InclusionConfirmed(t, p, k);
    WindowSame(spec, t, t4, p, k);
    WindowSame(spec, t, t5, p, k);
    assert FlagsSettled(spec, t, p).attestations == t6.attestations;
  }

  lemma WindowSame(spec: Spec, a: Tables, b: Tables, p: Params, k: Pair)
    requires k in a.attestations && k in b.attestations
    requires a.attestations[k].details == b.attestations[k].details && a.coverage == b.coverage && a.blocks == b.blocks
    ensures WindowProven(spec, a, p, k) == WindowProven(spec, b, p, k)
  {
    CountMeansEverySlot(spec, a, k);
    CountMeansEverySlot(spec, b, k);
  }

  lemma FlagsSettledProposal(spec: Spec, t: Tables, p: Params, s: Slot)
    requires s in t.proposals
    ensures s in FlagsSettled(spec, t, p).proposals
    ensures FlagsSettled(spec, t, p).proposals[s] == SettledProposal(spec, t, p, s)
  {
    assert StagedProposal(spec, TotalsReplayed(t, p), p, s) == StagedProposal(spec, t, p, s);
  }

  lemma FlagsSettledSync(spec: Spec, t: Tables, p: Params, k: (Validator, Slot))
    requires k in t.syncs
    ensures k in FlagsSettled(spec, t, p).syncs
    ensures FlagsSettled(spec, t, p).syncs[k] == SettledSync(spec, t, p, k)
  {
    assert StagedSync(spec, ProposalsReplayed(spec, TotalsReplayed(t, p), p), p, k) == StagedSync(spec, t, p, k);
  }

  lemma FlagsSettledShape(spec: Spec, t: Tables, p: Params)
    ensures var after := FlagsSettled(spec, t, p);
      && after == t.(attestations := after.attestations, proposals := after.proposals, syncs := after.syncs)
      && after.attestations.Keys == t.attestations.Keys
      && after.proposals.Keys == t.proposals.Keys
      && after.syncs.Keys == t.syncs.Keys
  {
  }

  /** The seven statements, read row by row. */
  lemma FlagsSettledRows(spec: Spec, t: Tables, p: Params)
    ensures SettledFrom(spec, t, p, FlagsSettled(spec, t, p))
  {
    FlagsSettledShape(spec, t, p);
    forall k <- t.attestations { FlagsSettledRow(spec, t, p, k); }
    forall s <- t.proposals { FlagsSettledProposal(spec, t, p, s); }
    forall k <- t.syncs { FlagsSettledSync(spec, t, p, k); }
  }

  // ---- One row through the completion loop ----

  /** `after` is `t` with the pairs `ready` completed; watermarks move, lifetimes do not. */
  ghost predicate CompletedFrom(spec: Spec, t: Tables, ready: set<Pair>, after: Tables) {
    && after == t.(attestations := after.attestations, proposals := after.proposals, syncs := after.syncs,
                   completed := t.completed + ready, gaps := after.gaps, validators := after.validators)
    && after.attestations.Keys == t.attestations.Keys
    && after.proposals.Keys == t.proposals.Keys
    && after.syncs.Keys == t.syncs.Keys
    && after.validators.Keys == t.validators.Keys
    && t.gaps <= after.gaps
    && (forall k <- t.attestations :: after.attestations[k] ==
          t.attestations[k].(finalized := t.attestations[k].finalized || k in ready))
    && (forall s <- t.proposals :: after.proposals[s] ==
          t.proposals[s].(finalized :=
            t.proposals[s].finalized || (t.proposals[s].proposer, EpochOf(spec, s)) in ready))
    && (forall k <- t.syncs :: after.syncs[k] ==
          t.syncs[k].(finalized := t.syncs[k].finalized || (k.0, EpochOf(spec, k.1)) in ready))
    && (forall v <- t.validators :: after.validators[v].(lastScanned := t.validators[v].lastScanned) == t.validators[v])
  }

  lemma PairsCompletedRows(spec: Spec, t: Tables, ready: set<Pair>, p: Params)
    ensures CompletedFrom(spec, t, ready, GapsRecorded(PairsCompleted(spec, t, ready), p))
  {
  }

  /** A promotion settles every row and then completes the pairs that are ready. */
  lemma PromotedRows(spec: Spec, t: Tables, p: Params) returns (settled: Tables)
    ensures SettledFrom(spec, t, p, settled)
    ensures CompletedFrom(spec, settled, ReadyPairs(spec, settled, p), Promoted(spec, t, p))
    ensures PromotedCount(spec, t, p) == |ReadyPairs(spec, settled, p)|
    ensures settled == FlagsSettled(spec, t, p)
  {
    settled := FlagsSettled(spec, t, p);
    FlagsSettledRows(spec, t, p);
    PairsCompletedRows(spec, settled, ReadyPairs(spec, settled, p), p);
  }

  // ---- Running a promotion twice ----

  lemma SameProof(spec: Spec, t: Tables, p: Params, b: Tables, k: Pair)
    requires k in t.attestations && k in b.attestations && b.attestations[k].details == t.attestations[k].details
    requires b.coverage == t.coverage && b.blocks == t.blocks
    ensures Proven(spec, b, p, k) == Proven(spec, t, p, k)
  {
    WindowSame(spec, t, b, p, k);
  }

  /** A row that is settled, whether or not the loop froze it as well, settles to itself. */
  lemma SettledTwice(spec: Spec, t: Tables, p: Params, b: Tables, k: Pair, frozen: bool)
    requires k in t.attestations && k in b.attestations && t.completed <= b.completed
    requires b.jobs == t.jobs && b.coverage == t.coverage && b.blocks == t.blocks
    requires var x := SettledAttestation(spec, t, p, k); b.attestations[k] == x.(finalized := x.finalized || frozen)
    ensures SettledAttestation(spec, b, p, k) == b.attestations[k]
  {
    SameProof(spec, t, p, b, k);
    assert StagedTotals(b, p, k).Some? ==> StagedTotals(b, p, k) == StagedTotals(t, p, k);
  }

  lemma AttestationStable(spec: Spec, t: Tables, p: Params, a: Tables, ready: set<Pair>, b: Tables, k: Pair)
    requires SettledFrom(spec, t, p, a) && CompletedFrom(spec, a, ready, b) && k in t.attestations
    ensures SettledAttestation(spec, b, p, k) == b.attestations[k]
  {
    assert a.attestations[k] == SettledAttestation(spec, t, p, k);
    SettledTwice(spec, t, p, b, k, k in ready);
  }

  lemma ProposalStable(spec: Spec, t: Tables, p: Params, a: Tables, ready: set<Pair>, b: Tables, s: Slot)
    requires SettledFrom(spec, t, p, a) && CompletedFrom(spec, a, ready, b) && s in t.proposals
    ensures SettledProposal(spec, b, p, s) == b.proposals[s]
  {
    assert a.proposals[s] == SettledProposal(spec, t, p, s);
    assert StagedProposal(spec, b, p, s).Some? ==> StagedProposal(spec, b, p, s) == StagedProposal(spec, t, p, s);
  }

  lemma SyncStable(spec: Spec, t: Tables, p: Params, a: Tables, ready: set<Pair>, b: Tables, k: (Validator, Slot))
    requires SettledFrom(spec, t, p, a) && CompletedFrom(spec, a, ready, b) && k in t.syncs
    ensures SettledSync(spec, b, p, k) == b.syncs[k]
  {
    assert a.syncs[k] == SettledSync(spec, t, p, k);
    assert StagedSync(spec, b, p, k).Some? ==> StagedSync(spec, b, p, k) == StagedSync(spec, t, p, k);
  }

  lemma SettlingIsStable(spec: Spec, t: Tables, p: Params, a: Tables, ready: set<Pair>, b: Tables, c: Tables)
    requires SettledFrom(spec, t, p, a) && CompletedFrom(spec, a, ready, b) && SettledFrom(spec, b, p, c)
    ensures c == b
  {
    AttestationsAreStable(spec, t, p, a, ready, b, c);
    ProposalsAreStable(spec, t, p, a, ready, b, c);
    SyncsAreStable(spec, t, p, a, ready, b, c);
  }

  lemma AttestationsAreStable(spec: Spec, t: Tables, p: Params, a: Tables, ready: set<Pair>, b: Tables, c: Tables)
    requires SettledFrom(spec, t, p, a) && CompletedFrom(spec, a, ready, b) && SettledFrom(spec, b, p, c)
    ensures c.attestations == b.attestations
  {
    forall k | k in t.attestations ensures c.attestations[k] == b.attestations[k] {
      AttestationStable(spec, t, p, a, ready, b, k);
    }
  }

  lemma ProposalsAreStable(spec: Spec, t: Tables, p: Params, a: Tables, ready: set<Pair>, b: Tables, c: Tables)
    requires SettledFrom(spec, t, p, a) && CompletedFrom(spec, a, ready, b) && SettledFrom(spec, b, p, c)
    ensures c.proposals == b.proposals
  {
    forall s | s in t.proposals ensures c.proposals[s] == b.proposals[s] {
      ProposalStable(spec, t, p, a, ready, b, s);
    }
  }

  lemma SyncsAreStable(spec: Spec, t: Tables, p: Params, a: Tables, ready: set<Pair>, b: Tables, c: Tables)
    requires SettledFrom(spec, t, p, a) && CompletedFrom(spec, a, ready, b) && SettledFrom(spec, b, p, c)
    ensures c.syncs == b.syncs
  {
    forall k | k in t.syncs ensures c.syncs[k] == b.syncs[k] {
      SyncStable(spec, t, p, a, ready, b, k);
    }
  }

  /** Completing pairs makes no other pair ready. */
  lemma ReadyWasReady(spec: Spec, p: Params, a: Tables, ready: set<Pair>, b: Tables, k: Pair)
    requires CompletedFrom(spec, a, ready, b) && k in ReadyPairs(spec, b, p)
    ensures k in ReadyPairs(spec, a, p) && k !in ready
  {
    CountMeansEverySlot(spec, a, k);
    CountMeansEverySlot(spec, b, k);
    forall s <- a.proposals ensures !ProposalPending(spec, a, p, k, s) {
      assert !ProposalPending(spec, b, p, k, s);
    }
    forall s <- a.syncs ensures !SyncPending(spec, a, p, k, s) {
      assert !SyncPending(spec, b, p, k, s);
    }
    assert forall j :: Settled(a, p, j) == Settled(b, p, j);
    assert RewardsSettled(spec, a, p, k);
  }

  lemma NoNewGaps(spec: Spec, t: Tables, p: Params)
    ensures GapsRecorded(Promoted(spec, t, p), p) == Promoted(spec, t, p)
  {
    var settled := FlagsSettled(spec, t, p);
    GapsTwice(PairsCompleted(spec, settled, ReadyPairs(spec, settled, p)), p);
  }

  lemma GapsTwice(t: Tables, p: Params)
    ensures GapsRecorded(GapsRecorded(t, p), p) == GapsRecorded(t, p)
  {
    var g := GapsRecorded(t, p);
    assert forall k: Pair :: Missing(g, p, k) == Missing(t, p, k);
    assert GapsRecorded(g, p).gaps == g.gaps;
  }

  /** The same promotion again changes nothing at all and reports no new completion. */
  lemma PromotionIsIdempotent(spec: Spec, t: Tables, p: Params)
    ensures var after := Promoted(spec, t, p);
      Promoted(spec, after, p) == after && PromotedCount(spec, after, p) == 0
  {
    var b := Promoted(spec, t, p);
    var a := PromotedRows(spec, t, p);
    var c := PromotedRows(spec, b, p);
    SettlingIsStable(spec, t, p, a, ReadyPairs(spec, a, p), b, c);
    forall k | k in ReadyPairs(spec, c, p) ensures false {
      ReadyWasReady(spec, p, a, ReadyPairs(spec, a, p), b, k);
    }
    assert ReadyPairs(spec, c, p) == {};
    NothingCompleted(spec, c);
    NoNewGaps(spec, t, p);
  }
}
