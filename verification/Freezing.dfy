/**
 * Rows that a promotion freezes too early (src/live/finalization.rs:180-304): the completion loop does not look at a
 * slot again, and a confirmed inclusion is final before the earlier slots of its window are known.
 */
module Freezing {
  import opened Wrappers
  import opened Chain
  import opened Rows
  import opened Attestations
  import opened Outcome
  import opened Tables
  import opened Bits
  import opened Promotion
  import opened Settling
  import opened Safety
  import opened Ancestry
  import opened LiveScan
  import opened LiveSlot
  import opened SlotScan

  /** One more step at the end of a run. */
  lemma {:induction false} OneMore(spec: Spec, w: World, run: seq<Action>, action: Action)
    requires Runs(spec, w, run) && Enabled(After(spec, w, run), action)
    ensures Runs(spec, w, run + [action]) && After(spec, w, run + [action]) == Step(spec, After(spec, w, run), action)
    decreases |run|
  {
    if run == [] {
      assert Runs(spec, Step(spec, w, action), []);
    } else {
      OneMore(spec, Step(spec, w, run[0]), run[1..], action);
      assert (run + [action])[1..] == run[1..] + [action];
    }
  }

  // ---- A false miss ----

  const ONE_SLOT_EPOCHS: Spec := ChainSpec(1, 1, 1, 0)
  const NOTHING := World(EMPTY, Idle, {})
  const NO_PROPOSAL := ProposalRow(0, false, ProposalRewards(None, None, None, None), false)
  const DUTY_JOB := AttestationJob(0, 1)
  const TOTALS := AttestationPayload(map[0 := Rewards(Some(0), Some(0), Some(0), None)])

  /** Validator 0 is tracked; its duty of epoch 1 is seeded, its proposal of slot 1 missed, and its window covered. */
  const COLLECTING: seq<Action> := [
    UpsertValidator(0, 0, None), RegisterTrackingStart({0}, 0), LiveAttestation((0, 1), SeedWrite(Assignment(1, 0, 0))),
    LiveProposal(1, NO_PROPOSAL), RecordCoverage({0}, 1), RecordCoverage({0}, 2)]

  /** The block of slot 1 is stored late, by a scan that gets no further; rewards come in that depend on it. */
  const LATE_BLOCK: seq<Action> := [
    RecordBlock(1, 7, 9), EnqueueJobs({DUTY_JOB}, None), CompleteJob({DUTY_JOB}, TOTALS, 7)]

  const SEEDED := AttestationRow(Assignment(1, 0, 0), NO_DETAILS, NO_MARKS, NO_REWARDS, false, false)

  const COLLECTED := EMPTY.(
    attestations := map[(0, 1) := SEEDED], proposals := map[1 := NO_PROPOSAL],
    coverage := {(0, 1), (0, 2)}, started := map[0 := 0], validators := map[0 := ValidatorRow(0, None, None)])

  const STALE := COLLECTED.(
    blocks := map[1 := BlockRow(7, 9)], jobs := map[DUTY_JOB := Job(None, Some(7), Complete, Some(TOTALS))])

  /** From empty tables, with the archive idle throughout, the run ends in `t`. */
  ghost predicate Reaches(spec: Spec, run: seq<Action>, t: Tables) {
    Runs(spec, NOTHING, run) && After(spec, NOTHING, run) == World(t, Idle, {})
  }

  lemma Then(spec: Spec, run: seq<Action>, t: Tables, action: Action, u: Tables)
    requires Reaches(spec, run, t) && Enabled(World(t, Idle, {}), action)
    requires Step(spec, World(t, Idle, {}), action) == World(u, Idle, {})
    ensures Reaches(spec, run + [action], u)
  {
    OneMore(spec, NOTHING, run, action);
  }

  const TRACKED := EMPTY.(started := map[0 := 0], validators := map[0 := ValidatorRow(0, None, None)])

  lemma TrackingRuns()
    ensures Reaches(ONE_SLOT_EPOCHS, [COLLECTING[0]] + [COLLECTING[1]], TRACKED)
  {
    var known := EMPTY.(validators := map[0 := ValidatorRow(0, None, None)]);
    assert [] + [COLLECTING[0]] == [COLLECTING[0]];
    Then(ONE_SLOT_EPOCHS, [], EMPTY, COLLECTING[0], known);
    assert Earlier(known.started, {0}, 0) == map[0 := 0];
    assert TrackingRegistered(ONE_SLOT_EPOCHS, known, {0}, 0) == TRACKED;
    Then(ONE_SLOT_EPOCHS, [COLLECTING[0]], known, COLLECTING[1], TRACKED);
  }

  lemma CollectingRuns()
    ensures Reaches(ONE_SLOT_EPOCHS, COLLECTING, COLLECTED)
  {
    TrackingRuns();
    var run := [COLLECTING[0]] + [COLLECTING[1]];
    var seeded := TRACKED.(attestations := map[(0, 1) := SEEDED]);
    var missed := seeded.(proposals := map[1 := NO_PROPOSAL]);
    Then(ONE_SLOT_EPOCHS, run, TRACKED, COLLECTING[2], seeded);
    Then(ONE_SLOT_EPOCHS, run + [COLLECTING[2]], seeded, COLLECTING[3], missed);
    CoverageRuns(run + [COLLECTING[2]] + [COLLECTING[3]], missed);
    assert run + [COLLECTING[2]] + [COLLECTING[3]] + [COLLECTING[4]] + [COLLECTING[5]] == COLLECTING;
  }

  lemma CoverageRuns(run: seq<Action>, missed: Tables)
    requires Reaches(ONE_SLOT_EPOCHS, run, missed) && missed == COLLECTED.(coverage := {})
    ensures Reaches(ONE_SLOT_EPOCHS, run + [COLLECTING[4]] + [COLLECTING[5]], COLLECTED)
  {
    assert CoverageRecorded(missed, {0}, 1) == missed.(coverage := {(0, 1)});
    Then(ONE_SLOT_EPOCHS, run, missed, COLLECTING[4], missed.(coverage := {(0, 1)}));
    assert CoverageRecorded(missed.(coverage := {(0, 1)}), {0}, 2) == COLLECTED;
    Then(ONE_SLOT_EPOCHS, run + [COLLECTING[4]], missed.(coverage := {(0, 1)}), COLLECTING[5], COLLECTED);
  }

  lemma LateBlockRuns()
    ensures Reaches(ONE_SLOT_EPOCHS, COLLECTING + LATE_BLOCK, STALE)
  {
    CollectingRuns();
    var stored := COLLECTED.(blocks := map[1 := BlockRow(7, 9)]);
    Then(ONE_SLOT_EPOCHS, COLLECTING, COLLECTED, LATE_BLOCK[0], stored);
    RewardRuns(COLLECTING + [LATE_BLOCK[0]], stored);
    assert COLLECTING + [LATE_BLOCK[0]] + [LATE_BLOCK[1]] + [LATE_BLOCK[2]] == COLLECTING + LATE_BLOCK;
  }

  lemma RewardRuns(run: seq<Action>, stored: Tables)
    requires Reaches(ONE_SLOT_EPOCHS, run, stored) && stored == STALE.(jobs := map[])
    ensures Reaches(ONE_SLOT_EPOCHS, run + [LATE_BLOCK[1]] + [LATE_BLOCK[2]], STALE)
  {
    var queued := stored.(jobs := map[DUTY_JOB := Job(None, None, Pending, None)]);
    assert JobsEnqueued(stored, {DUTY_JOB}, None) == queued;
    Then(ONE_SLOT_EPOCHS, run, stored, LATE_BLOCK[1], queued);
    assert JobsCompleted(queued, {DUTY_JOB}, TOTALS, 7) == STALE;
    Then(ONE_SLOT_EPOCHS, run + [LATE_BLOCK[1]], queued, LATE_BLOCK[2], STALE);
  }

  /** The finalized checkpoint is that block, and the promotion is bound to it. */
  const FINAL_TREE: Tree := map[7 := Ancestry.Node(1, 9)]
  const BOUND := Params({0}, 1, 3, 1, {7})

  lemma BoundToLateBlock()
    ensures WellFormed(FINAL_TREE) && Real(FINAL_TREE, STALE.blocks) && Occupied(FINAL_TREE, 7, 1)
    ensures ConfirmedParams(STALE, BOUND, 7) && BOUND.validators == STALE.started.Keys
    ensures BOUND.finalizedEpoch == BOUND.target + 2
  {
    var blocks := STALE.blocks;
    assert 1 in blocks && blocks[1].root == 7;
    assert 7 in ByRootOf(blocks) && ByRootOf(blocks)[7] == (1, 9) && 9 !in ByRootOf(blocks);
    assert Walk(ByRootOf(blocks), 9, Some(1)) == [];
    assert Confirmed(blocks, 7) == [(1, 7)];
    assert 7 in Ancestors(FINAL_TREE, 7);
  }

  lemma StaleIsReady(settled: Tables)
    requires SettledFrom(ONE_SLOT_EPOCHS, STALE, BOUND, settled)
    ensures (0, 1) in ReadyPairs(ONE_SLOT_EPOCHS, settled, BOUND)
  {
    var spec, k: Pair := ONE_SLOT_EPOCHS, (0, 1);
    assert k in STALE.attestations && 1 in STALE.proposals;
    assert WindowCovered(spec, STALE, k);
    CountMeansEverySlot(spec, STALE, k);
    CountMeansEverySlot(spec, settled, k);
    assert SettledPayload(STALE, BOUND, DUTY_JOB) == Some(TOTALS);
    assert settled.attestations[k] == SettledAttestation(spec, STALE, BOUND, k);
    assert settled.attestations[k] == SEEDED.(
      rewards := Rewards(Some(0), Some(0), Some(0), None), marks := settled.attestations[k].marks,
      inclusionKnown := true, finalized := true);
    assert settled.proposals[1] == SettledProposal(spec, STALE, BOUND, 1);
    assert settled.jobs.Keys == {DUTY_JOB};
    assert RewardsSettled(spec, settled, BOUND, k);
  }

  /**
   * From empty tables the two workers reach a state whose promotion, bound to the finalized checkpoint and to every
   * tracked validator, freezes a miss in a slot that the checkpoint's chain occupies.
   */
  lemma ReadyLoopCanFreezeAFalseMiss()
    ensures Runs(ONE_SLOT_EPOCHS, NOTHING, COLLECTING + LATE_BLOCK + [Promote(BOUND)])
    ensures Runs(ONE_SLOT_EPOCHS, NOTHING, COLLECTING + LATE_BLOCK)
    ensures var before := After(ONE_SLOT_EPOCHS, NOTHING, COLLECTING + LATE_BLOCK).t;
      && WellFormed(FINAL_TREE) && Real(FINAL_TREE, before.blocks) && Occupied(FINAL_TREE, 7, 1)
      && ConfirmedParams(before, BOUND, 7) && BOUND.validators == before.started.Keys
    ensures var after := After(ONE_SLOT_EPOCHS, NOTHING, COLLECTING + LATE_BLOCK + [Promote(BOUND)]).t;
      1 in after.proposals && after.proposals[1].finalized && !after.proposals[1].proposed
  {
    LateBlockRuns();
    BoundToLateBlock();
    OneMore(ONE_SLOT_EPOCHS, NOTHING, COLLECTING + LATE_BLOCK, Promote(BOUND));
    var settled := PromotedRows(ONE_SLOT_EPOCHS, STALE, BOUND);
    StaleIsReady(settled);
    assert 1 in STALE.proposals && settled.proposals[1] == SettledProposal(ONE_SLOT_EPOCHS, STALE, BOUND, 1);
    assert EpochOf(ONE_SLOT_EPOCHS, 1) == 1;
  }
  // ---- An inclusion that is final too early ----

  /** No block of the window before the row's inclusion, or in the whole window of a miss, carries the vote. */
  ghost predicate NoEarlierVote(inputs: Inputs, chain: Canonical, k: Pair, row: AttestationRow) {
    forall s :: EpochStart(inputs.spec, k.1) <= s < EpochStart(inputs.spec, k.1 + 2) && BeforeInclusion(row, s) ==>
      Observation(inputs, chain, k, s).None?
  }

  predicate BeforeInclusion(row: AttestationRow, s: Slot) {
    row.details.included && row.details.inclusionSlot.Some? ==> s < row.details.inclusionSlot.value
  }

  /** Every slot of the window before the row's inclusion is covered. */
  ghost predicate CoveredBefore(spec: Spec, t: Tables, k: Pair)
    requires k in t.attestations
  {
    forall s :: EpochStart(spec, k.1) <= s < EpochStart(spec, k.1 + 2) && BeforeInclusion(t.attestations[k], s) ==>
      (k.0, s) in t.coverage
  }

  /** A provisional row is the reference outcome if and only if no earlier block of its window carries the vote. */
  lemma ExpectedIffNoEarlierVote(inputs: Inputs, chain: Canonical, k: Pair, row: AttestationRow)
    requires k in inputs.duties && k.1 in inputs.committees && WellFormedScan(inputs, chain)
    requires SeatedAt(inputs.committees[k.1], inputs.duties[k]) && !row.finalized && Explained(inputs, chain, k, row)
    ensures ShowsOutcome(row, Expected(EpochView(inputs.spec, k.1, inputs.committees[k.1]), chain, inputs.duties[k]))
       <==> NoEarlierVote(inputs, chain, k, row)
  {
    var view := EpochView(inputs.spec, k.1, inputs.committees[k.1]);
    EarliestHitIsLeast(view, chain, k.0, view.Start(), view.WindowEnd());
    if NoEarlierVote(inputs, chain, k, row) {
      AccountedRowIsExpected(inputs, chain, k, row);
    } else {
      var s :| EpochStart(inputs.spec, k.1) <= s < EpochStart(inputs.spec, k.1 + 2) && BeforeInclusion(row, s)
               && Observation(inputs, chain, k, s).Some?;
      assert Hit(view, chain, k.0, s);
    }
  }

  lemma DetailsOfFrozen(spec: Spec, t: Tables, p: Params, a: Tables, ready: set<Pair>, b: Tables, k: Pair)
    requires SettledFrom(spec, t, p, a) && CompletedFrom(spec, a, ready, b) && k in t.attestations
    ensures k in b.attestations && b.attestations[k].details == t.attestations[k].details
    ensures t.attestations[k].marks.Complete() ==> b.attestations[k].marks == t.attestations[k].marks
  {
    assert a.attestations[k] == SettledAttestation(spec, t, p, k);
  }

  /**
   * So a duty row that a promotion makes final, by a confirmed inclusion or by its window, is the reference outcome on
   * the chain if and only if no earlier block of its window carries the vote; it is when the slots before its
   * inclusion are covered, and so always when the window is.
   */
  lemma FrozenAttestationIsTrueIff(
    inputs: Inputs, chain: Canonical, tip: Slot, t: Tables, p: Params, k: Pair)
    requires LiveConsistent(inputs, chain, tip, t) && k in inputs.duties && k.1 in inputs.committees
    requires SeatedAt(inputs.committees[k.1], inputs.duties[k]) && k in t.attestations && !t.attestations[k].finalized
    ensures k in Promoted(inputs.spec, t, p).attestations
    ensures ShowsOutcome(
      Promoted(inputs.spec, t, p).attestations[k],
      Expected(EpochView(inputs.spec, k.1, inputs.committees[k.1]), chain, inputs.duties[k]))
       <==> NoEarlierVote(inputs, chain, k, t.attestations[k])
    ensures CoveredBefore(inputs.spec, t, k) ==> NoEarlierVote(inputs, chain, k, t.attestations[k])
  {
    var row := t.attestations[k];
    ExpectedIffNoEarlierVote(inputs, chain, k, row);
    var settled := PromotedRows(inputs.spec, t, p);
    DetailsOfFrozen(inputs.spec, t, p, settled, ReadyPairs(inputs.spec, settled, p), Promoted(inputs.spec, t, p), k);
    CoveredBeforeInclusion(inputs, chain, tip, t, k);
  }

  lemma CoveredBeforeInclusion(inputs: Inputs, chain: Canonical, tip: Slot, t: Tables, k: Pair)
    requires LiveConsistent(inputs, chain, tip, t) && k in inputs.duties && k in t.attestations
    requires !t.attestations[k].finalized
    ensures t.attestations[k].details.included ==> t.attestations[k].marks.Complete()
    ensures CoveredBefore(inputs.spec, t, k) ==> NoEarlierVote(inputs, chain, k, t.attestations[k])
  {
    forall s: Slot | (k.0, s) in t.coverage && BeforeInclusion(t.attestations[k], s)
        && s < EpochStart(inputs.spec, k.1 + 2)
      ensures Observation(inputs, chain, k, s).None?
    {
      assert Accounted(inputs, chain, k, s, Lookup(t.attestations, k));
    }
  }

  // ---- It happens ----

  const TWO_SLOT_EPOCHS: Spec := ChainSpec(2, 1, 1, 0)
  const SOLE_DUTY: Pair := (0, 1)

  /** Validator 0 sits alone at slot 2; the blocks of slots 3 and 4 both carry its vote. */
  const VOTE := PreElectra(
    AttestationData(2, 0, 20, Attestations.Checkpoint(0, 10), Attestations.Checkpoint(1, 20)), EncodeBitlist([true]))
  const VOTED_TWICE: Canonical := map[2 := Block(20, 10, []), 3 := Block(30, 20, [VOTE]), 4 := Block(40, 30, [VOTE])]
  const SOLE_INPUTS := Inputs(TWO_SLOT_EPOCHS, map[1 := map[(2, 0) := [0]]], map[SOLE_DUTY := Duty(0, 2, 0, 0)])

  lemma BothBlocksShowTheVote()
    ensures WellFormedScan(SOLE_INPUTS, VOTED_TWICE)
    ensures SeatedAt(SOLE_INPUTS.committees[1], SOLE_INPUTS.duties[SOLE_DUTY])
    ensures Observation(SOLE_INPUTS, VOTED_TWICE, SOLE_DUTY, 3).Some?
    ensures Observation(SOLE_INPUTS, VOTED_TWICE, SOLE_DUTY, 4).Some?
  {
    var view := EpochView(TWO_SLOT_EPOCHS, 1, SOLE_INPUTS.committees[1]);
    BitlistRoundTrip([true]);
    assert BallotOf(view.spec, view.committees, VOTE) == Some(Ballot([0], [true]));
    assert Ballot([0], [true]).bits[0];
    assert CarriesVote(view, VOTE, 0);
    assert FirstVote(view, [VOTE], 0).Some?;
    assert Hit(view, VOTED_TWICE, 0, 3) && Hit(view, VOTED_TWICE, 0, 4);
  }

  const AT_ONCE := Params({0}, 0, 2, 4, {40})

  /** Slot 4 is scanned while slot 3 is still a gap. */
  function PastGap(later: InclusionDetails): seq<Action> {
    [RegisterTrackingStart({0}, 0)] + [LiveAttestation(SOLE_DUTY, SeedWrite(Assignment(2, 0, 0)))]
    + [LiveAttestation(SOLE_DUTY, ObservationWrite(Assignment(2, 0, 0), later))] + [RecordBlock(4, 40, 30)]
  }

  /** Its block becomes final, and only then slot 3 is scanned. */
  function GapClosedTooLate(earlier: InclusionDetails, later: InclusionDetails): seq<Action> {
    PastGap(later) + [Promote(AT_ONCE)] + [LiveAttestation(SOLE_DUTY, ObservationWrite(Assignment(2, 0, 0), earlier))]
  }

  function ShownAt(seen: InclusionDetails): Tables {
    EMPTY.(
      started := map[0 := 0], blocks := map[4 := BlockRow(40, 30)],
      attestations := map[SOLE_DUTY := Upserted(
        Some(SeededRow(Assignment(2, 0, 0))), ObservationWrite(Assignment(2, 0, 0), seen), false)])
  }

  lemma LaterVoteIsShown(later: InclusionDetails)
    requires later.slot == 4
    ensures Reaches(TWO_SLOT_EPOCHS, PastGap(later), ShownAt(later))
  {
    var spec := TWO_SLOT_EPOCHS;
    var register := RegisterTrackingStart({0}, 0);
    var seed := LiveAttestation(SOLE_DUTY, SeedWrite(Assignment(2, 0, 0)));
    var observe := LiveAttestation(SOLE_DUTY, ObservationWrite(Assignment(2, 0, 0), later));
    var started := EMPTY.(started := map[0 := 0]);
    assert Earlier(map[], {0}, 0) == map[0 := 0];
    assert TrackingRegistered(spec, EMPTY, {0}, 0) == started;
    assert [] + [register] == [register];
    Then(spec, [], EMPTY, register, started);
    var seeded := started.(attestations := map[SOLE_DUTY := SeededRow(Assignment(2, 0, 0))]);
    Then(spec, [register], started, seed, seeded);
    Then(spec, [register] + [seed], seeded, observe, ShownAt(later).(blocks := map[]));
    Then(spec, [register] + [seed] + [observe], ShownAt(later).(blocks := map[]), RecordBlock(4, 40, 30),
      ShownAt(later));
  }

  lemma ConfirmedAtOnce(seen: InclusionDetails)
    requires seen.slot == 4
    ensures ConfirmedParams(ShownAt(seen), AT_ONCE, 40) && InclusionConfirmed(ShownAt(seen), AT_ONCE, SOLE_DUTY)
    ensures forall k <- ShownAt(seen).attestations :: !WindowCovered(TWO_SLOT_EPOCHS, ShownAt(seen), k)
  {
    var blocks := ShownAt(seen).blocks;
    assert 4 in blocks && blocks[4].root == 40;
    assert 40 in ByRootOf(blocks) && ByRootOf(blocks)[40] == (4, 30) && 30 !in ByRootOf(blocks);
    assert Walk(ByRootOf(blocks), 30, Some(4)) == [];
    assert Confirmed(blocks, 40) == [(4, 40)];
    assert (0, 2) !in ShownAt(seen).coverage;
  }

  lemma FrozenAtOnce(seen: InclusionDetails) returns (after: Tables)
    requires seen.slot == 4
    ensures after == Promoted(TWO_SLOT_EPOCHS, ShownAt(seen), AT_ONCE)
    ensures SOLE_DUTY in after.attestations && after.attestations[SOLE_DUTY].finalized
    ensures after.attestations[SOLE_DUTY].details.included
    ensures after.attestations[SOLE_DUTY].details.inclusionSlot == Some(4)
  {
    var t := ShownAt(seen);
    ConfirmedAtOnce(seen);
    after := Promoted(TWO_SLOT_EPOCHS, t, AT_ONCE);
    var settled := PromotedRows(TWO_SLOT_EPOCHS, t, AT_ONCE);
    assert SOLE_DUTY in t.attestations;
    assert settled.attestations[SOLE_DUTY] == SettledAttestation(TWO_SLOT_EPOCHS, t, AT_ONCE, SOLE_DUTY);
  }

  lemma PromotesUnwitnessed(spec: Spec, t: Tables, p: Params)
    requires forall k <- t.attestations :: !WindowCovered(spec, t, k)
    ensures Step(spec, World(t, Idle, {}), Promote(p)) == World(Promoted(spec, t, p), Idle, {})
  {
  }

  /** A live write to a final row is refused. */
  lemma FinalRowRefuses(t: Tables, key: Pair, write: AttestationWrite)
    requires key in t.attestations && t.attestations[key].finalized && !write.finalized
    ensures UpsertedAttestation(t, key, write) == t
  {
    assert UpsertedAttestation(t, key, write).attestations == t.attestations;
  }

  lemma PromotedAndRefused(
    spec: Spec, run: seq<Action>, t: Tables, p: Params, after: Tables, key: Pair, write: AttestationWrite)
    requires Reaches(spec, run, t) && after == Promoted(spec, t, p)
    requires forall k <- t.attestations :: !WindowCovered(spec, t, k)
    requires key in after.attestations && after.attestations[key].finalized && !write.finalized
    ensures Reaches(spec, run + [Promote(p)] + [LiveAttestation(key, write)], after)
  {
    PromotesUnwitnessed(spec, t, p);
    Then(spec, run, t, Promote(p), after);
    FinalRowRefuses(after, key, write);
    Then(spec, run + [Promote(p)], after, LiveAttestation(key, write), after);
  }

  /** The scan of slot 3 comes to nothing: its row is final. */
  lemma EarlierVoteIsLost(past: seq<Action>, earlier: InclusionDetails, later: InclusionDetails) returns (after: Tables)
    requires later.slot == 4 && Reaches(TWO_SLOT_EPOCHS, past, ShownAt(later))
    ensures Reaches(
      TWO_SLOT_EPOCHS,
      past + [Promote(AT_ONCE)] + [LiveAttestation(SOLE_DUTY, ObservationWrite(Assignment(2, 0, 0), earlier))], after)
    ensures SOLE_DUTY in after.attestations && after.attestations[SOLE_DUTY].finalized
    ensures after.attestations[SOLE_DUTY].details.included
    ensures after.attestations[SOLE_DUTY].details.inclusionSlot == Some(4)
  {
    ConfirmedAtOnce(later);
    after := FrozenAtOnce(later);
    PromotedAndRefused(TWO_SLOT_EPOCHS, past, ShownAt(later), AT_ONCE, after, SOLE_DUTY,
                       ObservationWrite(Assignment(2, 0, 0), earlier));
  }

  /**
   * From empty tables, writing only what the blocks show: the row ends final with the later of the two inclusions,
   * which is not the reference outcome.
   */
  lemma InclusionCanFreezeTooEarly()
    ensures Observation(SOLE_INPUTS, VOTED_TWICE, SOLE_DUTY, 3).Some?
    ensures Observation(SOLE_INPUTS, VOTED_TWICE, SOLE_DUTY, 4).Some?
    ensures var run := GapClosedTooLate(Observation(SOLE_INPUTS, VOTED_TWICE, SOLE_DUTY, 3).value,
                                        Observation(SOLE_INPUTS, VOTED_TWICE, SOLE_DUTY, 4).value);
      && Runs(TWO_SLOT_EPOCHS, NOTHING, run)
      && var rows := After(TWO_SLOT_EPOCHS, NOTHING, run).t.attestations;
         && SOLE_DUTY in rows && rows[SOLE_DUTY].finalized
         && !ShowsOutcome(rows[SOLE_DUTY],
                          Expected(EpochView(TWO_SLOT_EPOCHS, 1, SOLE_INPUTS.committees[1]), VOTED_TWICE,
                            SOLE_INPUTS.duties[SOLE_DUTY]))
  {
    BothBlocksShowTheVote();
    var view := EpochView(TWO_SLOT_EPOCHS, 1, SOLE_INPUTS.committees[1]);
    var earlier := Observation(SOLE_INPUTS, VOTED_TWICE, SOLE_DUTY, 3).value;
    var later := Observation(SOLE_INPUTS, VOTED_TWICE, SOLE_DUTY, 4).value;
    LaterVoteIsShown(later);
    var after := EarlierVoteIsLost(PastGap(later), earlier, later);
    EarliestHitIsLeast(view, VOTED_TWICE, 0, 2, 6);
    assert Hit(view, VOTED_TWICE, 0, 3);
  }
}
