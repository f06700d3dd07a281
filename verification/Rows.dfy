/**
 * One `attestation_duties` row and the guarded statements that change it
 * (src/db/scanner/attestations.rs).
 */
module Rows {
  import opened Wrappers
  import opened Chain

  datatype Assignment = Assignment(slot: Slot, committeeIndex: nat, position: nat)

  datatype Details = Details(
    included: bool, inclusionSlot: Option<Slot>, delay: Option<int>, effectiveDelay: Option<int>)

  datatype Marks = Marks(source: Option<bool>, target: Option<bool>, head: Option<bool>) {
    function Or(other: Marks): Marks {
      Marks(source.Or(other.source), target.Or(other.target), head.Or(other.head))
    }
    predicate Complete() {
      source.Some? && target.Some? && head.Some?
    }
  }

  datatype Rewards = Rewards(source: Option<int>, target: Option<int>, head: Option<int>, inactivity: Option<int>) {
    function Or(other: Rewards): Rewards {
      Rewards(source.Or(other.source), target.Or(other.target), head.Or(other.head), inactivity.Or(other.inactivity))
    }
    /** A positive reward proves the flag; zero proves nothing. */
    function Inferred(): Marks {
      Marks(Positive(source), Positive(target), Positive(head))
    }
  }

  const NO_DETAILS := Details(false, None, None, None)
  const NO_MARKS := Marks(None, None, None)
  const NO_REWARDS := Rewards(None, None, None, None)

  /** `CASE WHEN x > 0 THEN TRUE END`. */
  function Positive(x: Option<int>): Option<bool> {
    if x.Some? && x.value > 0 then Some(true) else None
  }

  /** SQL `a < b`: a comparison with NULL is not true. */
  predicate Less(a: Option<Slot>, b: Option<Slot>) {
    a.Some? && b.Some? && a.value < b.value
  }

  datatype AttestationRow = AttestationRow(
    assignment: Assignment, details: Details, marks: Marks, rewards: Rewards,
    finalized: bool, inclusionKnown: bool)

  /** The VALUES of an upsert. */
  datatype AttestationWrite = AttestationWrite(
    assignment: Assignment, details: Details, marks: Marks, rewards: Rewards, finalized: bool)

  /** The WHERE clause of the upsert. `completed`: the pair is in `completed_scans`. */
  predicate UpsertAccepted(row: AttestationRow, write: AttestationWrite, completed: bool) {
    || (!row.finalized
        && (|| write.finalized
            || row.details.inclusionSlot.None?
            || Less(write.details.inclusionSlot, row.details.inclusionSlot)
            || (write.details.inclusionSlot == row.details.inclusionSlot && write.details.effectiveDelay.Some?)))
    || (write.finalized && !completed)
  }

  /** INSERT ... ON CONFLICT DO UPDATE. */
  function Upserted(current: Option<AttestationRow>, write: AttestationWrite, completed: bool): AttestationRow {
    match current
    case None =>
      AttestationRow(write.assignment, write.details, write.marks, write.rewards, write.finalized, false)
    case Some(row) =>
      if !UpsertAccepted(row, write, completed) then row
      else row.(assignment := write.assignment, details := write.details, marks := write.marks.Or(row.marks),
                rewards := write.rewards.Or(row.rewards), finalized := write.finalized)
  }

  /** The SET list shared by the two reward joins: rewards replaced, unknown marks inferred. */
  function RewardJoined(row: AttestationRow, rewards: Rewards): AttestationRow {
    row.(rewards := rewards, marks := row.marks.Or(rewards.Inferred()))
  }

  datatype InclusionDetails = InclusionDetails(
    slot: Slot, delay: int, effectiveDelay: int, source: bool, target: bool, head: bool)

  predicate RepairAccepted(row: AttestationRow, fix: InclusionDetails, completed: bool) {
    && row.details.included
    && row.details.inclusionSlot.Some? && row.details.inclusionSlot.value >= fix.slot
    && (|| !completed
        || (row.details.inclusionSlot == Some(fix.slot)
            && (row.details.effectiveDelay.None? || !row.marks.Complete())))
  }

  /** `repair_finalized_inclusion` on one row. */
  function Repaired(row: AttestationRow, fix: InclusionDetails, completed: bool): AttestationRow {
    if !RepairAccepted(row, fix, completed) then row
    else row.(
      details := row.details.(inclusionSlot := Some(fix.slot), delay := Some(fix.delay),
                              effectiveDelay := Some(fix.effectiveDelay)),
      marks := Marks(Some(fix.source), Some(fix.target), Some(fix.head)))
  }

  // ---- What the live worker does to one row between reorgs ----

  /** The pending assignment written before any inclusion is observed. */
  function SeedWrite(assignment: Assignment): AttestationWrite {
    AttestationWrite(assignment, NO_DETAILS, NO_MARKS, NO_REWARDS, false)
  }

  /** A live observation: the vote found in the block at `fix.slot`. */
  function ObservationWrite(assignment: Assignment, fix: InclusionDetails): AttestationWrite {
    AttestationWrite(
      assignment, Details(true, Some(fix.slot), Some(fix.delay), Some(fix.effectiveDelay)),
      Marks(Some(fix.source), Some(fix.target), Some(fix.head)), NO_REWARDS, false)
  }

  datatype LiveEvent = Seed | Observe(seen: InclusionDetails) | Reward(rewards: Rewards)

  function SeededRow(assignment: Assignment): AttestationRow {
    AttestationRow(assignment, NO_DETAILS, NO_MARKS, NO_REWARDS, false, false)
  }

  function Apply(assignment: Assignment, row: AttestationRow, event: LiveEvent, completed: bool): AttestationRow {
    match event
    case Seed => Upserted(Some(row), SeedWrite(assignment), completed)
    case Observe(seen) => Upserted(Some(row), ObservationWrite(assignment, seen), completed)
    case Reward(rewards) => if row.finalized then row else RewardJoined(row, rewards)
  }

  function Run(assignment: Assignment, row: AttestationRow, events: seq<LiveEvent>, completed: bool): AttestationRow {
    if events == [] then row else
      var n := |events| - 1;
      Apply(assignment, Run(assignment, row, events[..n], completed), events[n], completed)
  }

  /** A block holds one observation of the validator, and there is one reward response. */
  ghost predicate Coherent(events: seq<LiveEvent>) {
    && (forall a, b :: a in events && b in events && a.Observe? && b.Observe? && a.seen.slot == b.seen.slot ==> a == b)
    && (forall a, b :: a in events && b in events && a.Reward? && b.Reward? ==> a == b)
  }

  /** `best` is the observation at the smallest inclusion slot. */
  ghost predicate Earliest(events: seq<LiveEvent>, best: Option<InclusionDetails>) {
    match best
    case None => forall e :: e in events ==> !e.Observe?
    case Some(seen) => Observe(seen) in events && forall e :: e in events && e.Observe? ==> seen.slot <= e.seen.slot
  }

  ghost predicate OnlyReward(events: seq<LiveEvent>, rewards: Option<Rewards>) {
    match rewards
    case None => forall e :: e in events ==> !e.Reward?
    case Some(r) => Reward(r) in events
  }

  /** Smallest observed slot with its own delays and direct marks, plus the response; inference only without a vote. */
  function Merged(assignment: Assignment, best: Option<InclusionDetails>, rewards: Option<Rewards>): AttestationRow {
    var r := if rewards.Some? then rewards.value else NO_REWARDS;
    match best
    case None => AttestationRow(assignment, NO_DETAILS, r.Inferred(), r, false, false)
    case Some(seen) =>
      var write := ObservationWrite(assignment, seen);
      AttestationRow(assignment, write.details, write.marks, r, false, false)
  }

  /** Running record of the best observation and of the reward response. */
  function Noted(facts: (Option<InclusionDetails>, Option<Rewards>), event: LiveEvent)
    : (Option<InclusionDetails>, Option<Rewards>)
  {
    match event
    case Seed => facts
    case Observe(seen) => (if facts.0.None? || seen.slot <= facts.0.value.slot then Some(seen) else facts.0, facts.1)
    case Reward(rewards) => (facts.0, Some(rewards))
  }

  function Facts(events: seq<LiveEvent>): (Option<InclusionDetails>, Option<Rewards>) {
    if events == [] then (None, None) else Noted(Facts(events[..|events| - 1]), events[|events| - 1])
  }

  lemma ApplyMerged(
    assignment: Assignment, facts: (Option<InclusionDetails>, Option<Rewards>), event: LiveEvent, completed: bool)
    requires event.Reward? && facts.1.Some? ==> event.rewards == facts.1.value
    ensures var after := Noted(facts, event);
            Apply(assignment, Merged(assignment, facts.0, facts.1), event, completed)
                == Merged(assignment, after.0, after.1)
  {
  }

  lemma {:induction false} FactsHold(events: seq<LiveEvent>)
    requires Coherent(events)
    ensures Earliest(events, Facts(events).0) && OnlyReward(events, Facts(events).1)
  {
    if events != [] {
      var n := |events| - 1;
      assert events == events[..n] + [events[n]];
      FactsHold(events[..n]);
    }
  }

  lemma {:induction false} RunNotes(assignment: Assignment, events: seq<LiveEvent>, completed: bool)
    requires Coherent(events)
    ensures Run(assignment, SeededRow(assignment), events, completed)
         == Merged(assignment, Facts(events).0, Facts(events).1)
  {
    if events != [] {
      var n := |events| - 1;
      assert events == events[..n] + [events[n]];
      RunNotes(assignment, events[..n], completed);
      FactsHold(events[..n]);
      ApplyMerged(assignment, Facts(events[..n]), events[n], completed);
    }
  }

  lemma FactsUnique(events: seq<LiveEvent>, best: Option<InclusionDetails>, rewards: Option<Rewards>)
    requires Coherent(events) && Earliest(events, best) && OnlyReward(events, rewards)
    ensures Facts(events) == (best, rewards)
  {
    FactsHold(events);
    var (a, r) := Facts(events);
    if a.Some? && best.Some? {
      assert Observe(a.value) in events && Observe(best.value) in events;
    }
    if r.Some? && rewards.Some? {
      assert Reward(r.value) in events && Reward(rewards.value) in events;
    }
  }

  /** Whatever the order and repetition of events, the row ends as the merge of what was seen. */
  lemma RunIsMerge(
    assignment: Assignment, events: seq<LiveEvent>, best: Option<InclusionDetails>, rewards: Option<Rewards>,
    completed: bool)
    requires Coherent(events) && Earliest(events, best) && OnlyReward(events, rewards)
    ensures Run(assignment, SeededRow(assignment), events, completed) == Merged(assignment, best, rewards)
  {
    RunNotes(assignment, events, completed);
    FactsUnique(events, best, rewards);
  }

  /** Newest-first under the guard, oldest-first keep-first, or any interleaving: the same row. */
  lemma OrderIndependent(assignment: Assignment, a: seq<LiveEvent>, b: seq<LiveEvent>, completed: bool)
    requires Coherent(a) && (forall e :: e in a <==> e in b)
    ensures Run(assignment, SeededRow(assignment), a, completed) == Run(assignment, SeededRow(assignment), b, completed)
  {
    FactsHold(a);
    var (best, rewards) := Facts(a);
    assert Coherent(b) && Earliest(b, best) && OnlyReward(b, rewards);
    RunIsMerge(assignment, a, best, rewards, completed);
    RunIsMerge(assignment, b, best, rewards, completed);
  }
}
