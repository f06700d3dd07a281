/** Historical backfill (src/backfill.rs) and the archive scan it runs (src/scanner/mod.rs:22-134). */
module Backfill {
  import opened Wrappers
  import opened Chain
  import opened Rows
  import opened Tables
  import opened Store
  import Dense
  import HeadScan
  import Outcome
  import Safety

  datatype Config = Config(nonContiguous: bool, maxDepth: Option<Epoch>)

  /** Per tracked validator: activation epoch and watermark, as read at startup and advanced by scans. */
  type ScanState = map<Validator, (Epoch, Option<Epoch>)>

  function Max(a: nat, b: nat): nat {
    if a >= b then a else b
  }

  /** Activation floors the start even when the watermark lies before it. */
  function ComputeStart(config: Config, nonContiguous: bool, activation: Epoch, last: Option<Epoch>): Epoch {
    var base := if nonContiguous || last.None? then activation else Max(last.value + 1, activation);
    if config.maxDepth.Some? then Max(base, config.maxDepth.value) else base
  }

  function StartOf(config: Config, nonContiguous: bool, state: ScanState, v: Validator): Epoch
    requires v in state
  {
    ComputeStart(config, nonContiguous, state[v].0, state[v].1)
  }

  /** An epoch is at or past the start exactly when it is past activation, depth and, unless ignored, the watermark. */
  lemma StartMeans(config: Config, nonContiguous: bool, activation: Epoch, last: Option<Epoch>, epoch: Epoch)
    ensures ComputeStart(config, nonContiguous, activation, last) <= epoch
       <==> && activation <= epoch
            && (config.maxDepth.Some? ==> config.maxDepth.value <= epoch)
            && (!nonContiguous && last.Some? ==> last.value < epoch)
  {
  }

  /** `earliest_epoch_to_scan`, which is also where each pass begins. */
  method EarliestEpochToScan(config: Config, nonContiguous: bool, state: ScanState) returns (earliest: Option<Epoch>)
    ensures earliest.None? <==> state == map[]
    ensures earliest.Some? ==>
      && (exists v :: v in state && StartOf(config, nonContiguous, state, v) == earliest.value)
      && (forall v <- state :: earliest.value <= StartOf(config, nonContiguous, state, v))
  {
    earliest := None;
    var pending := state.Keys;
    while pending != {}
      invariant pending <= state.Keys
      invariant earliest.None? <==> pending == state.Keys
      invariant earliest.Some? ==> exists v :: v in state && StartOf(config, nonContiguous, state, v) == earliest.value
      invariant earliest.Some? ==>
        forall v <- state :: v in pending || earliest.value <= StartOf(config, nonContiguous, state, v)
    {
      var v :| v in pending;
      pending := pending - {v};
      var start := StartOf(config, nonContiguous, state, v);
      if earliest.None? || start < earliest.value {
        earliest := Some(start);
      }
    }
  }

  // ---- One archive scan ----

  /** What the stages of one scan produce: the attestation rows they write and whether all of them succeed. */
  datatype Stages = Stages(rows: map<Validator, AttestationWrite>, result: Result<()>)

  /** The write merged with the row there was; `known` once every stage has succeeded. */
  function MergedRow(t: Tables, k: Pair, write: AttestationWrite, known: bool): AttestationRow {
    var row := Upserted(Lookup(t.attestations, k), write, k in t.completed);
    if known then row.(inclusionKnown := true) else row
  }

  function MaybeKnown(row: Option<AttestationRow>, ok: bool): Option<AttestationRow> {
    if row.Some? then Some(row.value.(inclusionKnown := row.value.inclusionKnown || ok)) else None
  }

  /** Each write is merged with its old row, also on failure; a success makes every scanned row known. */
  ghost predicate RowsWritten(
    before: Tables, after: map<Pair, AttestationRow>, epoch: Epoch, scan: set<Validator>,
    rows: map<Validator, AttestationWrite>, ok: bool)
  {
    && (forall v <- rows :: Lookup(after, (v, epoch))
          == Some(MergedRow(before, (v, epoch), rows[v], ok && v in scan)))
    && (forall v <- scan :: v !in rows ==>
          Lookup(after, (v, epoch)) == MaybeKnown(Lookup(before.attestations, (v, epoch)), ok))
    && (forall k: Pair :: k.1 != epoch || (k.0 !in scan && k.0 !in rows) ==>
          Lookup(after, k) == Lookup(before.attestations, k))
  }

  /** The rows of a scan, one upsert each in any order. */
  method WriteRows(db: Database, epoch: Epoch, rows: map<Validator, AttestationWrite>)
    modifies db
    ensures db.View() == old(db.View()).(attestations := db.attestations)
    ensures forall v <- rows :: Lookup(db.attestations, (v, epoch))
              == Some(MergedRow(old(db.View()), (v, epoch), rows[v], false))
    ensures forall k: Pair :: k.1 != epoch || k.0 !in rows ==>
              Lookup(db.attestations, k) == Lookup(old(db.attestations), k)
  {
    ghost var t := db.View();
    var pending := rows.Keys;
    while pending != {}
      invariant pending <= rows.Keys
      invariant db.View() == t.(attestations := db.attestations)
      invariant forall v <- rows :: v !in pending ==>
                  Lookup(db.attestations, (v, epoch)) == Some(MergedRow(t, (v, epoch), rows[v], false))
      invariant forall k: Pair :: k.1 != epoch || k.0 !in rows || k.0 in pending ==>
        Lookup(db.attestations, k) == Lookup(t.attestations, k)
    {
      var v :| v in pending;
      pending := pending - {v};
      db.UpsertAttestationDuty(v, epoch, rows[v]);
    }
  }

  /** Completion makes the scanned rows known. */
  lemma MarkedRows(
    t: Tables, written: Tables, epoch: Epoch, scan: set<Validator>, rows: map<Validator, AttestationWrite>)
    requires forall v <- rows ::
      Lookup(written.attestations, (v, epoch)) == Some(MergedRow(t, (v, epoch), rows[v], false))
    requires forall k: Pair :: k.1 != epoch || k.0 !in rows ==>
      Lookup(written.attestations, k) == Lookup(t.attestations, k)
    ensures RowsWritten(t, written.attestations, epoch, scan, rows, false)
    ensures RowsWritten(t, CompletionMarked(written, scan, epoch).attestations, epoch, scan, rows, true)
  {
    var marked := CompletionMarked(written, scan, epoch).attestations;
    forall k: Pair ensures Lookup(marked, k) ==
      if k.0 in scan && k.1 == epoch then MaybeKnown(Lookup(written.attestations, k), true)
      else Lookup(written.attestations, k)
    {
    }
  }

  /** Partial rows stay on failure; only a scan whose every stage succeeded is recorded as complete. */
  method ScanEpoch(db: Database, epoch: Epoch, scan: set<Validator>, stages: Stages)
    returns (r: Result<()>)
    modifies db
    ensures scan != {} ==> r == stages.result
    ensures scan != {} ==>
      RowsWritten(old(db.View()), db.attestations, epoch, scan, stages.rows, r.Ok?)
    ensures scan == {} ==> r.Ok? && db.View() == old(db.View())
    ensures db.View() == old(db.View()).(attestations := db.attestations, completed := db.completed, gaps := db.gaps)
    ensures r.Err? ==> db.completed == old(db.completed) && db.gaps == old(db.gaps)
    ensures r.Ok? ==> forall k :: k in db.completed <==> k in old(db.completed) || (k.0 in scan && k.1 == epoch)
    ensures r.Ok? ==> forall k :: k in db.gaps <==> k in old(db.gaps) && !(k.0 in scan && k.1 == epoch)
  {
    if scan == {} {
      return Ok(());
    }
    ghost var t := db.View();
    WriteRows(db, epoch, stages.rows);
    ghost var written := db.View();
    MarkedRows(t, written, epoch, scan, stages.rows);
    if stages.result.Err? {
      return stages.result;
    }
    db.MarkComplete(scan, epoch);
    return stages.result;
  }

  // ---- The rows of completed pairs ----

  /** The row shows the write: its outcome, and each mark and reward that the write knows. */
  predicate Shows(row: AttestationRow, write: AttestationWrite) {
    && row.assignment == write.assignment && row.details == write.details
    && (write.marks.source.Some? ==> row.marks.source == write.marks.source)
    && (write.marks.target.Some? ==> row.marks.target == write.marks.target)
    && (write.marks.head.Some? ==> row.marks.head == write.marks.head)
    && (write.rewards.source.Some? ==> row.rewards.source == write.rewards.source)
    && (write.rewards.target.Some? ==> row.rewards.target == write.rewards.target)
    && (write.rewards.head.Some? ==> row.rewards.head == write.rewards.head)
    && (write.rewards.inactivity.Some? ==> row.rewards.inactivity == write.rewards.inactivity)
  }

  /** A final row, known to be the outcome of its duty, that shows the write. */
  ghost predicate Stands(rows: map<Pair, AttestationRow>, k: Pair, write: AttestationWrite) {
    k in rows && rows[k].finalized && rows[k].inclusionKnown && Shows(rows[k], write)
  }

  /** The rows are final writes of scanned validators, and all of them when the scan succeeds. */
  predicate Fills(stages: Stages, scan: set<Validator>) {
    && stages.rows.Keys <= scan
    && (forall v <- stages.rows :: stages.rows[v].finalized)
    && (stages.result.Ok? ==> stages.rows.Keys == scan)
  }

  /** The rows that the writes of an archive scan amount to; a later write for the same validator wins. */
  function StagedRows(writes: seq<Dense.DutyWrite>): map<Validator, AttestationWrite> {
    if writes == [] then map[] else
      var last := writes[|writes| - 1];
      StagedRows(writes[..|writes| - 1])[last.duty.validator := last.write]
  }

  lemma {:induction false} StagedRowsFacts(writes: seq<Dense.DutyWrite>)
    ensures forall v :: v in StagedRows(writes) <==> exists w :: w in writes && w.duty.validator == v
    ensures forall v <- StagedRows(writes) ::
              exists w :: w in writes && w.duty.validator == v && w.write == StagedRows(writes)[v]
  {
    if writes != [] {
      var n := |writes| - 1;
      StagedRowsFacts(writes[..n]);
      assert writes == writes[..n] + [writes[n]];
    }
  }

  /** A finalized archive scan that succeeds, dense or sparse, fills its rows. */
  lemma ArchiveScanFills(
    writes: seq<Dense.DutyWrite>, duties: seq<Outcome.Duty>, rewards: map<Validator, Outcome.Reward>,
    scan: set<Validator>)
    requires Dense.Answers(duties, rewards, scan)
    requires forall d <- duties :: d.validator in scan ==> exists w :: w in writes && w.duty == d
    requires forall w <- writes :: Dense.IsWriteFor(w, duties, rewards, scan, true)
    ensures Fills(Stages(StagedRows(writes), Ok(())), scan)
  {
    StagedRowsFacts(writes);
    forall v | v in scan ensures v in StagedRows(writes) {
      var d :| d in duties && d.validator == v;
      var w :| w in writes && w.duty == d;
    }
  }

  ghost predicate RowsKept(a: Tables, b: Tables) {
    forall k <- a.completed :: Lookup(b.attestations, k) == Lookup(a.attestations, k)
  }

  lemma FinalWriteStands(t: Tables, k: Pair, write: AttestationWrite, rows: map<Pair, AttestationRow>)
    requires write.finalized && k !in t.completed && Lookup(rows, k) == Some(MergedRow(t, k, write, true))
    ensures Stands(rows, k, write)
  {
  }

  /** A filling scan of pairs not yet complete leaves the rows of the others and fills its own. */
  lemma FilledRows(
    before: Tables, after: Tables, epoch: Epoch, scan: set<Validator>, stages: Stages)
    requires RowsWritten(before, after.attestations, epoch, scan, stages.rows, stages.result.Ok?)
    requires Fills(stages, scan) && forall v <- scan :: (v, epoch) !in before.completed
    ensures RowsKept(before, after)
    ensures stages.result.Ok? ==> forall v <- scan :: Stands(after.attestations, (v, epoch), stages.rows[v])
  {
    if stages.result.Ok? {
      forall v | v in scan ensures Stands(after.attestations, (v, epoch), stages.rows[v]) {
        FinalWriteStands(before, (v, epoch), stages.rows[v], after.attestations);
      }
    }
  }

  predicate OpenGap(t: Tables, tracked: set<Validator>, target: Epoch, k: Pair) {
    k in t.gaps && k.0 in tracked && k.1 <= target && k !in t.completed
  }

  /** The newest eight epochs in which a tracked validator has a gap that no scan has completed. */
  function GapEpochs(t: Tables, tracked: set<Validator>, target: Epoch): seq<Epoch> {
    HeadScan.Newest(set k | k in t.gaps && OpenGap(t, tracked, target, k) :: k.1, target, 8)
  }

  /** They are at most eight, newest first, each with an open gap; one left out is older than eight of them. */
  lemma GapEpochsAreNewest(t: Tables, tracked: set<Validator>, target: Epoch)
    ensures var epochs := GapEpochs(t, tracked, target);
      && |epochs| <= 8
      && (forall i, j :: 0 <= i < j < |epochs| ==> epochs[i] > epochs[j])
      && (forall e <- epochs :: exists v: Validator :: OpenGap(t, tracked, target, (v, e)))
      && (forall v: Validator, e: Epoch :: OpenGap(t, tracked, target, (v, e)) && e !in epochs ==>
            |epochs| == 8 && forall x <- epochs :: x > e)
  {
    var open := set k | k in t.gaps && OpenGap(t, tracked, target, k) :: k.1;
    HeadScan.NewestFacts(open, target, 8);
    forall e | e in open ensures exists v: Validator :: OpenGap(t, tracked, target, (v, e)) {
      var k :| k in t.gaps && OpenGap(t, tracked, target, k) && k.1 == e;
      assert OpenGap(t, tracked, target, (k.0, e));
    }
    forall v: Validator, e: Epoch | OpenGap(t, tracked, target, (v, e)) ensures e in open {
      assert (v, e) in t.gaps;
    }
  }

  /** What a repair of the epoch scans. */
  function GapsAt(t: Tables, tracked: set<Validator>, epoch: Epoch): set<Validator> {
    set v | v in tracked && (v, epoch) in t.gaps && (v, epoch) !in t.completed
  }

  /**
   * When the scans fill their rows, repairs keep the rows of pairs complete before, and each pair they complete has a
   * final, known row that shows its write.
   */
  ghost predicate RowsRepaired(t: Tables, now: Tables, tracked: set<Validator>, scan: Epoch -> Stages) {
    (forall epoch :: Fills(scan(epoch), GapsAt(t, tracked, epoch))) ==>
      && RowsKept(t, now)
      && forall k <- now.completed :: k !in t.completed ==>
          k.0 in scan(k.1).rows && Stands(now.attestations, k, scan(k.1).rows[k.0])
  }

  /**
   * The open gaps of those epochs are scanned, newest first; a failing epoch stays a gap and does not stop the others.
   */
  method RepairLiveGaps(db: Database, tracked: set<Validator>, target: Epoch, scan: Epoch -> Stages)
    modifies db
    ensures RowsRepaired(old(db.View()), db.View(), tracked, scan)
    ensures db.View() == old(db.View()).(attestations := db.attestations, completed := db.completed, gaps := db.gaps)
    ensures forall k :: k in db.completed <==>
      || k in old(db.completed)
      || (OpenGap(old(db.View()), tracked, target, k) && k.1 in GapEpochs(old(db.View()), tracked, target)
          && scan(k.1).result.Ok?)
    ensures forall k :: k in db.gaps <==> k in old(db.gaps) && (k in old(db.completed) || k !in db.completed)
  {
    ghost var t := db.View();
    var open := set k | k in db.gaps && OpenGap(db.View(), tracked, target, k) :: k.1;
    var epochs := HeadScan.Newest(open, target, 8);
    HeadScan.NewestFacts(open, target, 8);
    for i := 0 to |epochs|
      invariant db.View() == t.(attestations := db.attestations, completed := db.completed, gaps := db.gaps)
      invariant RepairedSoFar(t, db.View(), tracked, epochs[..i], scan)
      invariant RowsRepaired(t, db.View(), tracked, scan)
    {
      assert epochs[i] in epochs;
      ghost var now := db.View();
      RepairEpoch(db, tracked, epochs[i], scan(epochs[i]));
      RowsRepairedMore(t, now, db.View(), tracked, epochs[..i], epochs[i], scan);
      RepairedOneMore(t, now, db.View(), tracked, epochs[..i], epochs[i], scan);
      assert epochs[..i + 1] == epochs[..i] + [epochs[i]];
    }
    assert epochs[..|epochs|] == epochs;
  }

  /** Exactly the tracked open gaps of `epochs` whose scan succeeded have been completed. */
  ghost predicate RepairedSoFar(
    t: Tables, now: Tables, tracked: set<Validator>, epochs: seq<Epoch>, scan: Epoch -> Stages)
  {
    && (forall k: Pair :: k in now.completed <==>
          k in t.completed || (k.1 in epochs && k.0 in tracked && k in t.gaps && scan(k.1).result.Ok?))
    && (forall k: Pair :: k in now.gaps <==> k in t.gaps && (k in t.completed || k !in now.completed))
  }

  /** The gaps of one epoch. */
  method RepairEpoch(db: Database, tracked: set<Validator>, epoch: Epoch, stages: Stages)
    modifies db
    ensures db.View() == old(db.View()).(attestations := db.attestations, completed := db.completed, gaps := db.gaps)
    ensures EpochRepaired(old(db.View()), db.View(), tracked, epoch, stages)
    ensures forall k: Pair :: k in db.completed <==>
      k in old(db.completed) || (k.1 == epoch && k.0 in tracked && k in old(db.gaps) && stages.result.Ok?)
    ensures forall k: Pair :: k in db.gaps <==> k in old(db.gaps) && (k in old(db.completed) || k !in db.completed)
  {
    ghost var t := db.View();
    var validators := GapsAt(db.View(), tracked, epoch);
    forall k: Pair
      ensures k.0 in validators && k.1 == epoch
         <==> k.1 == epoch && k.0 in tracked && k in db.gaps && k !in db.completed
    {
      assert k == (k.0, k.1);
    }
    var ignored := ScanEpoch(db, epoch, validators, stages);
    if Fills(stages, validators) && validators != {} {
      FilledRows(t, db.View(), epoch, validators, stages);
    }
  }

  ghost predicate EpochRepaired(a: Tables, b: Tables, tracked: set<Validator>, epoch: Epoch, stages: Stages) {
    Fills(stages, GapsAt(a, tracked, epoch)) ==>
      && RowsKept(a, b)
      && (stages.result.Ok? ==> forall v <- GapsAt(a, tracked, epoch) ::
            Stands(b.attestations, (v, epoch), stages.rows[v]))
  }

  lemma RowsRepairedMore(
    t: Tables, now: Tables, next: Tables, tracked: set<Validator>, epochs: seq<Epoch>, epoch: Epoch,
    scan: Epoch -> Stages)
    requires RepairedSoFar(t, now, tracked, epochs, scan) && epoch !in epochs
    requires RowsRepaired(t, now, tracked, scan) && EpochRepaired(now, next, tracked, epoch, scan(epoch))
    requires forall k: Pair :: k in next.completed <==>
      k in now.completed || (k.1 == epoch && k.0 in tracked && k in now.gaps && scan(epoch).result.Ok?)
    ensures RowsRepaired(t, next, tracked, scan)
  {
    if forall e :: Fills(scan(e), GapsAt(t, tracked, e)) {
      forall v ensures (v, epoch) in now.gaps && (v, epoch) !in now.completed
                  <==> (v, epoch) in t.gaps && (v, epoch) !in t.completed
      {
      }
      assert GapsAt(now, tracked, epoch) == GapsAt(t, tracked, epoch);
      assert Fills(scan(epoch), GapsAt(now, tracked, epoch));
      forall k | k in next.completed && k !in t.completed
        ensures k.0 in scan(k.1).rows && Stands(next.attestations, k, scan(k.1).rows[k.0])
      {
        if k in now.completed {
          assert Lookup(next.attestations, k) == Lookup(now.attestations, k);
        } else {
          assert k == (k.0, epoch) && k.0 in GapsAt(now, tracked, epoch);
        }
      }
    }
  }

  lemma RepairedOneMore(
    t: Tables, now: Tables, next: Tables, tracked: set<Validator>, epochs: seq<Epoch>, epoch: Epoch,
    scan: Epoch -> Stages)
    requires RepairedSoFar(t, now, tracked, epochs, scan)
    requires forall k: Pair :: k in next.completed <==>
      k in now.completed || (k.1 == epoch && k.0 in tracked && k in now.gaps && scan(epoch).result.Ok?)
    requires forall k: Pair :: k in next.gaps <==> k in now.gaps && (k in now.completed || k !in next.completed)
    ensures RepairedSoFar(t, next, tracked, epochs + [epoch], scan)
  {
  }

  // ---- One pass ----

  predicate Alive(validators: map<Validator, ValidatorRow>, k: Pair) {
    k.0 in validators && ActiveAt(validators[k.0], k.1)
  }

  /** What a pass over epochs up to `hi` has to see completed. */
  predicate Due(
    config: Config, nonContiguous: bool, state: ScanState, validators: map<Validator, ValidatorRow>, hi: int, k: Pair)
  {
    k.0 in state && Alive(validators, k) && StartOf(config, nonContiguous, state, k.0) <= k.1 <= hi
  }

  /** Lifetimes stay; watermarks never go back. */
  ghost predicate Advanced(a: map<Validator, ValidatorRow>, b: map<Validator, ValidatorRow>) {
    && a.Keys == b.Keys
    && forall v <- a ::
      && b[v].activation == a[v].activation && b[v].exit == a[v].exit
      && (a[v].lastScanned.Some? ==> b[v].lastScanned.Some? && a[v].lastScanned.value <= b[v].lastScanned.value)
  }

  /** The in-memory state moves like the table, and only up to `hi`. */
  ghost predicate StateAdvanced(a: ScanState, b: ScanState, hi: int) {
    && a.Keys == b.Keys
    && forall v <- a ::
      && b[v].0 == a[v].0
      && (b[v].1 == a[v].1 || (b[v].1.Some? && b[v].1.value <= hi && (a[v].1.Some? ==> a[v].1.value <= b[v].1.value)))
  }

  /** A watermark moves only to an epoch at which its validator is alive. */
  ghost predicate MovedWhileAlive(a: ScanState, b: ScanState, validators: map<Validator, ValidatorRow>) {
    && a.Keys == b.Keys
    && forall v <- a :: b[v].1 == a[v].1 || (b[v].1.Some? && Alive(validators, (v, b[v].1.value)))
  }

  function Bumped(state: ScanState, scanned: set<Validator>, epoch: Epoch): ScanState {
    map v | v in state :: if v in scanned then (state[v].0, Greatest(state[v].1, epoch)) else state[v]
  }

  /** The scans that succeeded, in order. */
  type Log = seq<(Epoch, set<Validator>)>

  ghost predicate Logged(log: Log, k: Pair) {
    exists i :: 0 <= i < |log| && log[i].0 == k.1 && k.0 in log[i].1
  }

  /** No pair was complete when it was scanned: neither before the run nor from an earlier scan of it. */
  ghost predicate NeverRescanned(before: set<Pair>, log: Log) {
    forall i, v :: 0 <= i < |log| && v in log[i].1 ==> (v, log[i].0) !in before && !Logged(log[..i], (v, log[i].0))
  }

  lemma LoggedSnoc(log: Log, entry: (Epoch, set<Validator>), k: Pair)
    ensures Logged(log + [entry], k) <==> Logged(log, k) || (entry.0 == k.1 && k.0 in entry.1)
  {
    var more := log + [entry];
    if Logged(log, k) {
      var i :| 0 <= i < |log| && log[i].0 == k.1 && k.0 in log[i].1;
      assert more[i] == log[i];
    }
    if entry.0 == k.1 && k.0 in entry.1 {
      assert more[|log|] == entry;
    }
  }

  lemma NeverRescannedSnoc(before: set<Pair>, log: Log, entry: (Epoch, set<Validator>))
    requires NeverRescanned(before, log)
    requires forall v <- entry.1 :: (v, entry.0) !in before && !Logged(log, (v, entry.0))
    ensures NeverRescanned(before, log + [entry])
  {
    var more := log + [entry];
    forall i, v | 0 <= i < |more| && v in more[i].1
      ensures (v, more[i].0) !in before && !Logged(more[..i], (v, more[i].0))
    {
      assert more[..i] == if i < |log| then log[..i] else log;
    }
  }

  /** The epoch's candidates that no scan has completed. */
  function ToScan(config: Config, nonContiguous: bool, state: ScanState, t: Tables, epoch: Epoch): set<Validator> {
    set v | v in ActiveValidatorsAt(t, state.Keys, epoch) && epoch >= StartOf(config, nonContiguous, state, v)
        && (v, epoch) !in t.completed
  }

  /** Every scan fills its rows: what an archive scan of either mode does. */
  ghost predicate FillsAll(scan: (Epoch, set<Validator>) -> Stages) {
    forall epoch, validators :: Fills(scan(epoch, validators), validators)
  }

  /** Each scanned pair has a final, known row that shows the write of its scan. */
  ghost predicate LogStands(now: Tables, log: Log, scan: (Epoch, set<Validator>) -> Stages) {
    forall i, v :: 0 <= i < |log| && v in log[i].1 ==>
      && v in scan(log[i].0, log[i].1).rows
      && Stands(now.attestations, (v, log[i].0), scan(log[i].0, log[i].1).rows[v])
  }

  /** The watermark of each scanned validator has come to the epoch. */
  ghost predicate Reached(validators: map<Validator, ValidatorRow>, log: Log) {
    forall i, v :: 0 <= i < |log| && v in log[i].1 ==>
      && v in validators && validators[v].lastScanned.Some? && log[i].0 <= validators[v].lastScanned.value
  }

  /** What the scans of the log leave in the tables. */
  ghost predicate Filled(scan: (Epoch, set<Validator>) -> Stages, t: Tables, now: Tables, log: Log) {
    && Reached(now.validators, log)
    && (FillsAll(scan) ==> RowsKept(t, now) && LogStands(now, log, scan))
  }

  lemma NothingFilled(scan: (Epoch, set<Validator>) -> Stages, t: Tables)
    ensures Filled(scan, t, t, [])
  {
  }

  lemma FilledJoin(
    scan: (Epoch, set<Validator>) -> Stages, t: Tables, now: Tables, next: Tables, a: Log, b: Log)
    requires Filled(scan, t, now, a) && Filled(scan, now, next, b)
    requires t.completed <= now.completed && forall k :: Logged(a, k) ==> k in now.completed
    requires Advanced(now.validators, next.validators)
    ensures Filled(scan, t, next, a + b)
  {
    forall i, v | 0 <= i < |a + b| && v in (a + b)[i].1
      ensures v in next.validators && next.validators[v].lastScanned.Some?
      ensures (a + b)[i].0 <= next.validators[v].lastScanned.value
    {
      assert (a + b)[i] == if i < |a| then a[i] else b[i - |a|];
    }
    if FillsAll(scan) {
      LogStandsJoin(scan, now, next, a, b);
    }
  }

  lemma LogStandsJoin(scan: (Epoch, set<Validator>) -> Stages, now: Tables, next: Tables, a: Log, b: Log)
    requires LogStands(now, a, scan) && LogStands(next, b, scan) && RowsKept(now, next)
    requires forall k :: Logged(a, k) ==> k in now.completed
    ensures LogStands(next, a + b, scan)
  {
    forall i, v | 0 <= i < |a + b| && v in (a + b)[i].1
      ensures v in scan((a + b)[i].0, (a + b)[i].1).rows
      ensures Stands(next.attestations, (v, (a + b)[i].0), scan((a + b)[i].0, (a + b)[i].1).rows[v])
    {
      if i < |a| {
        assert (a + b)[i] == a[i] && Logged(a, (v, a[i].0));
        assert Lookup(next.attestations, (v, a[i].0)) == Lookup(now.attestations, (v, a[i].0));
      } else {
        assert (a + b)[i] == b[i - |a|];
      }
    }
  }

  /** Completed pairs that had final, known rows before a run have them after it, and so do those it completes. */
  lemma RunFillsCompleted(scan: (Epoch, set<Validator>) -> Stages, t: Tables, now: Tables, log: Log)
    requires Filled(scan, t, now, log) && Consistent(t, now, log) && FillsAll(scan)
    requires Safety.CompletedHaveRows(t)
    ensures Safety.CompletedHaveRows(now)
  {
    forall k | k in now.completed
      ensures k in now.attestations && now.attestations[k].finalized && now.attestations[k].inclusionKnown
    {
      if k in t.completed {
        assert Lookup(now.attestations, k) == Lookup(t.attestations, k);
      } else {
        var i :| 0 <= i < |log| && log[i].0 == k.1 && k.0 in log[i].1;
        assert k == (k.0, log[i].0);
      }
    }
  }

  /** The stages never fail. */
  ghost predicate Reliable(scan: (Epoch, set<Validator>) -> Stages) {
    forall epoch, validators :: scan(epoch, validators).result.Ok?
  }

  lemma BumpedWhileAlive(
    state: ScanState, current: ScanState, t: map<Validator, ValidatorRow>, now: map<Validator, ValidatorRow>,
    scanned: set<Validator>, epoch: Epoch)
    requires MovedWhileAlive(state, current, t) && Advanced(t, now) && forall v <- scanned :: Alive(now, (v, epoch))
    ensures MovedWhileAlive(state, Bumped(current, scanned, epoch), t)
  {
    forall v | v in scanned ensures Alive(t, (v, epoch)) {
      assert Alive(now, (v, epoch));
    }
  }

  lemma WatermarksAdvance(t: Tables, scanned: set<Validator>, epoch: Epoch)
    ensures Advanced(t.validators, ScannedThrough(t, scanned, epoch).validators)
  {
  }

  lemma FilledByScan(
    scan: (Epoch, set<Validator>) -> Stages, before: Tables, after: Tables, epoch: Epoch, scanned: set<Validator>,
    ok: bool)
    requires RowsWritten(before, after.attestations, epoch, scanned, scan(epoch, scanned).rows, ok)
    requires ok == scan(epoch, scanned).result.Ok? && forall v <- scanned :: (v, epoch) !in before.completed
    ensures FillsAll(scan) ==> RowsKept(before, after) && (ok ==> LogStands(after, [(epoch, scanned)], scan))
  {
    if FillsAll(scan) {
      FilledRows(before, after, epoch, scanned, scan(epoch, scanned));
    }
  }

  lemma FilledByPass(
    scan: (Epoch, set<Validator>) -> Stages, before: Tables, after: Tables, epoch: Epoch, scanned: set<Validator>)
    requires FillsAll(scan) ==> RowsKept(before, after) && LogStands(after, [(epoch, scanned)], scan)
    requires scanned <= after.validators.Keys
    ensures Filled(scan, before, ScannedThrough(after, scanned, epoch), [(epoch, scanned)])
  {
  }

  /** One epoch of a pass. */
  method PassEpoch(
    db: Database, config: Config, nonContiguous: bool, state: ScanState, epoch: Epoch,
    scan: (Epoch, set<Validator>) -> Stages)
    returns (r: Result<ScanState>, ghost scanned: set<Validator>)
    modifies db
    ensures scanned == if r.Ok? then ToScan(config, nonContiguous, state, old(db.View()), epoch) else {}
    ensures r.Ok? ==> r.value == Bumped(state, scanned, epoch)
    ensures forall k :: k in db.completed <==> k in old(db.completed) || (k.0 in scanned && k.1 == epoch)
    ensures Advanced(old(db.validators), db.validators) && (Reliable(scan) ==> r.Ok?)
    ensures Filled(scan, old(db.View()), db.View(), if r.Ok? then [(epoch, scanned)] else [])
  {
    var active := ActiveValidatorsAt(db.View(), state.Keys, epoch);
    var candidates := set v | v in active && epoch >= StartOf(config, nonContiguous, state, v);
    var covered := set v | v in candidates && (v, epoch) in db.completed;
    var scanValidators := candidates - covered;
    assert scanValidators == ToScan(config, nonContiguous, state, db.View(), epoch);
    if scanValidators == {} {
      assert Bumped(state, {}, epoch) == state;
      return Ok(state), {};
    }
    ghost var t := db.View();
    var result := ScanEpoch(db, epoch, scanValidators, scan(epoch, scanValidators));
    ghost var scannedTables := db.View();
    FilledByScan(scan, t, scannedTables, epoch, scanValidators, result.Ok?);
    if result.Err? {
      return Err(result.error), {};
    }
    FilledByPass(scan, t, scannedTables, epoch, scanValidators);
    db.UpdateValidatorsScannedEpoch(scanValidators, epoch);
    WatermarksAdvance(scannedTables, scanValidators, epoch);
    return Ok(Bumped(state, scanValidators, epoch)), scanValidators;
  }

  /** Within a pass, what is scanned at an epoch is what the state at its start makes due there. */
  lemma ScannedAreDue(
    config: Config, nonContiguous: bool, state: ScanState, current: ScanState, t: Tables, now: Tables, epoch: Epoch,
    k: Pair)
    requires StateAdvanced(state, current, epoch - 1) && Advanced(t.validators, now.validators)
    ensures k.0 in ToScan(config, nonContiguous, current, now, epoch) && k.1 == epoch
       <==> k.1 == epoch && k !in now.completed && Due(config, nonContiguous, state, t.validators, epoch, k)
  {
    assert k == (k.0, k.1);
  }

  /** Epochs below `epoch` are done: the due pairs are complete, by a scan of the log or from before. */
  ghost predicate DoneBelow(
    config: Config, nonContiguous: bool, state: ScanState, t: Tables, now: Tables, log: Log, epoch: Epoch)
  {
    && (forall k :: k in now.completed
          <==> k in t.completed || Due(config, nonContiguous, state, t.validators, epoch - 1, k))
    && (forall k :: k in now.completed <==> k in t.completed || Logged(log, k))
    && Advanced(t.validators, now.validators)
    && NeverRescanned(t.completed, log)
  }

  lemma DoneStep(
    config: Config, nonContiguous: bool, state: ScanState, current: ScanState, t: Tables, now: Tables, next: Tables,
    log: Log, epoch: Epoch)
    requires StateAdvanced(state, current, epoch - 1) && DoneBelow(config, nonContiguous, state, t, now, log, epoch)
    requires Advanced(now.validators, next.validators)
    requires var scanned := ToScan(config, nonContiguous, current, now, epoch);
      forall k :: k in next.completed <==> k in now.completed || (k.0 in scanned && k.1 == epoch)
    ensures DoneBelow(config, nonContiguous, state, t, next,
      log + [(epoch, ToScan(config, nonContiguous, current, now, epoch))], epoch + 1)
  {
    var entry := (epoch, ToScan(config, nonContiguous, current, now, epoch));
    NeverRescannedSnoc(t.completed, log, entry);
    forall k
      ensures k in next.completed <==> k in t.completed || Due(config, nonContiguous, state, t.validators, epoch, k)
      ensures k in next.completed <==> k in t.completed || Logged(log + [entry], k)
    {
      ScannedAreDue(config, nonContiguous, state, current, t, now, epoch, k);
      LoggedSnoc(log, entry, k);
    }
  }

  /** The in-memory state after one more epoch. */
  lemma StateStep(
    config: Config, nonContiguous: bool, state: ScanState, current: ScanState, t: Tables, now: Tables, epoch: Epoch)
    requires StateAdvanced(state, current, epoch - 1) && MovedWhileAlive(state, current, t.validators)
    requires Advanced(t.validators, now.validators)
    ensures var next := Bumped(current, ToScan(config, nonContiguous, current, now, epoch), epoch);
      StateAdvanced(state, next, epoch) && MovedWhileAlive(state, next, t.validators)
  {
    BumpedWhileAlive(state, current, t.validators, now.validators, ToScan(config, nonContiguous, current, now, epoch),
      epoch);
  }

  /** So has the watermark in memory. */
  ghost predicate StateReached(state: ScanState, log: Log) {
    forall i, v :: 0 <= i < |log| && v in log[i].1 ==> v in state && state[v].1.Some? && log[i].0 <= state[v].1.value
  }

  lemma StateReachedMore(state: ScanState, log: Log, epoch: Epoch, scanned: set<Validator>)
    requires StateReached(state, log) && scanned <= state.Keys
    ensures StateReached(Bumped(state, scanned, epoch), log + [(epoch, scanned)])
  {
    var more := log + [(epoch, scanned)];
    forall i, v | 0 <= i < |more| && v in more[i].1
      ensures v in state && Bumped(state, scanned, epoch)[v].1.Some?
      ensures more[i].0 <= Bumped(state, scanned, epoch)[v].1.value
    {
      assert i < |log| ==> more[i] == log[i];
    }
  }

  /** Every due pair of the pass is completed, none that was complete is scanned, and no watermark moves back. */
  method RunPass(
    db: Database, config: Config, nonContiguous: bool, state: ScanState, minStart: Epoch, target: Epoch,
    scan: (Epoch, set<Validator>) -> Stages)
    returns (r: Result<ScanState>, ghost log: Log)
    requires minStart <= target
    requires forall v <- state :: minStart <= StartOf(config, nonContiguous, state, v)
    modifies db
    ensures r.Ok? ==> StateAdvanced(state, r.value, target) && MovedWhileAlive(state, r.value, old(db.validators))
    ensures Reliable(scan) ==> r.Ok?
    ensures r.Ok? ==> DoneBelow(config, nonContiguous, state, old(db.View()), db.View(), log, target + 1)
    ensures r.Err? ==> exists epoch: Epoch ::
      epoch <= target && DoneBelow(config, nonContiguous, state, old(db.View()), db.View(), log, epoch)
    ensures Filled(scan, old(db.View()), db.View(), log)
    ensures r.Ok? ==> StateReached(r.value, log)
  {
    var current := state;
    log := [];
    ghost var t := db.View();
    for epoch := minStart to target + 1
      invariant PassedBelow(config, nonContiguous, scan, state, current, t, db.View(), log, epoch)
    {
      ghost var now := db.View();
      var next, scanned := PassEpoch(db, config, nonContiguous, current, epoch, scan);
      if next.Err? {
        FailedEpochAddsNothing(config, nonContiguous, scan, state, t, now, db.View(), log, epoch);
        return Err(next.error), log;
      }
      PassedOneMore(config, nonContiguous, scan, state, current, t, now, db.View(), log, epoch);
      log := log + [(epoch, scanned)];
      current := next.value;
    }
    return Ok(current), log;
  }

  /** The epochs below this one have been passed: in the tables, in the log and in memory. */
  ghost predicate PassedBelow(
    config: Config, nonContiguous: bool, scan: (Epoch, set<Validator>) -> Stages, state: ScanState,
    current: ScanState, t: Tables, now: Tables, log: Log, epoch: Epoch)
  {
    && StateAdvanced(state, current, epoch - 1) && MovedWhileAlive(state, current, t.validators)
    && DoneBelow(config, nonContiguous, state, t, now, log, epoch)
    && Filled(scan, t, now, log) && StateReached(current, log)
  }

  lemma PassedOneMore(
    config: Config, nonContiguous: bool, scan: (Epoch, set<Validator>) -> Stages, state: ScanState,
    current: ScanState, t: Tables, now: Tables, next: Tables, log: Log, epoch: Epoch)
    requires PassedBelow(config, nonContiguous, scan, state, current, t, now, log, epoch)
    requires Advanced(now.validators, next.validators)
    requires var scanned := ToScan(config, nonContiguous, current, now, epoch);
      && (forall k :: k in next.completed <==> k in now.completed || (k.0 in scanned && k.1 == epoch))
      && Filled(scan, now, next, [(epoch, scanned)])
    ensures var scanned := ToScan(config, nonContiguous, current, now, epoch);
      PassedBelow(config, nonContiguous, scan, state, Bumped(current, scanned, epoch), t, next,
        log + [(epoch, scanned)], epoch + 1)
  {
    var scanned := ToScan(config, nonContiguous, current, now, epoch);
    FilledJoin(scan, t, now, next, log, [(epoch, scanned)]);
    DoneStep(config, nonContiguous, state, current, t, now, next, log, epoch);
    StateStep(config, nonContiguous, state, current, t, now, epoch);
    StateReachedMore(current, log, epoch, scanned);
  }

  lemma FailedEpochAddsNothing(
    config: Config, nonContiguous: bool, scan: (Epoch, set<Validator>) -> Stages, state: ScanState, t: Tables,
    now: Tables, next: Tables, log: Log, epoch: Epoch)
    requires DoneBelow(config, nonContiguous, state, t, now, log, epoch) && Filled(scan, t, now, log)
    requires Advanced(now.validators, next.validators) && forall k :: k in next.completed <==> k in now.completed
    requires Filled(scan, now, next, [])
    ensures DoneBelow(config, nonContiguous, state, t, next, log, epoch) && Filled(scan, t, next, log)
  {
    FilledJoin(scan, t, now, next, log, []);
    assert log + [] == log;
  }

  // ---- The whole run ----

  /**
   * What a run has to see completed: from activation up to the first target if it sweeps non-contiguously, and
   * from the startup watermark up to the last target; both clamped by depth and by the validator's lifetime.
   */
  predicate Eligible(
    config: Config, swept: bool, state: ScanState, validators: map<Validator, ValidatorRow>, first: Epoch, last: int,
    k: Pair)
  {
    && k.0 in state && Alive(validators, k)
    && (|| (swept && StartOf(config, true, state, k.0) <= k.1 <= first)
        || (StartOf(config, false, state, k.0) <= k.1 <= last))
  }

  ghost predicate BackfilledTo(
    config: Config, swept: bool, state0: ScanState, t: Tables, first: Epoch, last: int, state: ScanState, now: Tables,
    log: Log)
  {
    && (forall k :: k in now.completed
          <==> k in t.completed || Eligible(config, swept, state0, t.validators, first, last, k))
    && Consistent(t, now, log)
    && StateAdvanced(state0, state, last)
  }

  ghost predicate Consistent(t: Tables, now: Tables, log: Log) {
    && (forall k :: k in now.completed <==> k in t.completed || Logged(log, k))
    && Advanced(t.validators, now.validators)
    && NeverRescanned(t.completed, log)
  }

  lemma LoggedJoin(a: Log, b: Log, k: Pair)
    ensures Logged(a + b, k) <==> Logged(a, k) || Logged(b, k)
  {
    if Logged(a, k) {
      var i :| 0 <= i < |a| && a[i].0 == k.1 && k.0 in a[i].1;
      assert (a + b)[i] == a[i];
    }
    if Logged(b, k) {
      var i :| 0 <= i < |b| && b[i].0 == k.1 && k.0 in b[i].1;
      assert (a + b)[|a| + i] == b[i];
    }
  }

  /** A pass after earlier scans: still nothing scanned twice. */
  lemma ConsistentJoin(t: Tables, now: Tables, next: Tables, a: Log, b: Log)
    requires Consistent(t, now, a) && Consistent(now, next, b)
    ensures Consistent(t, next, a + b)
  {
    forall k ensures k in next.completed <==> k in t.completed || Logged(a + b, k) {
      LoggedJoin(a, b, k);
    }
    forall i, v | 0 <= i < |a + b| && v in (a + b)[i].1
      ensures (v, (a + b)[i].0) !in t.completed && !Logged((a + b)[..i], (v, (a + b)[i].0))
    {
      if i < |a| {
        assert (a + b)[..i] == a[..i];
      } else {
        assert (a + b)[..i] == a + b[..i - |a|];
        LoggedJoin(a, b[..i - |a|], (v, (a + b)[i].0));
      }
    }
  }

  /** Contiguous passes: the watermarks of earlier passes never hide an eligible epoch. */
  lemma ContiguousPassDue(
    config: Config, swept: bool, state0: ScanState, state: ScanState, t: Tables, now: Tables, first: Epoch, last: int,
    target: Epoch, k: Pair)
    requires StateAdvanced(state0, state, last) && last <= target && Advanced(t.validators, now.validators)
    ensures Eligible(config, swept, state0, t.validators, first, target, k)
       <==> (|| Eligible(config, swept, state0, t.validators, first, last, k)
             || Due(config, false, state, now.validators, target, k))
  {
  }

  lemma ContiguousPass(
    config: Config, swept: bool, state0: ScanState, t: Tables, first: Epoch, last: int, target: Epoch,
    state: ScanState, now: Tables, log: Log, state': ScanState, next: Tables, more: Log)
    requires BackfilledTo(config, swept, state0, t, first, last, state, now, log) && last <= target
    requires DoneBelow(config, false, state, now, next, more, target + 1) && StateAdvanced(state, state', target)
    ensures BackfilledTo(config, swept, state0, t, first, target, state', next, log + more)
  {
    ConsistentJoin(t, now, next, log, more);
    forall k
      ensures k in next.completed
         <==> k in t.completed || Eligible(config, swept, state0, t.validators, first, target, k)
    {
      ContiguousPassDue(config, swept, state0, state, t, now, first, last, target, k);
    }
  }

  ghost predicate AllPast(config: Config, nonContiguous: bool, state: ScanState, target: Epoch) {
    forall v <- state :: StartOf(config, nonContiguous, state, v) > target
  }

  /** Nothing starts at or before the target: the run is already there. */
  lemma NothingDue(
    config: Config, swept: bool, state0: ScanState, t: Tables, first: Epoch, last: int, target: Epoch,
    state: ScanState, now: Tables, log: Log)
    requires BackfilledTo(config, swept, state0, t, first, last, state, now, log) && last <= target
    requires AllPast(config, false, state, target)
    ensures BackfilledTo(config, swept, state0, t, first, target, state, now, log)
  {
    forall k
      ensures k in now.completed
         <==> k in t.completed || Eligible(config, swept, state0, t.validators, first, target, k)
    {
      ContiguousPassDue(config, swept, state0, state, t, now, first, last, target, k);
    }
  }

  /** The non-contiguous sweep, then watermarks raised for those active at its target. */
  lemma SweepDone(
    config: Config, state0: ScanState, t: Tables, first: Epoch, next: Tables, log: Log, state: ScanState,
    raised: ScanState, after: Tables)
    requires DoneBelow(config, true, state0, t, next, log, first + 1)
    requires StateAdvanced(state0, state, first) && StateAdvanced(state, raised, first)
    requires after == next.(validators := after.validators) && Advanced(next.validators, after.validators)
    ensures BackfilledTo(config, true, state0, t, first, first, raised, after, log)
  {
    forall k
      ensures k in after.completed
         <==> k in t.completed || Eligible(config, true, state0, t.validators, first, first, k)
    {
    }
  }

  /** Raise the watermark of every tracked validator active at the target, in the table and in memory. */
  method RaiseWatermarks(db: Database, state: ScanState, target: Epoch) returns (raised: ScanState)
    modifies db
    ensures db.View() == old(db.View()).(validators := db.validators) && Advanced(old(db.validators), db.validators)
    ensures StateAdvanced(state, raised, target)
    ensures raised == Bumped(state, ActiveValidatorsAt(old(db.View()), state.Keys, target), target)
    ensures forall v <- state :: Alive(old(db.validators), (v, target)) ==>
      raised[v].1.Some? && raised[v].1.value >= target
  {
    var active := ActiveValidatorsAt(db.View(), state.Keys, target);
    if active != {} {
      db.UpdateValidatorsScannedEpoch(active, target);
    }
    return Bumped(state, active, target);
  }

  /**
   * What makes a run read finality: some validator to scan contiguously at or before the first target, and one whose
   * lifetime does not reach that target if a sweep comes first.
   */
  ghost predicate ReadsFinality(
    config: Config, state: ScanState, validators: map<Validator, ValidatorRow>, first: Epoch)
  {
    exists v :: v in state && StartOf(config, false, state, v) <= first
                && (config.nonContiguous ==> !Alive(validators, (v, first)))
  }

  datatype Finish = Finish(target: Epoch, polls: nat, state: ScanState)

  /** All that finality allows has been taken, or every start already lies past the target. */
  ghost predicate Exhausted(config: Config, finality: nat -> Epoch, end: Finish) {
    || (end.polls > 0
        && (FinalizedScanTarget(finality(end.polls - 1)).None?
              || FinalizedScanTarget(finality(end.polls - 1)).value <= end.target))
    || AllPast(config, false, end.state, end.target)
    || AllPast(config, true, end.state, end.target)
  }

  /** The non-contiguous sweep: every epoch from activation to the target, then raised watermarks. */
  method Sweep(
    db: Database, config: Config, state0: ScanState, first: Epoch, minStart: Epoch,
    scan: (Epoch, set<Validator>) -> Stages)
    returns (r: Result<ScanState>, ghost log: Log)
    requires minStart <= first && forall v <- state0 :: minStart <= StartOf(config, true, state0, v)
    modifies db
    ensures Consistent(old(db.View()), db.View(), log) && Filled(scan, old(db.View()), db.View(), log)
    ensures r.Ok? ==> BackfilledTo(config, true, state0, old(db.View()), first, first, r.value, db.View(), log)
    ensures Reliable(scan) ==> r.Ok?
    ensures r.Ok? && config.nonContiguous ==>
      (AllPast(config, false, r.value, first) <==> !ReadsFinality(config, state0, old(db.validators), first))
  {
    ghost var t := db.View();
    var passed;
    passed, log := RunPass(db, config, true, state0, minStart, first, scan);
    if passed.Err? {
      return Err(passed.error), log;
    }
    ghost var next := db.View();
    var state := RaiseWatermarks(db, passed.value, first);
    assert Filled(scan, next, db.View(), []);
    FilledJoin(scan, t, next, db.View(), log, []);
    assert log + [] == log;
    SweepDone(config, state0, t, first, next, log, passed.value, state, db.View());
    if config.nonContiguous {
      BumpedWhileAlive(state0, passed.value, t.validators, next.validators,
                       ActiveValidatorsAt(next, passed.value.Keys, first), first);
      SweptPast(config, state0, state, t.validators, next.validators, first);
    }
    return Ok(state), log;
  }

  /** After the sweep only a validator that had exited by its target is left to scan contiguously below it. */
  lemma SweptPast(
    config: Config, state: ScanState, raised: ScanState, before: map<Validator, ValidatorRow>,
    validators: map<Validator, ValidatorRow>, first: Epoch)
    requires config.nonContiguous && Advanced(before, validators)
    requires StateAdvanced(state, raised, first) && MovedWhileAlive(state, raised, before)
    requires forall v <- state :: Alive(validators, (v, first)) ==> raised[v].1.Some? && raised[v].1.value >= first
    ensures AllPast(config, false, raised, first) <==> !ReadsFinality(config, state, before, first)
  {
    forall v | v in state
      ensures StartOf(config, false, raised, v) > first
         <==> StartOf(config, false, state, v) > first || Alive(before, (v, first))
    {
      assert Alive(before, (v, first)) <==> Alive(validators, (v, first));
    }
  }

  /** A contiguous pass on top of what is already backfilled. */
  method Resume(
    db: Database, config: Config, state: ScanState, target: Epoch, minStart: Epoch,
    scan: (Epoch, set<Validator>) -> Stages,
    ghost state0: ScanState, ghost t: Tables, ghost first: Epoch, ghost last: int, ghost earlier: Log)
    returns (r: Result<ScanState>, ghost log: Log)
    requires minStart <= target && forall v <- state :: minStart <= StartOf(config, false, state, v)
    requires BackfilledTo(config, config.nonContiguous, state0, t, first, last, state, db.View(), earlier)
    requires last <= target && Filled(scan, t, db.View(), earlier)
    modifies db
    ensures Consistent(t, db.View(), log) && Filled(scan, t, db.View(), log) && (Reliable(scan) ==> r.Ok?)
    ensures r.Ok? ==> BackfilledTo(config, config.nonContiguous, state0, t, first, target, r.value, db.View(), log)
  {
    ghost var now := db.View();
    ghost var more;
    r, more := RunPass(db, config, false, state, minStart, target, scan);
    log := earlier + more;
    ConsistentJoin(t, now, db.View(), earlier, more);
    FilledJoin(scan, t, now, db.View(), earlier, more);
    if r.Ok? {
      ContiguousPass(config, config.nonContiguous, state0, t, first, last, target, state, now, earlier, r.value,
        db.View(), more);
    }
  }

  /** Before the sweep nothing has happened; after it the run is backfilled to `last`. */
  ghost predicate Underway(
    config: Config, pending: bool, state0: ScanState, t: Tables, first: Epoch, last: int, state: ScanState, now: Tables,
    log: Log)
  {
    if pending then config.nonContiguous && state == state0 && log == [] && now == t
    else BackfilledTo(config, config.nonContiguous, state0, t, first, last, state, now, log)
  }

  /** One turn of the loop: the sweep if it is still pending, else a contiguous pass. */
  method OnePass(
    db: Database, config: Config, pending: bool, state: ScanState, target: Epoch, minStart: Epoch,
    scan: (Epoch, set<Validator>) -> Stages,
    ghost state0: ScanState, ghost t: Tables, ghost first: Epoch, ghost last: int, ghost earlier: Log)
    returns (r: Result<ScanState>, ghost log: Log)
    requires minStart <= target && forall v <- state :: minStart <= StartOf(config, pending, state, v)
    requires Underway(config, pending, state0, t, first, last, state, db.View(), earlier)
    requires last <= target && (pending ==> target == first) && Filled(scan, t, db.View(), earlier)
    modifies db
    ensures Consistent(t, db.View(), log) && Filled(scan, t, db.View(), log) && (Reliable(scan) ==> r.Ok?)
    ensures r.Ok? ==> BackfilledTo(config, config.nonContiguous, state0, t, first, target, r.value, db.View(), log)
    ensures r.Ok? && pending ==>
      (AllPast(config, false, r.value, first) <==> !ReadsFinality(config, state0, t.validators, first))
  {
    if pending {
      r, log := Sweep(db, config, state, target, minStart, scan);
    } else {
      r, log := Resume(db, config, state, target, minStart, scan, state0, t, first, last, earlier);
    }
  }

  /** Before the first read of finality the target is the first; whether a read comes is decided by then. */
  ghost predicate PollsTell(
    config: Config, pending: bool, state0: ScanState, validators: map<Validator, ValidatorRow>, first: Epoch,
    target: Epoch, polls: nat, state: ScanState)
  {
    && (pending || polls == 0 ==> target == first)
    && (pending ==> polls == 0)
    && (polls == 0 && !pending ==>
          (AllPast(config, false, state, first) <==> !ReadsFinality(config, state0, validators, first)))
    && (polls > 0 ==> ReadsFinality(config, state0, validators, first))
  }

  ghost predicate Going(
    config: Config, pending: bool, state0: ScanState, t: Tables, first: Epoch, last: int, target: Epoch,
    polls: nat, state: ScanState, now: Tables, log: Log)
  {
    && first <= target && last <= target
    && Underway(config, pending, state0, t, first, last, state, now, log)
    && PollsTell(config, pending, state0, t.validators, first, target, polls, state)
  }

  /** The run is backfilled to where it ended, and ended there for a reason. */
  ghost predicate Ended(
    config: Config, extend: bool, finality: nat -> Epoch, state0: ScanState, t: Tables, first: Epoch,
    now: Tables, log: Log, end: Finish)
  {
    && BackfilledTo(config, config.nonContiguous, state0, t, first, end.target, end.state, now, log)
    && (extend ==>
          Exhausted(config, finality, end) && (end.polls > 0 <==> ReadsFinality(config, state0, t.validators, first)))
  }

  lemma EndsWithNothingLeft(
    config: Config, extend: bool, finality: nat -> Epoch, pending: bool, state0: ScanState, t: Tables, first: Epoch,
    last: int, target: Epoch, polls: nat, state: ScanState, now: Tables, log: Log)
    requires Going(config, pending, state0, t, first, last, target, polls, state, now, log)
    requires AllPast(config, pending, state, target)
    ensures Ended(config, extend, finality, state0, t, first, now, log, Finish(target, polls, state))
  {
    NothingLeft(config, pending, state0, t, first, last, target, state, now, log);
    if pending {
      forall v | v in state0 ensures StartOf(config, false, state0, v) > first {
        assert StartOf(config, true, state, v) > target;
      }
    }
  }

  /** After a pass: the sweep decides whether finality is read, a contiguous pass means that it is. */
  lemma AfterPass(
    config: Config, pending: bool, state0: ScanState, t: Tables, first: Epoch, last: int, target: Epoch,
    polls: nat, state: ScanState, now: Tables, log: Log, state': ScanState, next: Tables, log': Log)
    requires Going(config, pending, state0, t, first, last, target, polls, state, now, log)
    requires !AllPast(config, pending, state, target)
    requires BackfilledTo(config, config.nonContiguous, state0, t, first, target, state', next, log')
    requires pending ==> (AllPast(config, false, state', first)
       <==> !ReadsFinality(config, state0, t.validators, first))
    ensures pending ==> Going(config, false, state0, t, first, target, target, polls, state', next, log')
    ensures !pending ==> ReadsFinality(config, state0, t.validators, first)
  {
  }

  /** One turn of the loop: nothing if every start lies past the target, else a pass. */
  method PassIfDue(
    db: Database, config: Config, pending: bool, state: ScanState, target: Epoch,
    scan: (Epoch, set<Validator>) -> Stages,
    ghost extend: bool, ghost finality: nat -> Epoch, ghost polls: nat,
    ghost state0: ScanState, ghost t: Tables, ghost first: Epoch, ghost last: int, ghost earlier: Log)
    returns (r: Result<Option<ScanState>>, ghost log: Log)
    requires Going(config, pending, state0, t, first, last, target, polls, state, db.View(), earlier)
    requires Filled(scan, t, db.View(), earlier)
    modifies db
    ensures Consistent(t, db.View(), log) && Filled(scan, t, db.View(), log) && (Reliable(scan) ==> r.Ok?)
    ensures r.Ok? && r.value.None? ==>
      Ended(config, extend, finality, state0, t, first, db.View(), log, Finish(target, polls, state))
    ensures r.Ok? && r.value.Some? ==>
      && BackfilledTo(config, config.nonContiguous, state0, t, first, target, r.value.value, db.View(), log)
      && if pending then Going(config, false, state0, t, first, target, target, polls, r.value.value, db.View(), log)
         else ReadsFinality(config, state0, t.validators, first)
  {
    var minStart := EarliestEpochToScan(config, pending, state);
    if minStart.None? || minStart.value > target {
      EndsWithNothingLeft(config, extend, finality, pending, state0, t, first, last, target, polls, state, db.View(),
        earlier);
      return Ok(None), earlier;
    }
    ghost var now := db.View();
    var passed;
    passed, log := OnePass(db, config, pending, state, target, minStart.value, scan, state0, t, first, last, earlier);
    if passed.Err? {
      return Err(passed.error), log;
    }
    AfterPass(config, pending, state0, t, first, last, target, polls, state, now, earlier, passed.value, db.View(),
      log);
    return Ok(Some(passed.value)), log;
  }

  /** After a contiguous pass: stop there, or go on to the target of the checkpoint read next if it is newer. */
  method NewerTarget(
    config: Config, extend: bool, finality: nat -> Epoch, polls: nat, target: Epoch, ghost bound: Epoch,
    ghost state0: ScanState, ghost t: Tables, ghost first: Epoch, ghost state: ScanState, ghost now: Tables,
      ghost log: Log)
    returns (newer: Option<Epoch>, polled: nat)
    requires forall n :: finality(n) <= bound
    requires BackfilledTo(config, config.nonContiguous, state0, t, first, target, state, now, log)
    requires ReadsFinality(config, state0, t.validators, first)
    ensures polled == if extend then polls + 1 else polls
    ensures newer.None? ==> Ended(config, extend, finality, state0, t, first, now, log, Finish(target, polled, state))
    ensures newer.Some? ==> extend && newer == FinalizedScanTarget(finality(polls)) && target < newer.value <= bound
  {
    if !extend {
      return None, polls;
    }
    var newTarget := FinalizedScanTarget(finality(polls));
    return if newTarget.None? || newTarget.value <= target then None else newTarget, polls + 1;
  }

  lemma NothingLeft(
    config: Config, pending: bool, state0: ScanState, t: Tables, first: Epoch, last: int, target: Epoch,
    state: ScanState, now: Tables, log: Log)
    requires Underway(config, pending, state0, t, first, last, state, now, log) && last <= target
    requires AllPast(config, pending, state, target) && (pending ==> target == first)
    ensures BackfilledTo(config, config.nonContiguous, state0, t, first, target, state, now, log)
  {
    if pending {
      SweepNotNeeded(config, state0, t, first);
    } else {
      NothingDue(config, config.nonContiguous, state0, t, first, last, target, state, now, log);
    }
  }

  /** The loop of passes. */
  method Passes(
    db: Database, config: Config, state0: ScanState, first: Epoch, extend: bool,
    scan: (Epoch, set<Validator>) -> Stages, finality: nat -> Epoch, ghost bound: Epoch)
    returns (r: Result<()>, ghost log: Log, ghost end: Finish)
    requires first <= bound && forall n :: finality(n) <= bound
    modifies db
    ensures r.Ok? ==> BackfilledTo(config, config.nonContiguous, state0, old(db.View()), first, end.target, end.state,
      db.View(), log)
    ensures Consistent(old(db.View()), db.View(), log) && Filled(scan, old(db.View()), db.View(), log)
    ensures first <= end.target && (!extend ==> end.target == first)
    ensures r.Ok? && extend ==> Exhausted(config, finality, end)
    ensures r.Ok? && extend ==> (end.polls > 0 <==> ReadsFinality(config, state0, old(db.validators), first))
    ensures end.polls == 0 ==> end.target == first
    ensures Reliable(scan) ==> r.Ok?
  {
    ghost var t := db.View();
    var pending := config.nonContiguous;
    var target: Epoch := first;
    var state := state0;
    ghost var last: int := -1;
    var polls: nat := 0;
    log := [];
    end := Finish(first, 0, state0);
    while true
      invariant target <= bound && (!extend ==> target == first)
      invariant Filled(scan, t, db.View(), log)
      invariant Going(config, pending, state0, t, first, last, target, polls, state, db.View(), log)
      decreases if pending then 1 else 0, bound - target
    {
      end := Finish(target, polls, state);
      var passed;
      passed, log := PassIfDue(db, config, pending, state, target, scan, extend, finality, polls, state0, t, first,
        last, log);
      if passed.Err? {
        return Err(passed.error), log, end;
      }
      if passed.value.None? {
        return Ok(()), log, end;
      }
      state, last := passed.value.value, target;
      if pending {
        pending := false;
        continue;
      }
      var newer;
      newer, polls := NewerTarget(config, extend, finality, polls, target, bound, state0, t, first, state, db.View(),
        log);
      end := Finish(target, polls, state);
      if newer.None? {
        return Ok(()), log, end;
      }
      target := newer.value;
    }
  }

  /**
   * On success exactly the eligible pairs have been added to those complete before, none was scanned twice, and
   * no watermark went back. `finality(n)` is the n-th checkpoint read; a bounded chain makes the run end. Asked to
   * extend, the run reads finality if and only if something is left to scan contiguously at or before its first
   * target; after a sweep that takes a validator whose lifetime does not reach the target.
   */
  method RunBackfill(
    db: Database, config: Config, state0: ScanState, first: Epoch, extend: bool,
    scan: (Epoch, set<Validator>) -> Stages, finality: nat -> Epoch, ghost bound: Epoch)
    returns (r: Result<()>, ghost log: Log, ghost end: Finish)
    requires first <= bound && forall n :: finality(n) <= bound
    modifies db
    ensures r.Ok? ==> BackfilledTo(config, config.nonContiguous, state0, old(db.View()), first, end.target, end.state,
      db.View(), log)
    ensures Consistent(old(db.View()), db.View(), log) && Filled(scan, old(db.View()), db.View(), log)
    ensures FillsAll(scan) && Safety.CompletedHaveRows(old(db.View())) ==> Safety.CompletedHaveRows(db.View())
    ensures first <= end.target && (!extend ==> end.target == first)
    ensures r.Ok? && extend ==> Exhausted(config, finality, end)
    ensures r.Ok? && extend ==> (end.polls > 0 <==> ReadsFinality(config, state0, old(db.validators), first))
    ensures end.polls == 0 ==> end.target == first
    ensures Reliable(scan) ==> r.Ok?
  {
    ghost var t := db.View();
    r, log, end := Passes(db, config, state0, first, extend, scan, finality, bound);
    if FillsAll(scan) && Safety.CompletedHaveRows(t) {
      RunFillsCompleted(scan, t, db.View(), log);
    }
  }

  /** One active validator, a sweep to epoch 1 asked to extend, and finality at epoch 10 all along. */
  method SweepStopsShort(db: Database) returns (ghost end: Finish)
    requires db.validators == map[0 := ValidatorRow(0, None, None)]
    modifies db
    ensures end.polls == 0 && end.target == 1 && FinalizedScanTarget(10) == Some(8)
    ensures forall epoch | 2 <= epoch <= 8 :: (0, epoch) in db.completed <==> (0, epoch) in old(db.completed)
  {
    var state := map[0 := (0, None)];
    var r, log, finish := RunBackfill(
      db, Config(true, None), state, 1, true, (epoch: Epoch, scan: set<Validator>) => Stages(map[], Ok(())),
        (n: nat) => 10, 10);
    end := finish;
    assert r.Ok? && !ReadsFinality(Config(true, None), state, old(db.validators), 1);
  }

  /** A sweep none of whose starts is at or before its target has nothing eligible. */
  lemma SweepNotNeeded(config: Config, state0: ScanState, t: Tables, first: Epoch)
    requires AllPast(config, true, state0, first)
    ensures BackfilledTo(config, true, state0, t, first, first, state0, t, [])
  {
  }

  /**
   * After a sweep has been extended by newer finality, the pairs it is still answerable for but does not take are
   * exactly those between the first target and a startup watermark that already lay past it.
   */
  lemma SkippedByWatermark(
    config: Config, state: ScanState, validators: map<Validator, ValidatorRow>, first: Epoch, last: Epoch, k: Pair)
    requires k.0 in state && Alive(validators, k) && StartOf(config, true, state, k.0) <= k.1 <= last
    ensures !Eligible(config, true, state, validators, first, last, k)
       <==> k.1 > first && state[k.0].1.Some? && k.1 <= state[k.0].1.value
  {
    assert StartOf(config, false, state, k.0) <= k.1 <==> state[k.0].1.None? || state[k.0].1.value < k.1;
  }
}
