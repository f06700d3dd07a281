/** Sync-committee accounting of archive and live scans (src/scanner/sync_committee.rs). */
module SyncCommittee {
  import opened Wrappers
  import opened Chain
  import opened Tables
  import opened Store
  import opened Bits

  /** What a slot holds: nothing, a block from before Altair, or a block with an aggregate. */
  datatype SlotSync = Skipped | NoAggregate | Aggregate(bytes: seq<Byte>)

  // ---- Outcomes per member ----

  /** Set seats less unset seats of `v` among the first `n`. */
  function Net(committee: seq<Validator>, bits: seq<bool>, v: Validator, n: nat): int
    requires n <= |committee| && n <= |bits|
  {
    if n == 0 then 0
    else Net(committee, bits, v, n - 1) + if committee[n - 1] != v then 0 else if bits[n - 1] then 1 else -1
  }

  predicate Signed(committee: seq<Validator>, bits: seq<bool>, v: Validator, n: nat)
    requires n <= |committee| && n <= |bits|
  {
    exists i :: 0 <= i < n && committee[i] == v && bits[i]
  }

  function Shorter(a: nat, b: nat): nat {
    if a <= b then a else b
  }

  type Outcomes = map<Validator, (bool, int)>

  ghost predicate AreOutcomes(outcomes: Outcomes, committee: seq<Validator>, bits: seq<bool>, n: nat)
    requires n <= |committee| && n <= |bits|
  {
    && (forall v :: v in outcomes <==> v in committee[..n])
    && (forall v <- outcomes :: outcomes[v] == (Signed(committee, bits, v, n), Net(committee, bits, v, n)))
  }

  /** Members may repeat; a zip stops at the shorter sequence. */
  method SyncOutcomes(committee: seq<Validator>, bits: seq<bool>) returns (outcomes: Outcomes)
    ensures AreOutcomes(outcomes, committee, bits, Shorter(|committee|, |bits|))
  {
    outcomes := map[];
    for i := 0 to Shorter(|committee|, |bits|)
      invariant AreOutcomes(outcomes, committee, bits, i)
    {
      var v := committee[i];
      var (any, net) := if v in outcomes then outcomes[v] else (false, 0);
      if v !in outcomes {
        AbsentMember(committee, bits, v, i);
      }
      outcomes := outcomes[v := (any || bits[i], net + if bits[i] then 1 else -1)];
      assert committee[..i + 1] == committee[..i] + [v];
    }
  }

  lemma {:induction false} AbsentMember(committee: seq<Validator>, bits: seq<bool>, v: Validator, n: nat)
    requires n <= |committee| && n <= |bits| && v !in committee[..n]
    ensures Net(committee, bits, v, n) == 0 && !Signed(committee, bits, v, n)
  {
    if n > 0 {
      assert v !in committee[..n - 1] && committee[n - 1] in committee[..n];
      AbsentMember(committee, bits, v, n - 1);
    }
  }

  // ---- Conservation over distinct members ----

  ghost function Total(nets: map<Validator, int>): int {
    if nets == map[] then 0 else
      var v :| v in nets;
      nets[v] + Total(nets - {v})
  }

  lemma {:induction false} TotalWithout(nets: map<Validator, int>, v: Validator)
    requires v in nets
    ensures Total(nets) == nets[v] + Total(nets - {v})
    decreases |nets|
  {
    var w :| w in nets && Total(nets) == nets[w] + Total(nets - {w});
    if w != v {
      TotalWithout(nets - {w}, v);
      TotalWithout(nets - {v}, w);
      assert nets - {w} - {v} == nets - {v} - {w};
    }
  }

  function Count(bits: seq<bool>, value: bool): nat {
    if bits == [] then 0
    else Count(bits[..|bits| - 1], value) + if bits[|bits| - 1] == value then 1 else 0
  }

  ghost function Nets(committee: seq<Validator>, bits: seq<bool>, n: nat): map<Validator, int>
    requires n <= |committee| && n <= |bits|
  {
    map v | v in committee[..n] :: Net(committee, bits, v, n)
  }

  lemma TotalUpdate(before: map<Validator, int>, after: map<Validator, int>, v: Validator, change: int)
    requires v in after && after - {v} == before - {v}
    requires after[v] == (if v in before then before[v] else 0) + change
    ensures Total(after) == Total(before) + change
  {
    TotalWithout(after, v);
    if v in before {
      TotalWithout(before, v);
    } else {
      assert before - {v} == before;
    }
  }

  /** Net seats over the distinct members: set bits less unset bits, however often members repeat. */
  lemma {:induction false} NetsTotal(committee: seq<Validator>, bits: seq<bool>, n: nat)
    requires n <= |committee| && n <= |bits|
    ensures Total(Nets(committee, bits, n)) == Count(bits[..n], true) - Count(bits[..n], false)
  {
    if n > 0 {
      NetsTotal(committee, bits, n - 1);
      assert bits[..n][..n - 1] == bits[..n - 1];
      NetsStep(committee, bits, n);
    }
  }

  lemma NetsStep(committee: seq<Validator>, bits: seq<bool>, n: nat)
    requires 0 < n <= |committee| && n <= |bits|
    ensures Total(Nets(committee, bits, n)) == Total(Nets(committee, bits, n - 1)) + if bits[n - 1] then 1 else -1
  {
    var v := committee[n - 1];
    var before, after := Nets(committee, bits, n - 1), Nets(committee, bits, n);
    assert committee[..n] == committee[..n - 1] + [v];
    assert after - {v} == before - {v};
    if v !in before {
      AbsentMember(committee, bits, v, n - 1);
    }
    TotalUpdate(before, after, v, if bits[n - 1] then 1 else -1);
  }

  /** The live view: any of the validator's positions signed. */
  predicate AnyPosition(bits: seq<bool>, positions: seq<nat>)
    requires forall p <- positions :: p < |bits|
  {
    exists p :: p in positions && bits[p]
  }

  /** `positions` are exactly the seats of `v`. */
  ghost predicate SeatsOf(committee: seq<Validator>, v: Validator, positions: seq<nat>) {
    forall p: nat :: p in positions <==> p < |committee| && committee[p] == v
  }

  /** Archive and live participation agree for every member, also a repeated one. */
  lemma ParticipationAgrees(committee: seq<Validator>, bits: seq<bool>, v: Validator, positions: seq<nat>)
    requires |committee| == |bits| && SeatsOf(committee, v, positions)
    ensures forall p <- positions :: p < |bits|
    ensures Signed(committee, bits, v, |bits|) <==> AnyPosition(bits, positions)
  {
    if Signed(committee, bits, v, |bits|) {
      var i :| 0 <= i < |bits| && committee[i] == v && bits[i];
      assert i in positions;
    }
    if p :| p in positions && bits[p] {
      assert committee[p] == v;
    }
  }

  // ---- The reward of one seat ----

  /** Division is exact wherever its quotient is used, so the rounding of `/` and `%` does not matter. */
  function PerPositionReward(total: int, net: int): Result<Option<int>> {
    if net == 0 then Ok(None)
    else if total % net != 0 || total / net < 0 then Err(InconsistentBeaconData)
    else Ok(Some(total / net))
  }

  /** Every member with a nonzero net reveals the seat reward; other totals are refused. */
  lemma PerPositionIsExact(total: int, net: int, seat: nat)
    requires net != 0
    ensures PerPositionReward(total, net) == Ok(Some(seat)) <==> total == seat * net
    ensures PerPositionReward(total, net).Err? <==> forall m: nat :: total != m * net
  {
    var q := total / net;
    assert total == q * net + total % net;
    if total % net == 0 && q >= 0 {
      assert total == q * net;
    }
    forall m: nat | total == m * net ensures total % net == 0 && q == m {
      ExactQuotient(m, net);
    }
  }

  lemma ExactQuotient(m: nat, net: int)
    requires net != 0
    ensures (m * net) % net == 0 && (m * net) / net == m
  {
    var (q, r) := ((m * net) / net, (m * net) % net);
    assert m * net == q * net + r;
    assert (m - q) * net == r;
    if m > q {
      assert (m - q) * net == net + (m - q - 1) * net;
      SignOfProduct(m - q - 1, net);
    } else if m < q {
      assert (m - q) * net == -net - (q - m - 1) * net;
      SignOfProduct(q - m - 1, net);
    }
  }

  lemma SignOfProduct(a: nat, b: int)
    ensures b >= 0 ==> a * b >= 0
    ensures b <= 0 ==> a * b <= 0
  {
  }

  function SyncBits(spec: Spec, bytes: seq<Byte>): Option<seq<bool>> {
    var bits := BitvectorOf(bytes);
    if |bits| == spec.syncCommitteeSize then Some(bits) else None
  }

  method DecodeSyncCommitteeBits(spec: Spec, bytes: seq<Byte>) returns (r: Result<seq<bool>>)
    ensures match SyncBits(spec, bytes)
            case None => r == Err(InconsistentBeaconData)
            case Some(bits) => r == Ok(bits)
  {
    var bits := DecodeBitvector(bytes);
    return if |bits| != spec.syncCommitteeSize then Err(InconsistentBeaconData) else Ok(bits);
  }

  type Answers = map<Slot, Result<seq<(Validator, int)>>>

  /** The node reports the same seat reward everywhere. */
  ghost predicate Uniform(
    spec: Spec, committee: seq<Validator>, blocks: map<Slot, SlotSync>, answers: Answers, seat: nat)
  {
    forall s <- answers ::
      answers[s].Ok? && s in blocks && blocks[s].Aggregate? && SyncBits(spec, blocks[s].bytes).Some? ==>
      var bits := SyncBits(spec, blocks[s].bytes).value;
      var n := Shorter(|committee|, |bits|);
      forall a <- answers[s].value :: a.0 in committee[..n] ==> a.1 == seat * Net(committee, bits, a.0, n)
  }

  /** Every aggregate of `[lo, hi)` decodes, and an answer fails only because the parent state is gone. */
  ghost predicate Probeable(spec: Spec, blocks: map<Slot, SlotSync>, answers: Answers, lo: Slot, hi: Slot)
    requires forall s :: lo <= s < hi ==> s in blocks && s in answers
  {
    forall s :: lo <= s < hi && blocks[s].Aggregate? ==>
      SyncBits(spec, blocks[s].bytes).Some? && (answers[s].Ok? || answers[s].error == NotFound)
  }

  /** One validator's answer that decides the probe. */
  method FirstRevealing(rewards: seq<(Validator, int)>, outcomes: Outcomes) returns (r: Result<Option<int>>)
    ensures match r
            case Err(_) =>
              exists a :: a in rewards && a.0 in outcomes && PerPositionReward(a.1, outcomes[a.0].1).Err?
            case Ok(None) =>
              forall a <- rewards :: a.0 in outcomes ==> outcomes[a.0].1 == 0
            case Ok(Some(m)) =>
              exists a :: a in rewards && a.0 in outcomes && PerPositionReward(a.1, outcomes[a.0].1) == Ok(Some(m))
  {
    for i := 0 to |rewards|
      invariant forall a <- rewards[..i] :: a.0 in outcomes ==> outcomes[a.0].1 == 0
    {
      var (v, total) := rewards[i];
      assert rewards[i] in rewards && rewards[..i + 1] == rewards[..i] + [rewards[i]];
      if v in outcomes {
        var magnitude := PerPositionReward(total, outcomes[v].1);
        if magnitude.Err? || magnitude.value.Some? {
          return magnitude;
        }
      }
    }
    assert rewards[..|rewards|] == rewards;
    return Ok(None);
  }

  /**
   * The slot's block and the node's answer give the seat reward away: some answered member has a net other than zero.
   */
  ghost predicate Reveals(
    spec: Spec, committee: seq<Validator>, block: SlotSync, answer: Result<seq<(Validator, int)>>)
  {
    && block.Aggregate? && SyncBits(spec, block.bytes).Some? && answer.Ok?
    && var bits := SyncBits(spec, block.bytes).value;
       var n := Shorter(|committee|, |bits|);
       exists a :: a in answer.value && a.0 in committee[..n] && Net(committee, bits, a.0, n) != 0
  }

  /** Uniform answers are never refused. */
  lemma UniformIsExact(
    spec: Spec, committee: seq<Validator>, blocks: map<Slot, SlotSync>, answers: Answers, s: Slot, outcomes: Outcomes)
    requires s in answers && answers[s].Ok? && s in blocks && blocks[s].Aggregate?
    requires SyncBits(spec, blocks[s].bytes).Some?
    requires var bits := SyncBits(spec, blocks[s].bytes).value;
      AreOutcomes(outcomes, committee, bits, Shorter(|committee|, |bits|))
    requires exists a :: a in answers[s].value && a.0 in outcomes && PerPositionReward(a.1, outcomes[a.0].1).Err?
    ensures forall seat: nat :: !Uniform(spec, committee, blocks, answers, seat)
  {
    var a :| a in answers[s].value && a.0 in outcomes && PerPositionReward(a.1, outcomes[a.0].1).Err?;
    forall seat: nat ensures !Uniform(spec, committee, blocks, answers, seat) {
      PerPositionIsExact(a.1, outcomes[a.0].1, seat);
    }
  }

  /** Walks the epoch until one slot reveals the seat reward; a pruned parent state tries the next slot. */
  method ProbeSyncParticipantReward(
    spec: Spec, lo: Slot, hi: Slot, blocks: map<Slot, SlotSync>, committee: seq<Validator>, answers: Answers)
    returns (r: Result<Option<int>>)
    requires lo <= hi && forall s :: lo <= s < hi ==> s in blocks && s in answers
    ensures forall seat: nat :: Uniform(spec, committee, blocks, answers, seat) && r.Ok? && r.value.Some? ==>
      r.value.value == seat
    ensures r.Ok? && r.value.Some? ==> r.value.value >= 0
    ensures r.Ok? ==> (r.value.Some? <==> exists s :: lo <= s < hi && Reveals(spec, committee, blocks[s], answers[s]))
    ensures Probeable(spec, blocks, answers, lo, hi) ==>
      forall seat: nat :: Uniform(spec, committee, blocks, answers, seat) ==> r.Ok?
  {
    for s := lo to hi
      invariant forall x :: lo <= x < s ==> !Reveals(spec, committee, blocks[x], answers[x])
    {
      if blocks[s].Aggregate? {
        var bits :- DecodeSyncCommitteeBits(spec, blocks[s].bytes);
        var outcomes := SyncOutcomes(committee, bits);
        if answers[s].Err? && answers[s].error != NotFound {
          return Err(answers[s].error);
        }
        if answers[s].Ok? {
          var found := FirstRevealing(answers[s].value, outcomes);
          if found.Err? {
            UniformIsExact(spec, committee, blocks, answers, s, outcomes);
            return Err(found.error);
          }
          if found.value.Some? {
            var a :| a in answers[s].value && a.0 in outcomes && PerPositionReward(a.1, outcomes[a.0].1) == found;
            PerPositionIsExact(a.1, outcomes[a.0].1, found.value.value);
            assert Reveals(spec, committee, blocks[s], answers[s]);
            forall seat: nat | Uniform(spec, committee, blocks, answers, seat) ensures seat == found.value.value {
              PerPositionIsExact(a.1, outcomes[a.0].1, seat);
            }
            return found;
          }
        }
      }
    }
    return Ok(None);
  }

  // ---- What each scan writes ----

  type SyncRows = map<(Validator, Slot), SyncRow>

  /** One upsert against the row it meets. */
  function Merged(row: Option<SyncRow>, write: SyncRow, completed: bool): SyncRow {
    match row
    case None => write
    case Some(r) =>
      if !r.finalized || (write.finalized && !completed) then write.(reward := write.reward.Or(r.reward)) else r
  }

  /** The rows after one upsert per entry of `due`, in whatever order. */
  function WrittenRows(spec: Spec, completed: set<Pair>, rows: SyncRows, due: SyncRows): SyncRows {
    map k | k in rows.Keys + due.Keys ::
      if k in due then Merged(Lookup(rows, k), due[k], (k.0, EpochOf(spec, k.1)) in completed) else rows[k]
  }

  function Written(spec: Spec, t: Tables, due: SyncRows): Tables {
    t.(syncs := WrittenRows(spec, t.completed, t.syncs, due))
  }

  lemma UpsertIsMerge(spec: Spec, t: Tables, key: (Validator, Slot), write: SyncRow)
    ensures UpsertedSync(spec, t, key, write)
         == t.(syncs := t.syncs[key :=
           Merged(Lookup(t.syncs, key), write, (key.0, EpochOf(spec, key.1)) in t.completed)])
  {
    if !SyncAccepted(spec, t, key, write) {
      assert t.syncs[key := t.syncs[key]] == t.syncs;
    }
  }

  lemma WrittenStep(spec: Spec, t: Tables, due: SyncRows, key: (Validator, Slot), write: SyncRow)
    requires key !in due
    ensures UpsertedSync(spec, Written(spec, t, due), key, write) == Written(spec, t, due[key := write])
  {
    UpsertIsMerge(spec, Written(spec, t, due), key, write);
    RowsStep(spec, t.completed, t.syncs, due, key, write);
  }

  lemma RowsStep(
    spec: Spec, completed: set<Pair>, rows: SyncRows, due: SyncRows, key: (Validator, Slot), write: SyncRow)
    requires key !in due
    ensures var now := WrittenRows(spec, completed, rows, due);
      now[key := Merged(Lookup(now, key), write, (key.0, EpochOf(spec, key.1)) in completed)]
      == WrittenRows(spec, completed, rows, due[key := write])
  {
    var now := WrittenRows(spec, completed, rows, due);
    assert Lookup(now, key) == Lookup(rows, key);
    assert due[key := write].Keys == due.Keys + {key};
  }

  lemma WrittenAt(spec: Spec, completed: set<Pair>, rows: SyncRows, due: SyncRows, k: (Validator, Slot))
    ensures Lookup(WrittenRows(spec, completed, rows, due), k)
         == if k in due then Some(Merged(Lookup(rows, k), due[k], (k.0, EpochOf(spec, k.1)) in completed))
             else Lookup(rows, k)
  {
  }

  lemma SameRows(a: SyncRows, b: SyncRows)
    requires forall k :: Lookup(a, k) == Lookup(b, k)
    ensures a == b
  {
    forall k ensures k in a <==> k in b {
      assert Lookup(a, k) == Lookup(b, k);
    }
    forall k | k in a ensures a[k] == b[k] {
      assert Lookup(a, k) == Lookup(b, k);
    }
  }

  lemma WrittenNothing(spec: Spec, t: Tables)
    ensures Written(spec, t, map[]) == t
  {
    assert WrittenRows(spec, t.completed, t.syncs, map[]) == t.syncs;
  }

  function At(members: set<Validator>, slot: Slot): (keys: set<(Validator, Slot)>)
    ensures forall k :: k in keys <==> k.0 in members && k.1 == slot
  {
    set v <- members :: (v, slot)
  }

  /** Rows for a skipped slot: every member missed it. */
  function SkippedDue(members: set<Validator>, slot: Slot, finalized: bool): SyncRows {
    map k | k in At(members, slot) :: SyncRow(false, Some(0), true, finalized)
  }

  function Times(seat: Option<int>, net: int): Option<int> {
    if seat.Some? then Some(seat.value * net) else None
  }

  /** The fixed parameters of an archive scan; `seat` is the probed seat reward. */
  datatype SyncScan = SyncScan(spec: Spec, committee: seq<Validator>, relevant: set<Validator>, seat: Option<int>,
    finalized: bool)

  /** The archive row due for `v` at a slot: any signature counts, and the reward is the seat's times the net seats. */
  function DueFor(scan: SyncScan, block: SlotSync, v: Validator): Option<SyncRow> {
    if v !in scan.relevant then None else
      match block
      case Skipped => Some(SyncRow(false, Some(0), true, scan.finalized))
      case NoAggregate => None
      case Aggregate(bytes) =>
        var bits := SyncBits(scan.spec, bytes);
        if bits.None? || |scan.committee| != |bits.value| || v !in scan.committee then None
        else Some(SyncRow(Signed(scan.committee, bits.value, v, |scan.committee|),
                          Times(scan.seat, Net(scan.committee, bits.value, v, |scan.committee|)), false,
                            scan.finalized))
  }

  function SlotDue(scan: SyncScan, block: SlotSync, slot: Slot): SyncRows {
    map k | k in At(scan.relevant, slot) && DueFor(scan, block, k.0).Some? :: DueFor(scan, block, k.0).value
  }

  /** All of `due` except the rows of members still pending. */
  ghost predicate DoneExcept(done: SyncRows, due: SyncRows, pending: set<Validator>) {
    forall k :: Lookup(done, k) == if k.0 in pending then None else Lookup(due, k)
  }

  /** One upsert of a row that is due and not yet written. */
  method WriteRow(db: Database, key: (Validator, Slot), row: SyncRow, ghost t: Tables, ghost done: SyncRows)
    requires db.View() == Written(db.spec, t, done) && key !in done
    modifies db
    ensures db.View() == Written(db.spec, t, done[key := row])
  {
    db.UpsertSyncDuty(key.0, key.1, row);
    WrittenStep(db.spec, t, done, key, row);
  }

  lemma OutcomeIsDue(scan: SyncScan, bytes: seq<Byte>, slot: Slot, outcomes: Outcomes, v: Validator)
    requires SyncBits(scan.spec, bytes).Some? && |scan.committee| == scan.spec.syncCommitteeSize
    requires AreOutcomes(outcomes, scan.committee, SyncBits(scan.spec, bytes).value, |scan.committee|)
    requires v in outcomes && v in scan.relevant
    ensures Lookup(SlotDue(scan, Aggregate(bytes), slot), (v, slot))
         == Some(OutcomeRow(scan, outcomes[v]))
  {
    assert scan.committee[..|scan.committee|] == scan.committee;
  }

  lemma NonMembersAreNotDue(scan: SyncScan, bytes: seq<Byte>, slot: Slot)
    ensures forall k <- SlotDue(scan, Aggregate(bytes), slot) ::
      k.0 in scan.committee && k.0 in scan.relevant && k.1 == slot
  {
  }

  method WriteAggregate(db: Database, scan: SyncScan, bytes: seq<Byte>, slot: Slot) returns (r: Result<()>)
    requires scan.spec == db.spec && |scan.committee| == db.spec.syncCommitteeSize
    modifies db
    ensures db.View() == Written(db.spec, old(db.View()), SlotDue(scan, Aggregate(bytes), slot))
    ensures r.Ok? <==> SyncBits(db.spec, bytes).Some?
  {
    ghost var due := SlotDue(scan, Aggregate(bytes), slot);
    var decoded := DecodeSyncCommitteeBits(db.spec, bytes);
    if decoded.Err? {
      assert due == map[];
      WrittenNothing(db.spec, db.View());
      return Err(decoded.error);
    }
    var outcomes := SyncOutcomes(scan.committee, decoded.value);
    NonMembersAreNotDue(scan, bytes, slot);
    forall v | v in outcomes && v in scan.relevant
      ensures Lookup(due, (v, slot)) == Some(OutcomeRow(scan, outcomes[v]))
    {
      OutcomeIsDue(scan, bytes, slot, outcomes, v);
    }
    forall k | k in due ensures k.0 in outcomes {
      assert scan.committee[..|scan.committee|] == scan.committee;
    }
    WriteOutcomes(db, scan, outcomes, slot, due);
    return Ok(());
  }

  function OutcomeRow(scan: SyncScan, outcome: (bool, int)): SyncRow {
    SyncRow(outcome.0, Times(scan.seat, outcome.1), false, scan.finalized)
  }

  /** The rows of the relevant members among the outcomes, in any order. */
  method WriteOutcomes(db: Database, scan: SyncScan, outcomes: Outcomes, slot: Slot, ghost due: SyncRows)
    requires forall v <- outcomes :: v in scan.relevant ==>
      Lookup(due, (v, slot)) == Some(OutcomeRow(scan, outcomes[v]))
    requires forall k <- due :: k.0 in outcomes && k.0 in scan.relevant && k.1 == slot
    modifies db
    ensures db.View() == Written(db.spec, old(db.View()), due)
  {
    ghost var t := db.View();
    WrittenNothing(db.spec, t);
    ghost var done: SyncRows := map[];
    var pending := outcomes.Keys;
    while pending != {}
      invariant pending <= outcomes.Keys
      invariant DoneExcept(done, due, pending)
      invariant db.View() == Written(db.spec, t, done)
    {
      var v :| v in pending;
      pending := pending - {v};
      if v in scan.relevant {
        var row := OutcomeRow(scan, outcomes[v]);
        assert Lookup(done, (v, slot)).None?;
        WriteRow(db, (v, slot), row, t, done);
        done := done[(v, slot) := row];
      }
    }
    SameRows(done, due);
  }

  method WriteSkipped(db: Database, members: set<Validator>, slot: Slot, finalized: bool)
    modifies db
    ensures db.View() == Written(db.spec, old(db.View()), SkippedDue(members, slot, finalized))
  {
    ghost var t := db.View();
    WrittenNothing(db.spec, t);
    ghost var due := SkippedDue(members, slot, finalized);
    ghost var done: SyncRows := map[];
    var pending := members;
    while pending != {}
      invariant pending <= members
      invariant DoneExcept(done, due, pending)
      invariant db.View() == Written(db.spec, t, done)
    {
      var v :| v in pending;
      pending := pending - {v};
      var row := SyncRow(false, Some(0), true, finalized);
      assert (v, slot) in due && due[(v, slot)] == row;
      assert Lookup(done, (v, slot)).None?;
      WriteRow(db, (v, slot), row, t, done);
      done := done[(v, slot) := row];
    }
    SameRows(done, due);
  }

  /**
   * The sync stage of an archive scan. On success every slot's rows are written with the probed seat
   * reward, which is the node's own wherever it reports one consistently.
   */
  method ProcessEpochSync(
    db: Database, epoch: Epoch, relevant: set<Validator>, committee: seq<Validator>,
    blocks: map<Slot, SlotSync>, answers: Answers, finalized: bool)
    returns (r: Result<()>, ghost seat: Option<int>)
    requires forall s :: EpochStart(db.spec, epoch) <= s < EpochStart(db.spec, epoch + 1) ==>
      s in blocks && s in answers
    modifies db
    ensures r.Ok? && relevant == {} ==> db.View() == old(db.View())
    ensures r.Ok? && relevant != {} ==>
      && |committee| == db.spec.syncCommitteeSize
      && db.View() == SlotsWritten(db.spec, old(db.View()),
            Dues(SyncScan(db.spec, committee, relevant, seat, finalized), blocks),
                                   EpochStart(db.spec, epoch), EpochStart(db.spec, epoch + 1))
    ensures forall m: nat :: Uniform(db.spec, committee, blocks, answers, m) ==> seat.None? || seat == Some(m)
    ensures r.Ok? && relevant != {} ==>
      (seat.Some? <==> exists s :: EpochStart(db.spec, epoch) <= s < EpochStart(db.spec, epoch + 1)
                                   && Reveals(db.spec, committee, blocks[s], answers[s]))
    ensures r.Ok? && relevant != {} ==> forall m: nat :: Uniform(db.spec, committee, blocks, answers, m) ==>
      Reported(SyncScan(db.spec, committee, relevant, seat, finalized), old(db.View()), db.View(), blocks, answers,
        EpochStart(db.spec, epoch), EpochStart(db.spec, epoch + 1))
    ensures relevant != {} && |committee| == db.spec.syncCommitteeSize ==>
      var (lo, hi) := (EpochStart(db.spec, epoch), EpochStart(db.spec, epoch + 1));
      Probeable(db.spec, blocks, answers, lo, hi) ==>
        forall m: nat :: Uniform(db.spec, committee, blocks, answers, m) ==>
          (r.Ok? <==> seat.Some? || forall s :: lo <= s < hi ==> blocks[s].Skipped?)
    ensures r.Ok? && relevant != {} && seat.None? ==>
        forall s :: EpochStart(db.spec, epoch) <= s < EpochStart(db.spec, epoch + 1) ==> blocks[s].Skipped?
  {
    seat := None;
    if relevant == {} {
      return Ok(()), None;
    }
    if |committee| != db.spec.syncCommitteeSize {
      return Err(InconsistentBeaconData), None;
    }
    var lo, hi := EpochStart(db.spec, epoch), EpochStart(db.spec, epoch + 1);
    EpochStartMonotone(db.spec, epoch, epoch + 1);
    var magnitude := ProbeSyncParticipantReward(db.spec, lo, hi, blocks, committee, answers);
    if magnitude.Err? {
      return Err(magnitude.error), None;
    }
    seat := magnitude.value;
    var scan := SyncScan(db.spec, committee, relevant, magnitude.value, finalized);
    ghost var t := db.View();
    var hasBlocks := WriteSlots(db, scan, blocks, lo, hi);
    if hasBlocks.Err? {
      return Err(hasBlocks.error), seat;
    }
    if magnitude.value.None? && hasBlocks.value {
      return Err(NotFound), seat;
    }
    forall m: nat | Uniform(db.spec, committee, blocks, answers, m)
      ensures Reported(scan, t, db.View(), blocks, answers, lo, hi)
    {
      UniformIsReported(scan, t, blocks, answers, m, lo, hi);
    }
    return Ok(()), seat;
  }

  /** Each answered amount of a scanned member is what its row shows, unless the row may not be overwritten. */
  ghost predicate Reported(
    scan: SyncScan, t: Tables, after: Tables, blocks: map<Slot, SlotSync>, answers: Answers, lo: Slot, hi: Slot)
    requires forall s :: lo <= s < hi ==> s in blocks && s in answers
  {
    forall s: Slot, a: (Validator, int) :: lo <= s < hi && Reports(scan, blocks[s], answers[s], a) ==>
      RowReports(scan, t, after, s, a)
  }

  predicate RowReports(scan: SyncScan, t: Tables, after: Tables, s: Slot, a: (Validator, int)) {
    var k: (Validator, Slot) := (a.0, s);
    && k in after.syncs
    && (k !in t.syncs || !t.syncs[k].finalized
          || (scan.finalized && (a.0, EpochOf(scan.spec, s)) !in t.completed) ==>
        after.syncs[k].reward == Some(a.1))
  }

  ghost predicate Reports(
    scan: SyncScan, block: SlotSync, answer: Result<seq<(Validator, int)>>, a: (Validator, int))
  {
    && block.Aggregate? && SyncBits(scan.spec, block.bytes).Some? && answer.Ok? && a in answer.value
    && a.0 in scan.relevant && a.0 in scan.committee
  }

  lemma UniformIsReported(
    scan: SyncScan, t: Tables, blocks: map<Slot, SlotSync>, answers: Answers, m: nat, lo: Slot, hi: Slot)
    requires forall s :: lo <= s < hi ==> s in blocks && s in answers
    requires |scan.committee| == scan.spec.syncCommitteeSize
    requires Uniform(scan.spec, scan.committee, blocks, answers, m)
    requires scan.seat == Some(m) || (scan.seat.None? && forall s :: lo <= s < hi ==> blocks[s].Skipped?)
    ensures Reported(scan, t, SlotsWritten(scan.spec, t, Dues(scan, blocks), lo, hi), blocks, answers, lo, hi)
  {
    var after := SlotsWritten(scan.spec, t, Dues(scan, blocks), lo, hi);
    forall s: Slot, a: (Validator, int) | lo <= s < hi && Reports(scan, blocks[s], answers[s], a)
      ensures RowReports(scan, t, after, s, a)
    {
      DueIsReported(scan, blocks, answers, m, s, a);
      SlotsWrittenAt(scan, t, blocks, lo, hi, (a.0, s));
    }
  }

  lemma DueIsReported(
    scan: SyncScan, blocks: map<Slot, SlotSync>, answers: Answers, m: nat, s: Slot, a: (Validator, int))
    requires s in blocks && s in answers && Reports(scan, blocks[s], answers[s], a)
    requires |scan.committee| == scan.spec.syncCommitteeSize && scan.seat == Some(m)
    requires Uniform(scan.spec, scan.committee, blocks, answers, m)
    ensures DueFor(scan, blocks[s], a.0).Some? && DueFor(scan, blocks[s], a.0).value.reward == Some(a.1)
  {
    assert scan.committee[..|scan.committee|] == scan.committee;
  }

  function Dues(scan: SyncScan, blocks: map<Slot, SlotSync>): map<Slot, SyncRows> {
    map s | s in blocks :: SlotDue(scan, blocks[s], s)
  }

  /** The slots of `[lo, hi)` written one after another. */
  function SlotsWritten(spec: Spec, t: Tables, dues: map<Slot, SyncRows>, lo: Slot, hi: Slot): Tables
    requires forall s :: lo <= s < hi ==> s in dues
  {
    if lo >= hi then t else Written(spec, SlotsWritten(spec, t, dues, lo, hi - 1), dues[hi - 1])
  }

  ghost predicate OnlySyncs(a: Tables, b: Tables) {
    b == a.(syncs := b.syncs)
  }

  /** A row after the write due for it, if any. */
  function After(row: Option<SyncRow>, due: Option<SyncRow>, completed: bool): Option<SyncRow> {
    if due.Some? then Some(Merged(row, due.value, completed)) else row
  }

  /** Two changes in a row, at most one of which is due for `k`. */
  lemma AfterBoth(
    t: Tables, earlier: Tables, later: Tables, k: (Validator, Slot), first: Option<SyncRow>, second: Option<SyncRow>,
    completed: bool)
    requires OnlySyncs(t, earlier) && OnlySyncs(earlier, later) && (first.None? || second.None?)
    requires Lookup(earlier.syncs, k) == After(Lookup(t.syncs, k), first, completed)
    requires Lookup(later.syncs, k) == After(Lookup(earlier.syncs, k), second, completed)
    ensures OnlySyncs(t, later)
    ensures Lookup(later.syncs, k) == After(Lookup(t.syncs, k), second.Or(first), completed)
  {
  }

  /** The write due for row `k` from the slots `[lo, hi)`. */
  function DueAt(dues: map<Slot, SyncRows>, lo: Slot, hi: Slot, k: (Validator, Slot)): Option<SyncRow>
    requires forall s :: lo <= s < hi ==> s in dues
  {
    if lo <= k.1 < hi then Lookup(dues[k.1], k) else None
  }

  lemma {:induction false} WrittenInTurn(
    spec: Spec, t: Tables, dues: map<Slot, SyncRows>, lo: Slot, hi: Slot, k: (Validator, Slot))
    requires forall s :: lo <= s < hi ==> s in dues
    requires forall s <- dues :: forall key <- dues[s] :: key.1 == s
    ensures OnlySyncs(t, SlotsWritten(spec, t, dues, lo, hi))
    ensures Lookup(SlotsWritten(spec, t, dues, lo, hi).syncs, k)
         == After(Lookup(t.syncs, k), DueAt(dues, lo, hi, k), (k.0, EpochOf(spec, k.1)) in t.completed)
    decreases hi
  {
    if lo < hi {
      var earlier := SlotsWritten(spec, t, dues, lo, hi - 1);
      WrittenInTurn(spec, t, dues, lo, hi - 1, k);
      WrittenAt(spec, earlier.completed, earlier.syncs, dues[hi - 1], k);
      AfterBoth(t, earlier, SlotsWritten(spec, t, dues, lo, hi), k, DueAt(dues, lo, hi - 1, k),
                Lookup(dues[hi - 1], k), (k.0, EpochOf(spec, k.1)) in t.completed);
    }
  }

  /** Slots do not share rows: each key meets its own slot's write once, against the row there was before the scan. */
  lemma SlotsWrittenAt(scan: SyncScan, t: Tables, blocks: map<Slot, SlotSync>, lo: Slot, hi: Slot, k: (Validator, Slot))
    requires forall s :: lo <= s < hi ==> s in blocks
    ensures OnlySyncs(t, SlotsWritten(scan.spec, t, Dues(scan, blocks), lo, hi))
    ensures Lookup(SlotsWritten(scan.spec, t, Dues(scan, blocks), lo, hi).syncs, k)
         == After(Lookup(t.syncs, k), if lo <= k.1 < hi then DueFor(scan, blocks[k.1], k.0) else None,
                  (k.0, EpochOf(scan.spec, k.1)) in t.completed)
  {
    forall s, key | s in blocks && key in SlotDue(scan, blocks[s], s) ensures key.1 == s {
    }
    WrittenInTurn(scan.spec, t, Dues(scan, blocks), lo, hi, k);
  }

  /** One slot's rows; tells whether the slot held a block. */
  method WriteSlot(db: Database, scan: SyncScan, block: SlotSync, slot: Slot) returns (r: Result<bool>)
    requires scan.spec == db.spec && |scan.committee| == db.spec.syncCommitteeSize
    modifies db
    ensures r.Ok? <==> (block.Aggregate? ==> SyncBits(db.spec, block.bytes).Some?)
    ensures r.Ok? ==> r.value == !block.Skipped?
    ensures r.Ok? ==> db.View() == Written(db.spec, old(db.View()), SlotDue(scan, block, slot))
  {
    match block
    case Skipped =>
      WriteSkipped(db, scan.relevant, slot, scan.finalized);
      SameRows(SkippedDue(scan.relevant, slot, scan.finalized), SlotDue(scan, block, slot));
      return Ok(false);
    case NoAggregate =>
      WrittenNothing(db.spec, db.View());
      assert SlotDue(scan, block, slot) == map[];
      return Ok(true);
    case Aggregate(bytes) =>
      var written := WriteAggregate(db, scan, bytes, slot);
      return if written.Err? then Err(written.error) else Ok(true);
  }

  /** The row-writing loop; tells whether any slot held a block. */
  method WriteSlots(
    db: Database, scan: SyncScan, blocks: map<Slot, SlotSync>, lo: Slot, hi: Slot)
    returns (r: Result<bool>)
    requires scan.spec == db.spec && |scan.committee| == db.spec.syncCommitteeSize
    requires lo <= hi && forall s :: lo <= s < hi ==> s in blocks
    modifies db
    ensures r.Ok? <==> forall s :: lo <= s < hi && blocks[s].Aggregate? ==> SyncBits(db.spec, blocks[s].bytes).Some?
    ensures r.Ok? ==>
      && db.View() == SlotsWritten(db.spec, old(db.View()), Dues(scan, blocks), lo, hi)
      && (r.value <==> exists s :: lo <= s < hi && !blocks[s].Skipped?)
  {
    ghost var t := db.View();
    ghost var dues := Dues(scan, blocks);
    var hasBlocks := false;
    for s := lo to hi
      invariant forall x :: lo <= x < s && blocks[x].Aggregate? ==> SyncBits(db.spec, blocks[x].bytes).Some?
      invariant hasBlocks <==> exists x :: lo <= x < s && !blocks[x].Skipped?
      invariant db.View() == SlotsWritten(db.spec, t, dues, lo, s)
    {
      var written := WriteSlot(db, scan, blocks[s], s);
      if written.Err? {
        return Err(written.error);
      }
      hasBlocks := hasBlocks || written.value;
    }
    return Ok(hasBlocks);
  }

  predicate InRange(positions: seq<nat>, size: nat) {
    forall p <- positions :: p < size
  }

  /** Live rows of one slot for members with these positions. */
  function LiveDue(spec: Spec, slot: Slot, block: SlotSync, members: map<Validator, seq<nat>>): SyncRows {
    match block
    case Skipped => SkippedDue(members.Keys, slot, false)
    case NoAggregate => map[]
    case Aggregate(bytes) =>
      var bits := SyncBits(spec, bytes);
      if bits.None? then map[] else
        map k | k in At(members.Keys, slot) && InRange(members[k.0], |bits.value|) ::
          SyncRow(AnyPosition(bits.value, members[k.0]), None, false, false)
  }

  /** Some of the rows due. */
  ghost predicate PartOf(done: SyncRows, due: SyncRows) {
    forall k <- done :: k in due && done[k] == due[k]
  }

  /** When the sync half of a live slot succeeds: the aggregate decodes and has a bit for every position. */
  predicate SyncReads(spec: Spec, block: SlotSync, members: map<Validator, seq<nat>>) {
    members != map[] && block.Aggregate? ==>
      && SyncBits(spec, block.bytes).Some?
      && forall v <- members :: InRange(members[v], |SyncBits(spec, block.bytes).value|)
  }

  /** The sync half of a live slot; a position out of range stops it. */
  method UpsertLiveSyncInSlot(db: Database, slot: Slot, block: SlotSync, members: map<Validator, seq<nat>>)
    returns (r: Result<()>, ghost done: SyncRows)
    modifies db
    ensures r.Ok? <==> SyncReads(db.spec, block, members)
    ensures db.View() == Written(db.spec, old(db.View()), done) && PartOf(done, LiveDue(db.spec, slot, block, members))
    ensures r.Ok? ==> done == LiveDue(db.spec, slot, block, members)
    ensures r.Ok? && !block.NoAggregate? ==> done.Keys == At(members.Keys, slot)
  {
    ghost var t := db.View();
    WrittenNothing(db.spec, t);
    if members == map[] {
      assert LiveDue(db.spec, slot, block, members) == map[];
      return Ok(()), map[];
    }
    match block
    case Skipped =>
      WriteSkipped(db, members.Keys, slot, false);
      return Ok(()), SkippedDue(members.Keys, slot, false);
    case NoAggregate =>
      return Ok(()), map[];
    case Aggregate(bytes) =>
      var decoded := DecodeSyncCommitteeBits(db.spec, bytes);
      if decoded.Err? {
        return Err(decoded.error), map[];
      }
      r, done := WriteLiveAggregate(db, slot, bytes, decoded.value, members);
  }

  method WriteLiveAggregate(
    db: Database, slot: Slot, ghost bytes: seq<Byte>, bits: seq<bool>, members: map<Validator, seq<nat>>)
    returns (r: Result<()>, ghost done: SyncRows)
    requires SyncBits(db.spec, bytes) == Some(bits)
    modifies db
    ensures db.View() == Written(db.spec, old(db.View()), done)
    ensures PartOf(done, LiveDue(db.spec, slot, Aggregate(bytes), members))
    ensures r.Ok? ==> done == LiveDue(db.spec, slot, Aggregate(bytes), members)
    ensures r.Ok? <==> forall v <- members :: InRange(members[v], |bits|)
  {
    ghost var t := db.View();
    WrittenNothing(db.spec, t);
    ghost var due := LiveDue(db.spec, slot, Aggregate(bytes), members);
    done := map[];
    var pending := members.Keys;
    while pending != {}
      invariant pending <= members.Keys
      invariant DoneExcept(done, due, pending)
      invariant forall v <- members :: v in pending || InRange(members[v], |bits|)
      invariant db.View() == Written(db.spec, t, done)
    {
      var v :| v in pending;
      if !InRange(members[v], |bits|) {
        return Err(InconsistentBeaconData), done;
      }
      pending := pending - {v};
      var row := SyncRow(AnyPosition(bits, members[v]), None, false, false);
      assert (v, slot) in due && due[(v, slot)] == row;
      assert Lookup(done, (v, slot)).None?;
      WriteRow(db, (v, slot), row, t, done);
      done := done[(v, slot) := row];
    }
    SameRows(done, due);
    return Ok(()), done;
  }

  /** Archive and live write the same participation for a member at every slot. */
  lemma ArchiveAndLiveAgree(scan: SyncScan, block: SlotSync, slot: Slot, v: Validator, positions: seq<nat>)
    requires |scan.committee| == scan.spec.syncCommitteeSize && v in scan.committee && v in scan.relevant
    requires SeatsOf(scan.committee, v, positions)
    ensures var archive := DueFor(scan, block, v);
            var live := Lookup(LiveDue(scan.spec, slot, block, map[v := positions]), (v, slot));
      && archive.Some? == live.Some?
      && (archive.Some? ==> archive.value.participated == live.value.participated
                            && archive.value.missedBlock == live.value.missedBlock)
  {
    if block.Aggregate? && SyncBits(scan.spec, block.bytes).Some? {
      ParticipationAgrees(scan.committee, SyncBits(scan.spec, block.bytes).value, v, positions);
    }
  }
}
