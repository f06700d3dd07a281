/** Slot selection and slot processing of the live head scan (src/live/head.rs:17-290). */
module HeadScan {
  import opened Wrappers
  import opened Chain
  import opened Tables
  import Promotion

  // ---- Newest-first selection ----

  /** The newest `n` of `slots` at or below `hi`, newest first. */
  function Newest(slots: set<Slot>, hi: Slot, n: nat): seq<Slot>
    decreases hi
  {
    if n == 0 then []
    else if hi in slots then [hi] + (if hi == 0 then [] else Newest(slots, hi - 1, n - 1))
    else if hi == 0 then [] else Newest(slots, hi - 1, n)
  }

  /** Descending, of the set, and complete unless the limit was reached by newer slots. */
  lemma {:induction false} NewestFacts(slots: set<Slot>, hi: Slot, n: nat)
    ensures var picked := Newest(slots, hi, n);
      && |picked| <= n
      && (forall s <- picked :: s in slots && s <= hi)
      && (forall i, j :: 0 <= i < j < |picked| ==> picked[i] > picked[j])
      && (forall s <- slots :: s <= hi && s !in picked ==> |picked| == n && forall x <- picked :: x > s)
    decreases hi
  {
    if n > 0 && hi > 0 {
      if hi in slots {
        var rest := Newest(slots, hi - 1, n - 1);
        NewestFacts(slots, hi - 1, n - 1);
        var picked := [hi] + rest;
        forall j | 0 < j < |picked| ensures picked[j] < hi {
          assert picked[j] == rest[j - 1] && rest[j - 1] in rest;
        }
        forall i, j | 0 < i < j < |picked| ensures picked[i] > picked[j] {
          assert picked[i] == rest[i - 1] && picked[j] == rest[j - 1];
        }
        forall s | s in slots && s <= hi && s !in picked ensures |picked| == n && forall x <- picked :: x > s {
          assert s != hi && s !in rest;
        }
      } else {
        NewestFacts(slots, hi - 1, n);
      }
    }
  }

  ghost predicate Uncovered(t: Tables, tracked: set<Validator>, slot: Slot) {
    exists v :: v in tracked && (v, slot) !in t.coverage
  }

  function CoveredBy(t: Tables, tracked: set<Validator>, slot: Slot): (covered: set<Validator>)
    ensures forall v :: v in covered <==> v in tracked && (v, slot) in t.coverage
  {
    set v | v in tracked && (v, slot) in t.coverage
  }

  /** `COUNT(coverage of the tracked) < |tracked|`. */
  predicate Undercounted(t: Tables, tracked: set<Validator>, slot: Slot) {
    |CoveredBy(t, tracked, slot)| < |tracked|
  }

  lemma CountMeansUncovered(t: Tables, tracked: set<Validator>, slot: Slot)
    ensures Undercounted(t, tracked, slot) <==> Uncovered(t, tracked, slot)
  {
    var covered := CoveredBy(t, tracked, slot);
    if !Uncovered(t, tracked, slot) {
      assert covered == tracked;
    } else {
      var v :| v in tracked && (v, slot) !in t.coverage;
      Promotion.SubsetSize(covered, tracked - {v});
    }
  }

  /** `MIN(started_epoch) * slots_per_epoch`, over the tracked validators that have started. */
  predicate Started(spec: Spec, t: Tables, tracked: set<Validator>, slot: Slot) {
    (forall v <- tracked :: v !in t.started) || exists v <- tracked ::
      v in t.started && EpochStart(spec, t.started[v]) <= slot
  }

  function Range(lo: Slot, hi: Slot): (slots: set<Slot>)
    ensures forall s :: s in slots <==> lo <= s <= hi
  {
    if lo <= hi then Promotion.Interval(lo, hi + 1) else {}
  }

  function Elements(slots: seq<Slot>): (elements: set<Slot>)
    ensures forall s :: s in elements <==> s in slots
  {
    set s <- slots
  }

  function MissingSlots(spec: Spec, t: Tables, tracked: set<Validator>, lo: Slot, hi: Slot): set<Slot> {
    set s | s in Range(lo, hi) && Started(spec, t, tracked, s) && Undercounted(t, tracked, s)
  }

  function MissingCoverageSlots(
    spec: Spec, t: Tables, tracked: set<Validator>, lo: Slot, hi: Slot, limit: nat): seq<Slot>
  {
    Newest(MissingSlots(spec, t, tracked, lo, hi), hi, limit)
  }


  function NextSlot(cursor: Option<Slot>): Slot {
    if cursor.Some? then cursor.value + 1 else 0
  }

  /** The slots one head scan works on: what follows the cursor, and the 12 newest gaps; 32 at most, newest first. */
  function SelectedSlots(
    spec: Spec, t: Tables, tracked: set<Validator>, cursor: Option<Slot>, lo: Slot, target: Slot): seq<Slot>
  {
    var gaps := MissingCoverageSlots(spec, t, tracked, lo, target, 12);
    Newest(Range(NextSlot(cursor), target) + Elements(gaps), target, 32)
  }

  /** A gap is taken unless twelve newer ones are. */
  lemma NewerGapsFirst(spec: Spec, t: Tables, tracked: set<Validator>, lo: Slot, target: Slot, s: Slot)
    requires s in MissingSlots(spec, t, tracked, lo, target)
    ensures s in MissingCoverageSlots(spec, t, tracked, lo, target, 12)
            || 12 <= |set x | x in MissingSlots(spec, t, tracked, lo, target) && x > s|
  {
    var missing := MissingSlots(spec, t, tracked, lo, target);
    var gaps := MissingCoverageSlots(spec, t, tracked, lo, target, 12);
    NewestFacts(missing, target, 12);
    DistinctCount(gaps);
    if s !in gaps {
      Promotion.SubsetSize(Elements(gaps), set x | x in missing && x > s);
    }
  }

  /** With room for both, all that follows the cursor and all the gaps taken are selected. */
  lemma RoomForAll(spec: Spec, t: Tables, tracked: set<Validator>, cursor: Option<Slot>, lo: Slot, target: Slot)
    requires target < NextSlot(cursor) + 20
    ensures Elements(SelectedSlots(spec, t, tracked, cursor, lo, target))
         == Range(NextSlot(cursor), target) + Elements(MissingCoverageSlots(spec, t, tracked, lo, target, 12))
  {
    var gaps := MissingCoverageSlots(spec, t, tracked, lo, target, 12);
    var range := Range(NextSlot(cursor), target);
    NewestFacts(MissingSlots(spec, t, tracked, lo, target), target, 12);
    DistinctCount(gaps);
    RangeSize(NextSlot(cursor), target);
    assert range + Elements(gaps) == range + (Elements(gaps) - range);
    Promotion.SubsetSize(Elements(gaps) - range, Elements(gaps));
    AllPicked(range + Elements(gaps), target, 32);
  }

  /** At most 32 slots; with at most 20 past the cursor, all of those and the 12 newest gaps. */
  lemma SelectionIsBounded(
    spec: Spec, t: Tables, tracked: set<Validator>, cursor: Option<Slot>, lo: Slot, target: Slot)
    ensures |SelectedSlots(spec, t, tracked, cursor, lo, target)| <= 32
    ensures target < NextSlot(cursor) + 20 ==>
      && (forall s :: NextSlot(cursor) <= s <= target ==> s in SelectedSlots(spec, t, tracked, cursor, lo, target))
      && (forall s :: s in MissingSlots(spec, t, tracked, lo, target) ==>
            || s in SelectedSlots(spec, t, tracked, cursor, lo, target)
            || 12 <= |set x | x in MissingSlots(spec, t, tracked, lo, target) && x > s|)
  {
    var gaps := MissingCoverageSlots(spec, t, tracked, lo, target, 12);
    NewestFacts(Range(NextSlot(cursor), target) + Elements(gaps), target, 32);
    if target < NextSlot(cursor) + 20 {
      RoomForAll(spec, t, tracked, cursor, lo, target);
      forall s | s in MissingSlots(spec, t, tracked, lo, target) {
        NewerGapsFirst(spec, t, tracked, lo, target, s);
      }
    }
  }

  lemma RangeSize(lo: Slot, hi: Slot)
    ensures |Range(lo, hi)| == if lo <= hi then hi + 1 - lo else 0
  {
  }

  // ---- Coverage under repeated, succeeding scans of a fixed head ----

  ghost function SelectedSet(
    spec: Spec, t: Tables, tracked: set<Validator>, cursor: Option<Slot>, lo: Slot, target: Slot): set<Slot>
  {
    Elements(SelectedSlots(spec, t, tracked, cursor, lo, target))
  }

  /** Tables and cursor after a scan in which every slot succeeded. */
  ghost function Scanned(spec: Spec, t: Tables, tracked: set<Validator>, cursor: Option<Slot>, lo: Slot, target: Slot)
    : (Tables, Option<Slot>)
  {
    var selected := SelectedSlots(spec, t, tracked, cursor, lo, target);
    (t.(coverage := t.coverage + Covering(tracked, selected)), Furthest(cursor, selected))
  }

  function Covering(tracked: set<Validator>, slots: seq<Slot>): (pairs: set<(Validator, Slot)>)
    ensures forall c :: c in pairs <==> c.0 in tracked && c.1 in slots
  {
    set v, s | v in tracked && s in slots :: (v, s)
  }

  /** The cursor never moves back. */
  function Furthest(cursor: Option<Slot>, slots: seq<Slot>): Option<Slot> {
    if slots == [] then cursor
    else
      var n := |slots| - 1;
      var last := Furthest(cursor, slots[..n]);
      if last.Some? && last.value >= slots[n] then last else Some(slots[n])
  }

  lemma {:induction false} FurthestFacts(cursor: Option<Slot>, slots: seq<Slot>)
    ensures cursor.Some? ==> Furthest(cursor, slots).Some? && cursor.value <= Furthest(cursor, slots).value
    ensures forall s <- slots :: Furthest(cursor, slots).Some? && s <= Furthest(cursor, slots).value
    ensures Furthest(cursor, slots) == cursor
        || (Furthest(cursor, slots).Some? && Furthest(cursor, slots).value in slots)
  {
    if slots != [] {
      var n := |slots| - 1;
      var last := Furthest(cursor, slots[..n]);
      FurthestFacts(cursor, slots[..n]);
      forall s | s in slots ensures Furthest(cursor, slots).Some? && s <= Furthest(cursor, slots).value {
        if s != slots[n] {
          var i :| 0 <= i < |slots| && slots[i] == s;
          assert slots[..n][i] == s && s in slots[..n];
        }
      }
      if Furthest(cursor, slots) == last && last != cursor {
        var i :| 0 <= i < n && slots[..n][i] == last.value;
        assert slots[i] == last.value;
      }
    }
  }

  /** The gaps left by a scan are the gaps it did not select. */
  lemma GapsLeft(spec: Spec, t: Tables, tracked: set<Validator>, selected: seq<Slot>, lo: Slot, target: Slot)
    ensures MissingSlots(spec, t.(coverage := t.coverage + Covering(tracked, selected)), tracked, lo, target)
         == MissingSlots(spec, t, tracked, lo, target) - Elements(selected)
  {
    var after := t.(coverage := t.coverage + Covering(tracked, selected));
    forall s: Slot ensures Undercounted(after, tracked, s) <==> Undercounted(t, tracked, s) && s !in selected {
      CountMeansUncovered(t, tracked, s);
      CountMeansUncovered(after, tracked, s);
      if Uncovered(t, tracked, s) && s !in selected {
        var v :| v in tracked && (v, s) !in t.coverage;
        assert (v, s) !in after.coverage;
      }
    }
  }

  /** Every candidate is picked when the limit leaves room for all. */
  lemma AllPicked(slots: set<Slot>, hi: Slot, n: nat)
    requires |slots| <= n && forall s <- slots :: s <= hi
    ensures Elements(Newest(slots, hi, n)) == slots
  {
    var picked := Newest(slots, hi, n);
    NewestFacts(slots, hi, n);
    DistinctCount(picked);
    if s :| s in slots && s !in picked {
      Promotion.SubsetSize(Elements(picked) + {s}, slots);
    }
  }

  lemma {:induction false} DistinctCount(slots: seq<Slot>)
    requires forall i, j :: 0 <= i < j < |slots| ==> slots[i] > slots[j]
    ensures |Elements(slots)| == |slots|
  {
    if slots != [] {
      var n := |slots| - 1;
      DistinctCount(slots[..n]);
      forall s ensures s in Elements(slots) <==> s in Elements(slots[..n]) + {slots[n]} {
        assert slots == slots[..n] + [slots[n]];
      }
      assert Elements(slots) == Elements(slots[..n]) + {slots[n]};
      assert slots[n] !in slots[..n];
    } else {
      assert Elements(slots) == {};
    }
  }

  /** While slots follow the cursor, one scan reaches the target. */
  lemma ScanReachesTarget(spec: Spec, t: Tables, tracked: set<Validator>, cursor: Option<Slot>, lo: Slot, target: Slot)
    ensures NextSlot(Scanned(spec, t, tracked, cursor, lo, target).1) > target
  {
    var selected := SelectedSlots(spec, t, tracked, cursor, lo, target);
    FurthestFacts(cursor, selected);
    if NextSlot(cursor) <= target {
      assert target in Range(NextSlot(cursor), target);
      assert selected[0] == target;
      assert target in selected;
    }
  }

  /** Once nothing follows the cursor, each scan closes the 12 newest gaps. */
  lemma ScanClosesGaps(spec: Spec, t: Tables, tracked: set<Validator>, cursor: Option<Slot>, lo: Slot, target: Slot)
    requires NextSlot(cursor) > target
    ensures var gaps := MissingSlots(spec, t, tracked, lo, target);
      && SelectedSet(spec, t, tracked, cursor, lo, target) <= gaps
      && |gaps - SelectedSet(spec, t, tracked, cursor, lo, target)| == SaturatingSub(|gaps|, 12)
  {
    var gaps := MissingSlots(spec, t, tracked, lo, target);
    var picked := MissingCoverageSlots(spec, t, tracked, lo, target, 12);
    NewestFacts(gaps, target, 12);
    DistinctCount(picked);
    var chosen := Elements(picked);
    assert chosen <= gaps;
    assert Range(NextSlot(cursor), target) + chosen == chosen;
    AllPicked(chosen, target, 32);
    if |picked| < 12 {
      assert chosen == gaps;
    }
    if |gaps| <= 12 {
      AllPicked(gaps, target, 12);
    }
    assert |gaps - chosen| == |gaps| - |chosen|;
  }

  /** One succeeding scan: the measure (slots that follow the cursor, gaps) falls until both are gone. */
  lemma ScanProgress(spec: Spec, t: Tables, tracked: set<Validator>, cursor: Option<Slot>, lo: Slot, target: Slot)
    ensures var (after, last) := Scanned(spec, t, tracked, cursor, lo, target);
      var (gaps, left) := (MissingSlots(spec, t, tracked, lo, target), MissingSlots(spec, after, tracked, lo, target));
      && after == t.(coverage := after.coverage)
      && NextSlot(last) > target
      && |left| <= |gaps|
      && (NextSlot(cursor) > target ==> |left| == SaturatingSub(|gaps|, 12))
  {
    var selected := SelectedSlots(spec, t, tracked, cursor, lo, target);
    var gaps := MissingSlots(spec, t, tracked, lo, target);
    GapsLeft(spec, t, tracked, selected, lo, target);
    ScanReachesTarget(spec, t, tracked, cursor, lo, target);
    Promotion.SubsetSize(gaps - Elements(selected), gaps);
    if NextSlot(cursor) > target {
      ScanClosesGaps(spec, t, tracked, cursor, lo, target);
    }
  }

  /** Tables and cursors of a run of succeeding scans of one head. */
  type Trace = seq<(Tables, Option<Slot>)>

  ghost predicate IsRun(spec: Spec, tracked: set<Validator>, lo: Slot, target: Slot, trace: Trace) {
    forall i :: 0 < i < |trace| ==> trace[i] == Scanned(spec, trace[i - 1].0, tracked, trace[i - 1].1, lo, target)
  }

  ghost function Gaps(spec: Spec, tracked: set<Validator>, lo: Slot, target: Slot, trace: Trace, i: nat): nat
    requires i < |trace|
  {
    |MissingSlots(spec, trace[i].0, tracked, lo, target)|
  }

  lemma RunStep(spec: Spec, tracked: set<Validator>, lo: Slot, target: Slot, trace: Trace, i: nat)
    requires IsRun(spec, tracked, lo, target, trace) && 0 < i < |trace|
    ensures NextSlot(trace[i].1) > target && trace[i].0 == trace[i - 1].0.(coverage := trace[i].0.coverage)
    ensures Gaps(spec, tracked, lo, target, trace, i) <= Gaps(spec, tracked, lo, target, trace, i - 1)
    ensures NextSlot(trace[i - 1].1) > target ==>
      Gaps(spec, tracked, lo, target, trace, i) == SaturatingSub(Gaps(spec, tracked, lo, target, trace, i - 1), 12)
  {
    ScanProgress(spec, trace[i - 1].0, tracked, trace[i - 1].1, lo, target);
  }

  /** The slot lies in the tracking time of one of the tracked, or none of them has a start. */
  predicate Tracked(spec: Spec, started: map<Validator, Epoch>, tracked: set<Validator>, slot: Slot) {
    (exists v <- tracked :: v in started && started[v] * spec.slotsPerEpoch <= slot) || tracked !! started.Keys
  }

  /** Nothing missing means everything eligible is covered. */
  lemma NothingMissing(spec: Spec, t: Tables, tracked: set<Validator>, lo: Slot, target: Slot)
    requires |MissingSlots(spec, t, tracked, lo, target)| == 0
    ensures forall v <- tracked, s :: lo <= s <= target && Tracked(spec, t.started, tracked, s) ==>
      (v, s) in t.coverage
  {
    forall v, s | v in tracked && lo <= s <= target && Tracked(spec, t.started, tracked, s)
      ensures (v, s) in t.coverage
    {
      CountMeansUncovered(t, tracked, s);
      assert s !in MissingSlots(spec, t, tracked, lo, target);
    }
  }

  /**
   * Neither limit starves a slot: one scan to reach the target, then each closes 12 more gaps; once there have been
   * enough of them, every tracked validator has every slot of its tracking time down to `lo` covered.
   */
  lemma {:induction false} RepeatedScansCoverEverything(
    spec: Spec, tracked: set<Validator>, lo: Slot, target: Slot, trace: Trace, n: nat)
    requires IsRun(spec, tracked, lo, target, trace) && 0 < n < |trace|
    ensures NextSlot(trace[n].1) > target && trace[n].0 == trace[0].0.(coverage := trace[n].0.coverage)
    ensures Gaps(spec, tracked, lo, target, trace, n) <= SaturatingSub(Gaps(spec, tracked, lo, target, trace, 0),
      12 * (n - 1))
    ensures 12 * (n - 1) >= Gaps(spec, tracked, lo, target, trace, 0) ==>
      forall v <- tracked, s :: lo <= s <= target && Tracked(spec, trace[n].0.started, tracked, s) ==>
        (v, s) in trace[n].0.coverage
  {
    RunStep(spec, tracked, lo, target, trace, n);
    if n > 1 {
      RepeatedScansCoverEverything(spec, tracked, lo, target, trace, n - 1);
    }
    if 12 * (n - 1) >= Gaps(spec, tracked, lo, target, trace, 0) {
      NothingMissing(spec, trace[n].0, tracked, lo, target);
    }
  }
}
