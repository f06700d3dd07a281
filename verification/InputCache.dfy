/** Durable node inputs, reusable while their canonical anchor stands (src/beacon_client/inputs.rs). */
module InputCache {
  import opened Wrappers
  import opened Chain

  /** What the node serves at one moment: canonical headers up to the head, and headers by root on any branch. */
  datatype View = View(headers: map<Slot, Root>, head: Slot, known: set<Root>)

  type Snapshot = s: View | s.head in s.headers && forall x <- s.headers :: x <= s.head witness View(map[0 := 0], 0, {})

  datatype Response = Response(body: nat, optimistic: bool, dependency: Option<Root>)

  datatype CachedInput = CachedInput(anchor: (Slot, Root), response: Response)

  /** Path and sorted, deduplicated indices. */
  datatype Key = Key(path: nat, indices: set<Validator>)

  // ---- The anchor ----

  /** The canonical header at a slot; an absent one is a 404. */
  function HeaderAt(s: Snapshot, slot: Slot): Result<Root> {
    if slot in s.headers then Ok(s.headers[slot]) else Err(NotFound)
  }

  ghost predicate IsLatest(s: Snapshot, slot: Slot, boundary: Slot) {
    slot in s.headers && slot <= boundary && forall x <- s.headers :: x <= boundary ==> x <= slot
  }

  /** The head up to the boundary; past it the latest block at or before the boundary, two epochs back at most. */
  ghost predicate IsAnchor(spec: Spec, s: Snapshot, epoch: Epoch, r: Result<(Slot, Root)>) {
    var boundary := EpochStart(spec, epoch);
    match r
    case Ok((slot, root)) =>
      && slot in s.headers && root == s.headers[slot]
      && (if s.head <= boundary then slot == s.head
          else IsLatest(s, slot, boundary) && boundary - slot <= 2 * spec.slotsPerEpoch)
    case Err(_) =>
      && s.head > boundary
      && forall x <- s.headers :: x <= boundary ==> boundary - x > 2 * spec.slotsPerEpoch
  }

  method InputAnchor(spec: Spec, s: Snapshot, epoch: Epoch) returns (r: Result<(Slot, Root)>, ghost probes: nat)
    ensures IsAnchor(spec, s, epoch, r)
    ensures probes <= 2 * spec.slotsPerEpoch + 1
    ensures r.Err? ==> probes == Least(EpochStart(spec, epoch), 2 * spec.slotsPerEpoch) + 1
  {
    var boundary := EpochStart(spec, epoch);
    probes := 0;
    if s.head <= boundary {
      return Ok((s.head, s.headers[s.head])), 0;
    }
    var slot: Slot := boundary;
    while true
      invariant slot <= boundary && boundary - slot <= 2 * spec.slotsPerEpoch
      invariant probes == boundary - slot
      invariant forall x :: slot < x <= boundary ==> x !in s.headers
      decreases slot
    {
      probes := probes + 1;
      var header := HeaderAt(s, slot);
      if header.Ok? {
        return Ok((slot, header.value)), probes;
      }
      if slot == 0 {
        break;
      }
      slot := slot - 1;
      if boundary - slot > 2 * spec.slotsPerEpoch {
        break;
      }
    }
    return Err(BeaconDataUnavailable), probes;
  }

  function Least(a: nat, b: nat): nat {
    if a <= b then a else b
  }

  /** On one snapshot the anchor is determined. */
  lemma AnchorIsUnique(spec: Spec, s: Snapshot, epoch: Epoch, a: Result<(Slot, Root)>, b: Result<(Slot, Root)>)
    requires IsAnchor(spec, s, epoch, a) && IsAnchor(spec, s, epoch, b)
    ensures a.Ok? <==> b.Ok?
    ensures a.Ok? ==> a.value == b.value
  {
  }

  /** The block a response says it depends on, if any, still has a header. */
  predicate DependencyKnown(s: Snapshot, response: Response) {
    response.dependency.Some? ==> response.dependency.value in s.known
  }

  /** Not optimistic, and standing on a known block. */
  predicate Usable(s: Snapshot, response: Response) {
    !response.optimistic && DependencyKnown(s, response)
  }

  /** What makes a parsed response unusable. */
  method CheckResponse(s: Snapshot, response: Response) returns (r: Result<()>)
    ensures r == if response.optimistic then Err(InconsistentBeaconData)
                 else if DependencyKnown(s, response) then Ok(()) else Err(NotFound)
  {
    if response.optimistic {
      return Err(InconsistentBeaconData);
    }
    if response.dependency.Some? && response.dependency.value !in s.known {
      return Err(NotFound);
    }
    return Ok(());
  }

  // ---- Reuse ----

  /** `anchor_unchanged`: one header instead of the look-back. */
  method AnchorUnchanged(s: Snapshot, hit: CachedInput) returns (r: Result<bool>)
    ensures r == if hit.anchor.0 in s.headers then Ok(s.headers[hit.anchor.0] == hit.anchor.1) else Err(NotFound)
  {
    var root :- HeaderAt(s, hit.anchor.0);
    return Ok(root == hit.anchor.1);
  }

  /** A stored anchor never lies past its epoch's boundary. */
  predicate Anchored(spec: Spec, epoch: Epoch, hit: CachedInput) {
    hit.anchor.0 <= EpochStart(spec, epoch)
  }

  /**
   * The reuse test accepts exactly when recomputing the anchor gives the stored one. It fails, instead of
   * refusing, when the stored anchor is the boundary block and the boundary is now empty, or when the
   * recomputed look-back finds nothing.
   */
  method StillCurrent(spec: Spec, s: Snapshot, epoch: Epoch, hit: CachedInput) returns (r: Result<bool>)
    requires Anchored(spec, epoch, hit)
    ensures r == Ok(true) <==> IsAnchor(spec, s, epoch, Ok(hit.anchor))
    ensures r.Err? <==> if hit.anchor.0 == EpochStart(spec, epoch) then EpochStart(spec, epoch) !in s.headers
                        else exists e :: IsAnchor(spec, s, epoch, Err(e))
    ensures r.Err? && hit.anchor.0 == EpochStart(spec, epoch) ==> r.error == NotFound
  {
    if hit.anchor.0 < EpochStart(spec, epoch) {
      var anchor, probes := InputAnchor(spec, s, epoch);
      if anchor.Err? {
        return Err(anchor.error);
      }
      return Ok(anchor.value == hit.anchor);
    }
    r := AnchorUnchanged(s, hit);
  }

  /** Anchored to a boundary block that has since been orphaned by a chain which skips the boundary slot. */
  predicate OnEmptyBoundary(spec: Spec, s: Snapshot, epoch: Epoch, hit: CachedInput) {
    hit.anchor.0 == EpochStart(spec, epoch) && EpochStart(spec, epoch) !in s.headers
  }

  /**
   * A request succeeds if the response can be used and the anchor before it is the anchor after it.
   */
  ghost predicate Fetchable(spec: Spec, epoch: Epoch, before: Snapshot, during: Result<Response>, after: Snapshot) {
    && during.Ok? && Usable(after, during.value)
    && exists anchor :: IsAnchor(spec, before, epoch, Ok(anchor)) && IsAnchor(spec, after, epoch, Ok(anchor))
  }

  /** A current hit must also be usable; one that is not current is fetched again. */
  method Reusable(spec: Spec, s: Snapshot, epoch: Epoch, hit: CachedInput) returns (r: Result<bool>)
    requires Anchored(spec, epoch, hit)
    ensures r == Ok(true) <==> IsAnchor(spec, s, epoch, Ok(hit.anchor)) && Usable(s, hit.response)
    ensures IsAnchor(spec, s, epoch, Ok(hit.anchor)) ==>
      r == if hit.response.optimistic then Err(InconsistentBeaconData)
           else if DependencyKnown(s, hit.response) then Ok(true) else Err(NotFound)
    ensures r.Err? && !IsAnchor(spec, s, epoch, Ok(hit.anchor)) ==>
      OnEmptyBoundary(spec, s, epoch, hit) || exists e :: IsAnchor(spec, s, epoch, Err(e))
    ensures OnEmptyBoundary(spec, s, epoch, hit) ==> r == Err(NotFound)
  {
    var current := StillCurrent(spec, s, epoch, hit);
    if current.Err? || !current.value {
      return current;
    }
    var usable := CheckResponse(s, hit.response);
    return if usable.Err? then Err(usable.error) else Ok(true);
  }

  /** The request between its two anchors. */
  method Fetch(spec: Spec, epoch: Epoch, before: Snapshot, during: Result<Response>, after: Snapshot)
    returns (r: Result<CachedInput>)
    ensures r.Ok? <==> Fetchable(spec, epoch, before, during, after)
    ensures r.Ok? ==>
      && during == Ok(r.value.response) && Usable(after, r.value.response) && Anchored(spec, epoch, r.value)
      && IsAnchor(spec, before, epoch, Ok(r.value.anchor)) && IsAnchor(spec, after, epoch, Ok(r.value.anchor))
  {
    var anchor, probes := InputAnchor(spec, before, epoch);
    if anchor.Err? {
      return Err(anchor.error);
    }
    if during.Err? {
      return Err(during.error);
    }
    var usable := CheckResponse(after, during.value);
    if usable.Err? {
      return Err(usable.error);
    }
    var again, probes' := InputAnchor(spec, after, epoch);
    if again.Err? {
      return Err(again.error);
    }
    if again.value != anchor.value {
      return Err(InconsistentBeaconData);
    }
    return Ok(CachedInput(anchor.value, during.value));
  }

  ghost predicate OthersKept(a: map<Key, CachedInput>, b: map<Key, CachedInput>, key: Key) {
    forall k :: k != key ==> (k in a <==> k in b) && (k in a ==> b[k] == a[k])
  }

  /** The stores of one client: memory over the durable table. */
  class Client {
    const spec: Spec
    var memory: map<Key, CachedInput>
    var table: map<Key, CachedInput>
    /** The epoch each key's path names. */
    const epochOf: map<Key, Epoch>

    ghost predicate Valid()
      reads this
    {
      && (forall k <- memory :: k in epochOf && Anchored(spec, epochOf[k], memory[k]))
      && (forall k <- table :: k in epochOf && Anchored(spec, epochOf[k], table[k]))
    }

    constructor (spec: Spec, epochOf: map<Key, Epoch>)
      ensures Valid() && this.spec == spec && this.epochOf == epochOf
    {
      this.spec, this.epochOf, memory, table := spec, epochOf, map[], map[];
    }

    /** Memory is cleared after a reorg; the table is not. */
    method InvalidateDutyCaches()
      requires Valid()
      modifies this`memory
      ensures Valid() && memory == map[]
    {
      memory := map[];
    }

    function Cached(key: Key): Option<CachedInput>
      reads this
    {
      if key in memory then Some(memory[key]) else if key in table then Some(table[key]) else None
    }

    /**
     * `before`, `during` and `after` are what the node serves for the reuse test and first anchor, for the
     * request, and for the final anchor. A returned response belongs to an anchor that was canonical in the
     * snapshot it was last checked against, and only such responses are ever stored.
     */
    method CachedInputFor(key: Key, before: Snapshot, during: Result<Response>, after: Snapshot)
      returns (r: Result<Response>)
      requires Valid() && key in epochOf
      modifies this
      ensures Valid()
      ensures OthersKept(old(memory), memory, key) && OthersKept(old(table), table, key)
      ensures r.Ok? <==>
        var (hit, epoch) := (old(Cached(key)), epochOf[key]);
        if hit.Some? && IsAnchor(spec, before, epoch, Ok(hit.value.anchor)) then Usable(before, hit.value.response)
        else !(hit.Some? && OnEmptyBoundary(spec, before, epoch, hit.value))
             && Fetchable(spec, epoch, before, during, after)
      ensures r.Ok? ==>
        && Cached(key).Some? && Cached(key).value.response == r.value && !r.value.optimistic
        && IsAnchor(spec, before, epochOf[key], Ok(Cached(key).value.anchor))
        && (|| (old(Cached(key)) == Cached(key) && DependencyKnown(before, r.value))
            || (IsAnchor(spec, after, epochOf[key], Ok(Cached(key).value.anchor))
                && during == Ok(r.value) && DependencyKnown(after, r.value)))
      ensures r.Err? ==> memory == old(memory) && table == old(table)
      ensures old(Cached(key)).Some? && OnEmptyBoundary(spec, before, epochOf[key], old(Cached(key)).value) ==>
        r == Err(NotFound)
      ensures old(Cached(key)).Some? && IsAnchor(spec, before, epochOf[key], Ok(old(Cached(key)).value.anchor)) ==>
        var response := old(Cached(key)).value.response;
        r == if response.optimistic then Err(InconsistentBeaconData)
             else if DependencyKnown(before, response) then Ok(response) else Err(NotFound)
    {
      var epoch := epochOf[key];
      var cached := Cached(key);
      if cached.Some? {
        var reusable := Reusable(spec, before, epoch, cached.value);
        if reusable.Err? {
          return Err(reusable.error);
        }
        if reusable.value {
          memory := memory[key := cached.value];
          return Ok(cached.value.response);
        }
      }
      var fetched := Fetch(spec, epoch, before, during, after);
      if fetched.Err? {
        return Err(fetched.error);
      }
      table := table[key := fetched.value];
      memory := memory[key := fetched.value];
      return Ok(fetched.value.response);
    }
  }
}
