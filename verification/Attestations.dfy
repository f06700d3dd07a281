/** Fork-specific attestation decoding (src/scanner/attestations/decode.rs and mod.rs). */
module Attestations {
  import opened Wrappers
  import opened Chain
  import opened Bits

  datatype Checkpoint = Checkpoint(epoch: Epoch, root: Root)

  datatype AttestationData = AttestationData(
    slot: Slot, index: nat, headRoot: Root, source: Checkpoint, target: Checkpoint)

  datatype Attestation =
    | PreElectra(data: AttestationData, aggregationBits: seq<Byte>)
    | Electra(data: AttestationData, aggregationBits: seq<Byte>, committeeBits: seq<Byte>)

  datatype Committee = Committee(slot: Slot, index: nat, validators: seq<Validator>)

  type CommitteeMap = map<(Slot, nat), seq<Validator>>

  /** What decides who votes in an epoch: its number and its committees. */
  datatype EpochView = EpochView(spec: Spec, epoch: Epoch, committees: CommitteeMap) {
    function Start(): Slot { EpochStart(spec, epoch) }
    /** First slot of the next epoch. */
    function End(): Slot { EpochStart(spec, epoch + 1) }
    /** First slot past the inclusion window. */
    function WindowEnd(): Slot { EpochStart(spec, epoch + 2) }
  }

  /** The canonical roots that votes are compared with; no source means inclusion vouches for it. */
  datatype VoteContext = VoteContext(
    blockRoots: map<Slot, Root>, targetRoot: Root, targetEpoch: Epoch, source: Option<Checkpoint>)

  datatype VoteMarks = VoteMarks(head: bool, target: bool, source: bool)

  datatype Inclusion = Inclusion(slot: Slot, delay: nat, marks: VoteMarks)

  /** A committee whose bits occupy `bits[bitOffset..bitOffset + |validators|]`. */
  datatype AssignedCommittee = AssignedCommittee(index: nat, validators: seq<Validator>, bitOffset: nat)

  // ---- The attesting set of EIP-7549 ----

  /** Indices of the set committee bits, ascending (`get_committee_indices`). */
  function SetIndices(bits: seq<bool>): (indices: seq<nat>)
    ensures forall k: nat :: k in indices <==> k < |bits| && bits[k]
  {
    if bits == [] then [] else
      var n := |bits| - 1;
      SetIndices(bits[..n]) + if bits[n] then [n] else []
  }

  /** The selected committees laid end to end: seat i votes through aggregation bit i. */
  function Seats(committees: CommitteeMap, slot: Slot, indices: seq<nat>): seq<Validator>
    requires forall k <- indices :: (slot, k) in committees
  {
    if indices == [] then [] else
      var n := |indices| - 1;
      Seats(committees, slot, indices[..n]) + committees[(slot, indices[n])]
  }

  /** One bit for every seat. */
  datatype BallotPaper = Ballot(seats: seq<Validator>, bits: seq<bool>)
  type Ballot = b: BallotPaper | |b.seats| == |b.bits| witness Ballot([], [])

  /** Seats and bits of a well-formed attestation; None when the encoding contradicts the committees. */
  function BallotOf(spec: Spec, committees: CommitteeMap, att: Attestation): Option<Ballot> {
    match BitlistOf(att.aggregationBits)
    case None => None
    case Some(bits) =>
      match att
      case PreElectra(data, _) =>
        var key := (data.slot, data.index);
        if key in committees && |committees[key]| == |bits| then Some(Ballot(committees[key], bits)) else None
      case Electra(data, _, committeeBits) =>
        var selected := BitvectorOf(committeeBits);
        var indices := SetIndices(selected);
        if data.index == 0 && |selected| == spec.maxCommitteesPerSlot && indices != []
           && (forall k <- indices :: (data.slot, k) in committees)
           && |Seats(committees, data.slot, indices)| == |bits|
        then Some(Ballot(Seats(committees, data.slot, indices), bits))
        else None
  }

  /** Validators whose bit is set (`get_attesting_indices`). */
  function Attesters(ballot: Ballot): set<Validator> {
    set i | 0 <= i < |ballot.seats| && ballot.bits[i] :: ballot.seats[i]
  }

  /**
   * `get_attesting_indices` of the Electra beacon-chain specification after the committees
   * `indices`: the validators found so far and the running committee offset.
   */
  function SpecLoop(committees: CommitteeMap, slot: Slot, indices: seq<nat>, bits: seq<bool>)
    : (state: (set<Validator>, nat))
    requires forall k <- indices :: (slot, k) in committees
  {
    if indices == [] then ({}, 0) else
      var n := |indices| - 1;
      var (output, offset) := SpecLoop(committees, slot, indices[..n], bits);
      var committee := committees[(slot, indices[n])];
      (output + (set i | 0 <= i < |committee| && offset + i < |bits| && bits[offset + i] :: committee[i]),
       offset + |committee|)
  }

  /** The committees an attestation votes for, in bit order. */
  function Selected(att: Attestation): seq<nat> {
    if att.PreElectra? then [att.data.index] else SetIndices(BitvectorOf(att.committeeBits))
  }

  /**
   * What makes an encoding readable against the committees: the bits decode, every selected committee is
   * known, and their members are as many as the bits. An Electra encoding also selects some committee,
   * by a vector of the right length, and leaves the old index zero.
   */
  predicate WellEncoded(spec: Spec, committees: CommitteeMap, att: Attestation) {
    var bits := BitlistOf(att.aggregationBits);
    && bits.Some?
    && (att.Electra? ==>
          att.data.index == 0 && |BitvectorOf(att.committeeBits)| == spec.maxCommitteesPerSlot && Selected(att) != [])
    && (forall k <- Selected(att) :: (att.data.slot, k) in committees)
    && SpecLoop(committees, att.data.slot, Selected(att), bits.value).1 == |bits.value|
  }

  /** The attesting set that the specification computes from the encoding. */
  function AttestingSet(spec: Spec, committees: CommitteeMap, att: Attestation): set<Validator>
    requires WellEncoded(spec, committees, att)
  {
    SpecLoop(committees, att.data.slot, Selected(att), BitlistOf(att.aggregationBits).value).0
  }

  /** By the specification, `v` votes for the epoch in this attestation. */
  predicate Attests(view: EpochView, att: Attestation, v: Validator) {
    && EpochOf(view.spec, att.data.slot) == view.epoch
    && WellEncoded(view.spec, view.committees, att)
    && v in AttestingSet(view.spec, view.committees, att)
  }

  lemma {:induction false} SpecLoopOffset(committees: CommitteeMap, slot: Slot, indices: seq<nat>, bits: seq<bool>)
    requires forall k <- indices :: (slot, k) in committees
    ensures SpecLoop(committees, slot, indices, bits).1 == |Seats(committees, slot, indices)|
  {
    if indices != [] {
      SpecLoopOffset(committees, slot, indices[..|indices| - 1], bits);
    }
  }

  lemma {:induction false} SpecLoopAttesters(committees: CommitteeMap, slot: Slot, indices: seq<nat>, bits: seq<bool>)
    requires forall k <- indices :: (slot, k) in committees
    requires |Seats(committees, slot, indices)| <= |bits|
    ensures SpecLoop(committees, slot, indices, bits).0
         == Attesters(Ballot(Seats(committees, slot, indices), bits[..|Seats(committees, slot, indices)|]))
  {
    if indices != [] {
      var n := |indices| - 1;
      SpecLoopAttesters(committees, slot, indices[..n], bits);
      SpecLoopOffset(committees, slot, indices[..n], bits);
      OneMoreCommittee(Seats(committees, slot, indices[..n]), committees[(slot, indices[n])], bits);
    }
  }

  lemma OneMoreCommittee(before: seq<Validator>, committee: seq<Validator>, bits: seq<bool>)
    requires |before| + |committee| <= |bits|
    ensures var offset := |before|;
      Attesters(Ballot(before + committee, bits[..offset + |committee|]))
      == Attesters(Ballot(before, bits[..offset]))
         + set i | 0 <= i < |committee| && offset + i < |bits| && bits[offset + i] :: committee[i]
  {
    var (seats, offset) := (before + committee, |before|);
    forall v
      ensures v in Attesters(Ballot(seats, bits[..|seats|])) <==>
              v in Attesters(Ballot(before, bits[..offset]))
              || v in (set i | 0 <= i < |committee| && offset + i < |bits| && bits[offset + i] :: committee[i])
    {
      if i: nat :| i < |committee| && bits[offset + i] && committee[i] == v {
        assert seats[offset + i] == v;
      }
      if i: nat :| i < offset && bits[i] && before[i] == v {
        assert seats[i] == v;
      }
    }
  }

  lemma SeatsOfSelected(committees: CommitteeMap, att: Attestation)
    requires forall k <- Selected(att) :: (att.data.slot, k) in committees
    ensures att.PreElectra? ==>
              Seats(committees, att.data.slot, Selected(att)) == committees[(att.data.slot, att.data.index)]
  {
    if att.PreElectra? {
      assert Seats(committees, att.data.slot, [att.data.index][..0]) == [];
    }
  }

  /** A ballot is read exactly from the well-formed encodings. */
  lemma BallotIffWellEncoded(spec: Spec, committees: CommitteeMap, att: Attestation)
    ensures BallotOf(spec, committees, att).Some? <==> WellEncoded(spec, committees, att)
    ensures BallotOf(spec, committees, att).Some? ==>
              && var ballot := BallotOf(spec, committees, att).value;
              && ballot.bits == BitlistOf(att.aggregationBits).value
              && ballot.seats == Seats(committees, att.data.slot, Selected(att))
  {
    if BitlistOf(att.aggregationBits).Some? && forall k <- Selected(att) :: (att.data.slot, k) in committees {
      SpecLoopOffset(committees, att.data.slot, Selected(att), BitlistOf(att.aggregationBits).value);
      SeatsOfSelected(committees, att);
    }
  }

  /** The set read off the concatenated seats is the attesting set the specification computes, in both encodings. */
  lemma AttestersMatchSpecification(spec: Spec, committees: CommitteeMap, att: Attestation)
    ensures BallotOf(spec, committees, att).Some? <==> WellEncoded(spec, committees, att)
    ensures WellEncoded(spec, committees, att) ==>
              Attesters(BallotOf(spec, committees, att).value) == AttestingSet(spec, committees, att)
  {
    BallotIffWellEncoded(spec, committees, att);
    if WellEncoded(spec, committees, att) {
      var bits := BitlistOf(att.aggregationBits).value;
      assert bits[..|bits|] == bits;
      SpecLoopAttesters(committees, att.data.slot, Selected(att), bits);
    }
  }

  /** The selected committees are taken in ascending order, each once. */
  lemma {:induction false} SetIndicesAscend(bits: seq<bool>, i: nat, j: nat)
    requires i < j < |SetIndices(bits)|
    ensures SetIndices(bits)[i] < SetIndices(bits)[j]
  {
    var n := |bits| - 1;
    var below := SetIndices(bits[..n]);
    if j < |below| {
      SetIndicesAscend(bits[..n], i, j);
    } else {
      assert below[i] in below;
    }
  }

  /** Does this attestation carry a vote of `v` for epoch `epoch`? */
  predicate CarriesVote(view: EpochView, att: Attestation, v: Validator) {
    EpochOf(view.spec, att.data.slot) == view.epoch
    && var ballot := BallotOf(view.spec, view.committees, att);
    ballot.Some? && v in Attesters(ballot.value)
  }

  /** The first attestation of the list that carries a vote of `v` for `epoch`. */
  function FirstVote(view: EpochView, atts: seq<Attestation>, v: Validator)
    : Option<AttestationData>
  {
    if atts == [] then None
    else if CarriesVote(view, atts[0], v) then Some(atts[0].data)
    else FirstVote(view, atts[1..], v)
  }

  /** A first vote is one of the list's, and there is none exactly when nothing carries a vote. */
  lemma {:induction false} FirstVoteFacts(view: EpochView, atts: seq<Attestation>, v: Validator)
    ensures FirstVote(view, atts, v).None? ==> forall att <- atts :: !CarriesVote(view, att, v)
    ensures FirstVote(view, atts, v).Some? ==>
              exists att :: att in atts && CarriesVote(view, att, v) && FirstVote(view, atts, v).value == att.data
  {
    if atts != [] && !CarriesVote(view, atts[0], v) {
      FirstVoteFacts(view, atts[1..], v);
      assert atts == [atts[0]] + atts[1..];
    }
  }

  /** The vote the scan reads is the vote the specification counts. */
  lemma CarriesIffAttests(view: EpochView, att: Attestation, v: Validator)
    ensures CarriesVote(view, att, v) <==> Attests(view, att, v)
  {
    AttestersMatchSpecification(view.spec, view.committees, att);
  }

  /** The first attestation of the list in which `v` votes for the epoch. */
  ghost predicate IsFirst(view: EpochView, atts: seq<Attestation>, v: Validator, i: nat) {
    i < |atts| && Attests(view, atts[i], v) && forall j :: 0 <= j < i ==> !Attests(view, atts[j], v)
  }

  lemma FirstOfRest(view: EpochView, atts: seq<Attestation>, v: Validator, i: nat)
    requires atts != [] && !Attests(view, atts[0], v) && IsFirst(view, atts[1..], v, i)
    ensures IsFirst(view, atts, v, i + 1) && atts[i + 1] == atts[1..][i]
  {
    forall j | 0 <= j < i + 1 ensures !Attests(view, atts[j], v) {
      if j > 0 {
        assert atts[j] == atts[1..][j - 1];
      }
    }
  }

  lemma AnyOrRest(view: EpochView, atts: seq<Attestation>, v: Validator)
    requires atts != []
    ensures (exists att <- atts :: Attests(view, att, v))
       <==> Attests(view, atts[0], v) || exists att <- atts[1..] :: Attests(view, att, v)
  {
    assert atts == [atts[0]] + atts[1..];
  }

  /** Some attestation of the list holds a vote of `v` exactly when a first one does; that is the one read. */
  lemma {:induction false} FirstVoteIsFirst(view: EpochView, atts: seq<Attestation>, v: Validator)
    ensures FirstVote(view, atts, v).Some? <==> exists att <- atts :: Attests(view, att, v)
    ensures FirstVote(view, atts, v).Some? ==>
              exists i: nat :: IsFirst(view, atts, v, i) && FirstVote(view, atts, v).value == atts[i].data
  {
    if atts != [] {
      AnyOrRest(view, atts, v);
      CarriesIffAttests(view, atts[0], v);
      if Attests(view, atts[0], v) {
        assert IsFirst(view, atts, v, 0);
      } else {
        FirstVoteIsFirst(view, atts[1..], v);
        if FirstVote(view, atts, v).Some? {
          var i: nat :| IsFirst(view, atts[1..], v, i) && FirstVote(view, atts, v).value == atts[1..][i].data;
          FirstOfRest(view, atts, v, i);
        }
      }
    }
  }

  // ---- Committee resolution ----

  /** Committees in order, each starting where the previous one ends, covering exactly the seats. */
  ghost predicate Tiles(placed: seq<AssignedCommittee>, seats: seq<Validator>) {
    if placed == [] then seats == [] else
      var last := placed[|placed| - 1];
      && last.bitOffset + |last.validators| == |seats|
      && seats[last.bitOffset..] == last.validators
      && Tiles(placed[..|placed| - 1], seats[..last.bitOffset])
  }

  /** First bit past the first `k` committees. */
  ghost function TileEnd(placed: seq<AssignedCommittee>, k: nat): nat
    requires k <= |placed|
  {
    if k == 0 then 0 else placed[k - 1].bitOffset + |placed[k - 1].validators|
  }

  /** Every committee's bits are in range, hold exactly its members, and start where the last one ended. */
  lemma {:induction false} TileBounds(placed: seq<AssignedCommittee>, seats: seq<Validator>, k: nat)
    requires Tiles(placed, seats) && k < |placed|
    ensures placed[k].bitOffset == TileEnd(placed, k)
    ensures TileEnd(placed, k + 1) <= |seats| == TileEnd(placed, |placed|)
    ensures seats[placed[k].bitOffset..TileEnd(placed, k + 1)] == placed[k].validators
  {
    var n := |placed| - 1;
    var last := placed[n];
    if k < n {
      TileBounds(placed[..n], seats[..last.bitOffset], k);
      assert seats[placed[k].bitOffset..TileEnd(placed, k + 1)]
          == seats[..last.bitOffset][placed[k].bitOffset..TileEnd(placed, k + 1)];
    } else if n > 0 {
      TileBounds(placed[..n], seats[..last.bitOffset], n - 1);
    }
  }

  /** Every bit belongs to a committee. */
  lemma {:induction false} TileAt(placed: seq<AssignedCommittee>, seats: seq<Validator>, i: nat) returns (k: nat)
    requires Tiles(placed, seats) && i < |seats|
    ensures k < |placed| && placed[k].bitOffset <= i < TileEnd(placed, k + 1)
  {
    var n := |placed| - 1;
    if i < placed[n].bitOffset {
      k := TileAt(placed[..n], seats[..placed[n].bitOffset], i);
    } else {
      k := n;
    }
  }

  function KeyOf(c: Committee): (Slot, nat) {
    (c.slot, c.index)
  }

  /** No later committee of the first `n` has the key of the `k`-th. */
  predicate Stands(committees: seq<Committee>, k: nat, n: nat)
    requires k < n <= |committees|
  {
    forall j :: k < j < n ==> KeyOf(committees[j]) != KeyOf(committees[k])
  }

  predicate HasKey(committees: seq<Committee>, key: (Slot, nat), n: nat)
    requires n <= |committees|
  {
    exists k :: 0 <= k < n && KeyOf(committees[k]) == key
  }

  lemma HasKeyStep(committees: seq<Committee>, key: (Slot, nat), n: nat)
    requires n < |committees|
    ensures HasKey(committees, key, n + 1) <==> HasKey(committees, key, n) || KeyOf(committees[n]) == key
  {
  }

  /** Keyed by slot and index; a repeated key keeps its last committee. */
  method BuildCommitteeMap(committees: seq<Committee>) returns (result: CommitteeMap)
    ensures forall key :: key in result <==> HasKey(committees, key, |committees|)
    ensures forall k :: 0 <= k < |committees| && Stands(committees, k, |committees|) ==>
              KeyOf(committees[k]) in result && result[KeyOf(committees[k])] == committees[k].validators
  {
    result := map[];
    for i := 0 to |committees|
      invariant forall key :: key in result <==> HasKey(committees, key, i)
      invariant forall k :: 0 <= k < i && Stands(committees, k, i) ==>
                  KeyOf(committees[k]) in result && result[KeyOf(committees[k])] == committees[k].validators
    {
      ghost var before := result;
      result := result[KeyOf(committees[i]) := committees[i].validators];
      forall key ensures key in result <==> HasKey(committees, key, i + 1) {
        HasKeyStep(committees, key, i);
      }
      forall k | 0 <= k < i && Stands(committees, k, i + 1)
        ensures KeyOf(committees[k]) in result && result[KeyOf(committees[k])] == committees[k].validators
      {
        assert Stands(committees, k, i);
        assert KeyOf(committees[i]) != KeyOf(committees[k]);
      }
    }
  }

  method ResolvePreElectra(spec: Spec, committees: CommitteeMap, att: Attestation, bits: seq<bool>)
    returns (r: Result<seq<AssignedCommittee>>)
    requires att.PreElectra? && BitlistOf(att.aggregationBits) == Some(bits)
    ensures r.Ok? <==> BallotOf(spec, committees, att).Some?
    ensures r.Ok? ==> Tiles(r.value, BallotOf(spec, committees, att).value.seats)
  {
    var key := (att.data.slot, att.data.index);
    if key !in committees || |bits| != |committees[key]| {
      return Err(InconsistentBeaconData);
    }
    return Ok([AssignedCommittee(att.data.index, committees[key], 0)]);
  }

  method ResolveElectra(spec: Spec, committees: CommitteeMap, att: Attestation, bits: seq<bool>)
    returns (r: Result<seq<AssignedCommittee>>)
    requires att.Electra? && BitlistOf(att.aggregationBits) == Some(bits)
    ensures r.Ok? <==> BallotOf(spec, committees, att).Some?
    ensures r.Ok? ==> Tiles(r.value, BallotOf(spec, committees, att).value.seats)
  {
    if att.data.index != 0 {
      return Err(InconsistentBeaconData);
    }
    var selected := DecodeBitvector(att.committeeBits);
    if |selected| != spec.maxCommitteesPerSlot {
      return Err(InconsistentBeaconData);
    }
    var tiles := PlaceSelected(committees, att.data.slot, selected);
    if tiles.None? {
      return Err(InconsistentBeaconData);
    }
    var (placed, bitOffset) := tiles.value;
    AllPlaced(spec, committees, att, bits, selected, placed, bitOffset);
    if placed == [] || |bits| != bitOffset {
      return Err(InconsistentBeaconData);
    }
    return Ok(placed);
  }

  /** The selected committees one after the other, if all of them are known. */
  method PlaceSelected(committees: CommitteeMap, slot: Slot, selected: seq<bool>)
    returns (tiles: Option<(seq<AssignedCommittee>, nat)>)
    ensures tiles.Some? <==> forall k <- SetIndices(selected) :: (slot, k) in committees
    ensures tiles.Some? ==> PlacedBelow(committees, slot, selected, |selected|, tiles.value.0, tiles.value.1)
  {
    var placed: seq<AssignedCommittee> := [];
    var bitOffset: nat := 0;
    for i := 0 to |selected|
      invariant PlacedBelow(committees, slot, selected, i, placed, bitOffset)
    {
      if !selected[i] {
        PlacedSkip(committees, slot, selected, i, placed, bitOffset);
      } else {
        if (slot, i) !in committees {
          assert i in SetIndices(selected);
          return None;
        }
        PlacedNext(committees, slot, selected, i, placed, bitOffset);
        var committee := committees[(slot, i)];
        placed := placed + [AssignedCommittee(i, committee, bitOffset)];
        bitOffset := bitOffset + |committee|;
      }
    }
    assert selected[..|selected|] == selected;
    return Some((placed, bitOffset));
  }

  /** The committees selected below `n` are placed one after the other. */
  ghost predicate PlacedBelow(
    committees: CommitteeMap, slot: Slot, selected: seq<bool>, n: nat, placed: seq<AssignedCommittee>, bitOffset: nat)
    requires n <= |selected|
  {
    var chosen := SetIndices(selected[..n]);
    && (forall k <- chosen :: (slot, k) in committees)
    && Tiles(placed, Seats(committees, slot, chosen))
    && bitOffset == |Seats(committees, slot, chosen)|
    && (placed == [] <==> chosen == [])
  }

  lemma PlacedSkip(
    committees: CommitteeMap, slot: Slot, selected: seq<bool>, n: nat, placed: seq<AssignedCommittee>, bitOffset: nat)
    requires n < |selected| && PlacedBelow(committees, slot, selected, n, placed, bitOffset) && !selected[n]
    ensures PlacedBelow(committees, slot, selected, n + 1, placed, bitOffset)
  {
    assert selected[..n + 1][..n] == selected[..n];
    assert SetIndices(selected[..n + 1]) == SetIndices(selected[..n]);
  }

  lemma PlacedNext(
    committees: CommitteeMap, slot: Slot, selected: seq<bool>, n: nat, placed: seq<AssignedCommittee>, bitOffset: nat)
    requires n < |selected| && PlacedBelow(committees, slot, selected, n, placed, bitOffset)
    requires selected[n] && (slot, n) in committees
    ensures var committee := committees[(slot, n)];
      PlacedBelow(
        committees, slot, selected, n + 1, placed + [AssignedCommittee(n, committee, bitOffset)],
          bitOffset + |committee|)
  {
    var chosen := SetIndices(selected[..n]);
    assert selected[..n + 1][..n] == selected[..n];
    assert SetIndices(selected[..n + 1]) == chosen + [n];
    SeatsSnoc(committees, slot, chosen, n);
    TilesSnoc(placed, Seats(committees, slot, chosen), n, committees[(slot, n)]);
  }

  /** A ballot exists exactly when some committee was selected and the seats are as many as the bits. */
  lemma AllPlaced(
    spec: Spec, committees: CommitteeMap, att: Attestation, bits: seq<bool>, selected: seq<bool>,
    placed: seq<AssignedCommittee>, bitOffset: nat)
    requires att.Electra? && BitlistOf(att.aggregationBits) == Some(bits) && selected == BitvectorOf(att.committeeBits)
    requires att.data.index == 0 && |selected| == spec.maxCommitteesPerSlot
    requires PlacedBelow(committees, att.data.slot, selected, |selected|, placed, bitOffset)
    ensures BallotOf(spec, committees, att).Some? <==> placed != [] && |bits| == bitOffset
    ensures BallotOf(spec, committees, att).Some? ==> Tiles(placed, BallotOf(spec, committees, att).value.seats)
  {
    assert selected[..|selected|] == selected;
  }

  lemma SeatsSnoc(committees: CommitteeMap, slot: Slot, indices: seq<nat>, last: nat)
    requires (forall k <- indices :: (slot, k) in committees) && (slot, last) in committees
    ensures forall k <- indices + [last] :: (slot, k) in committees
    ensures Seats(committees, slot, indices + [last]) == Seats(committees, slot, indices) + committees[(slot, last)]
  {
    assert (indices + [last])[..|indices|] == indices;
  }

  lemma TilesSnoc(placed: seq<AssignedCommittee>, seats: seq<Validator>, index: nat, committee: seq<Validator>)
    requires Tiles(placed, seats)
    ensures Tiles(placed + [AssignedCommittee(index, committee, |seats|)], seats + committee)
  {
    var more := placed + [AssignedCommittee(index, committee, |seats|)];
    assert more[..|placed|] == placed && (seats + committee)[..|seats|] == seats;
  }

  // ---- Recording inclusions ----

  /** Existing entries win: a validator's earliest recorded inclusion is never replaced. */
  function Recorded(inclusions: map<Validator, Inclusion>, voters: set<Validator>, inclusion: Inclusion)
    : map<Validator, Inclusion>
  {
    map v | v in inclusions.Keys + voters :: if v in inclusions then inclusions[v] else inclusion
  }

  function VotersBelow(ballot: Ballot, limit: nat, scan: set<Validator>): set<Validator>
    requires limit <= |ballot.seats|
  {
    set i | 0 <= i < limit && ballot.bits[i] && ballot.seats[i] in scan :: ballot.seats[i]
  }

  /** One more seat: its holder is recorded if it votes, is scanned and is not there yet. */
  lemma OneMoreSeat(
    ballot: Ballot, bit: nat, scan: set<Validator>, inclusion: Inclusion, before: map<Validator, Inclusion>)
    requires bit < |ballot.seats|
    ensures var (now, v) := (Recorded(before, VotersBelow(ballot, bit, scan), inclusion), ballot.seats[bit]);
      Recorded(before, VotersBelow(ballot, bit + 1, scan), inclusion)
      == if v !in scan || !ballot.bits[bit] || v in now then now else now[v := inclusion]
  {
    var (voters, v) := (VotersBelow(ballot, bit, scan), ballot.seats[bit]);
    assert VotersBelow(ballot, bit + 1, scan) == if v !in scan || !ballot.bits[bit] then voters else voters + {v};
  }

  lemma SeatOfMember(seats: seq<Validator>, offset: nat, members: seq<Validator>, pos: nat)
    requires pos < |members| && offset + |members| <= |seats| && seats[offset..offset + |members|] == members
    ensures seats[offset + pos] == members[pos]
  {
    assert seats[offset + pos] == seats[offset..offset + |members|][pos];
  }

  /** A scanned member whose bit is set is recorded, unless it already is. */
  function WithMember(
    v: Validator, bit: bool, scan: set<Validator>, inclusion: Inclusion, inclusions: map<Validator, Inclusion>)
    : map<Validator, Inclusion>
  {
    if v !in scan || !bit || v in inclusions then inclusions else inclusions[v := inclusion]
  }

  lemma MemberRecorded(
    placed: AssignedCommittee, ballot: Ballot, pos: nat, scan: set<Validator>, inclusion: Inclusion,
    before: map<Validator, Inclusion>, now: map<Validator, Inclusion>)
    requires pos < |placed.validators| && placed.bitOffset + |placed.validators| <= |ballot.seats|
    requires ballot.seats[placed.bitOffset..placed.bitOffset + |placed.validators|] == placed.validators
    requires now == Recorded(before, VotersBelow(ballot, placed.bitOffset + pos, scan), inclusion)
    ensures WithMember(placed.validators[pos], ballot.bits[placed.bitOffset + pos], scan, inclusion, now)
         == Recorded(before, VotersBelow(ballot, placed.bitOffset + pos + 1, scan), inclusion)
  {
    SeatOfMember(ballot.seats, placed.bitOffset, placed.validators, pos);
    OneMoreSeat(ballot, placed.bitOffset + pos, scan, inclusion, before);
  }

  method RecordCommitteeInclusions(
    placed: AssignedCommittee, ghost ballot: Ballot, bits: seq<bool>, scan: set<Validator>,
    inclusion: Inclusion, inclusions: map<Validator, Inclusion>, ghost before: map<Validator, Inclusion>)
    returns (result: map<Validator, Inclusion>)
    requires bits == ballot.bits && placed.bitOffset + |placed.validators| <= |bits|
    requires ballot.seats[placed.bitOffset..placed.bitOffset + |placed.validators|] == placed.validators
    requires inclusions == Recorded(before, VotersBelow(ballot, placed.bitOffset, scan), inclusion)
    ensures result == Recorded(before, VotersBelow(ballot, placed.bitOffset + |placed.validators|, scan), inclusion)
  {
    result := inclusions;
    for pos := 0 to |placed.validators|
      invariant result == Recorded(before, VotersBelow(ballot, placed.bitOffset + pos, scan), inclusion)
    {
      var v, bit := placed.validators[pos], bits[placed.bitOffset + pos];
      MemberRecorded(placed, ballot, pos, scan, inclusion, before, result);
      ghost var next := Recorded(before, VotersBelow(ballot, placed.bitOffset + pos + 1, scan), inclusion);
      assert next == WithMember(v, bit, scan, inclusion, result);
      if v !in scan || !bit {
        continue;
      }
      if v in result {
        continue;
      }
      result := result[v := inclusion];
    }
  }

  function VoteCorrectness(data: AttestationData, ctx: VoteContext): VoteMarks
    requires data.slot in ctx.blockRoots
  {
    VoteMarks(
      data.headRoot == ctx.blockRoots[data.slot],
      data.target.epoch == ctx.targetEpoch && data.target.root == ctx.targetRoot,
      ctx.source.None? || data.source == ctx.source.value)
  }

  /** The record written for a vote found in the block at `slot`. */
  function InclusionOf(data: AttestationData, slot: Slot, ctx: VoteContext): Inclusion
    requires data.slot <= slot && data.slot in ctx.blockRoots
  {
    Inclusion(slot, slot - data.slot, VoteCorrectness(data, ctx))
  }

  /** The early exit: does any selected committee hold a set bit of a scanned validator? */
  predicate AnyScanned(placed: seq<AssignedCommittee>, bits: seq<bool>, scan: set<Validator>)
    requires forall c <- placed :: c.bitOffset + |c.validators| <= |bits|
  {
    exists k | 0 <= k < |placed| :: CommitteeScanned(placed[k], bits, scan)
  }

  predicate CommitteeScanned(c: AssignedCommittee, bits: seq<bool>, scan: set<Validator>)
    requires c.bitOffset + |c.validators| <= |bits|
  {
    exists pos | 0 <= pos < |c.validators| :: c.validators[pos] in scan && bits[c.bitOffset + pos]
  }

  lemma AnyScannedIffVoters(placed: seq<AssignedCommittee>, ballot: Ballot, scan: set<Validator>)
    requires Tiles(placed, ballot.seats)
    ensures forall c <- placed :: c.bitOffset + |c.validators| <= |ballot.bits|
    ensures AnyScanned(placed, ballot.bits, scan) <==> Attesters(ballot) * scan != {}
  {
    forall k | 0 <= k < |placed| ensures placed[k].bitOffset + |placed[k].validators| <= |ballot.bits| {
      TileBounds(placed, ballot.seats, k);
    }
    if AnyScanned(placed, ballot.bits, scan) {
      ScannedIsVoter(placed, ballot, scan);
    }
    if v :| v in Attesters(ballot) * scan {
      VoterIsScanned(placed, ballot, scan, v);
    }
  }

  lemma ScannedIsVoter(placed: seq<AssignedCommittee>, ballot: Ballot, scan: set<Validator>)
    requires Tiles(placed, ballot.seats)
    requires forall c <- placed :: c.bitOffset + |c.validators| <= |ballot.bits|
    requires AnyScanned(placed, ballot.bits, scan)
    ensures Attesters(ballot) * scan != {}
  {
    var k :| 0 <= k < |placed| && CommitteeScanned(placed[k], ballot.bits, scan);
    var c := placed[k];
    var pos :| 0 <= pos < |c.validators| && c.validators[pos] in scan && ballot.bits[c.bitOffset + pos];
    TileBounds(placed, ballot.seats, k);
    assert ballot.seats[c.bitOffset + pos] == c.validators[pos];
    assert c.validators[pos] in Attesters(ballot) * scan;
  }

  lemma VoterIsScanned(placed: seq<AssignedCommittee>, ballot: Ballot, scan: set<Validator>, v: Validator)
    requires Tiles(placed, ballot.seats)
    requires forall c <- placed :: c.bitOffset + |c.validators| <= |ballot.bits|
    requires v in Attesters(ballot) * scan
    ensures AnyScanned(placed, ballot.bits, scan)
  {
    var i :| 0 <= i < |ballot.seats| && ballot.bits[i] && ballot.seats[i] == v;
    var k := TileAt(placed, ballot.seats, i);
    TileBounds(placed, ballot.seats, k);
    var c := placed[k];
    assert c.validators[i - c.bitOffset] == v && ballot.bits[c.bitOffset + (i - c.bitOffset)];
    assert CommitteeScanned(c, ballot.bits, scan);
  }

  method ProcessResolvedAttestation(
    data: AttestationData, ghost ballot: Ballot, bits: seq<bool>, placed: seq<AssignedCommittee>,
    slot: Slot, scan: set<Validator>, ctx: VoteContext, inclusions: map<Validator, Inclusion>)
    returns (r: Result<map<Validator, Inclusion>>)
    requires bits == ballot.bits && Tiles(placed, ballot.seats)
    ensures r.Ok? <==> data.slot <= slot && (Attesters(ballot) * scan != {} ==> data.slot in ctx.blockRoots)
    ensures r.Ok? ==>
              r.value == if Attesters(ballot) * scan == {} then inclusions
                         else Recorded(inclusions, Attesters(ballot) * scan, InclusionOf(data, slot, ctx))
  {
    if data.slot > slot {
      return Err(InconsistentBeaconData);
    }
    AnyScannedIffVoters(placed, ballot, scan);
    if !AnyScanned(placed, bits, scan) {
      return Ok(inclusions);
    }
    if data.slot !in ctx.blockRoots {
      return Err(InconsistentBeaconData);
    }
    var result := RecordAll(placed, ballot, bits, scan, InclusionOf(data, slot, ctx), inclusions);
    return Ok(result);
  }

  method RecordAll(
    placed: seq<AssignedCommittee>, ghost ballot: Ballot, bits: seq<bool>, scan: set<Validator>,
    inclusion: Inclusion, inclusions: map<Validator, Inclusion>)
    returns (result: map<Validator, Inclusion>)
    requires bits == ballot.bits && Tiles(placed, ballot.seats)
    ensures result == Recorded(inclusions, Attesters(ballot) * scan, inclusion)
  {
    result := inclusions;
    assert VotersBelow(ballot, 0, scan) == {};
    if placed != [] {
      TileBounds(placed, ballot.seats, 0);
    }
    for k := 0 to |placed|
      invariant TileEnd(placed, k) <= |ballot.seats|
      invariant result == Recorded(inclusions, VotersBelow(ballot, TileEnd(placed, k), scan), inclusion)
    {
      TileBounds(placed, ballot.seats, k);
      result := RecordCommitteeInclusions(placed[k], ballot, bits, scan, inclusion, result, inclusions);
    }
    assert VotersBelow(ballot, |ballot.seats|, scan) == Attesters(ballot) * scan;
  }

  // ---- A whole block ----

  /** Does this attestation let the scan continue? Other epochs are skipped before anything is decoded. */
  predicate Acceptable(
    view: EpochView, att: Attestation, slot: Slot,
    scan: set<Validator>, ctx: VoteContext)
  {
    EpochOf(view.spec, att.data.slot) == view.epoch ==>
      && BallotOf(view.spec, view.committees, att).Some?
      && att.data.slot <= slot
      && (Voters(view, att, scan) != {} ==> att.data.slot in ctx.blockRoots)
  }

  /** Scanned validators whose vote for `epoch` this attestation carries. */
  function Voters(view: EpochView, att: Attestation, scan: set<Validator>): set<Validator> {
    set v | v in scan && CarriesVote(view, att, v)
  }

  method ProcessAttestation(
    view: EpochView, att: Attestation, slot: Slot,
    scan: set<Validator>, ctx: VoteContext, inclusions: map<Validator, Inclusion>)
    returns (r: Result<map<Validator, Inclusion>>)
    ensures r.Ok? <==> Acceptable(view, att, slot, scan, ctx)
    ensures r.Ok? ==>
              var voters := Voters(view, att, scan);
              r.value == if voters == {} then inclusions
                         else Recorded(inclusions, voters, InclusionOf(att.data, slot, ctx))
  {
    if EpochOf(view.spec, att.data.slot) != view.epoch {
      return Ok(inclusions);
    }
    var bits := DecodeBitlist(att.aggregationBits);
    if bits.Err? {
      return Err(bits.error);
    }
    var placed;
    match att {
      case PreElectra(_, _) => placed := ResolvePreElectra(view.spec, view.committees, att, bits.value);
      case Electra(_, _, _) => placed := ResolveElectra(view.spec, view.committees, att, bits.value);
    }
    if placed.Err? {
      return Err(placed.error);
    }
    ghost var ballot := BallotOf(view.spec, view.committees, att).value;
    assert Voters(view, att, scan) == Attesters(ballot) * scan;
    r := ProcessResolvedAttestation(att.data, ballot, bits.value, placed.value, slot, scan, ctx, inclusions);
  }

  ghost predicate Extractable(
    view: EpochView, atts: seq<Attestation>, slot: Slot,
    scan: set<Validator>, ctx: VoteContext)
  {
    forall att <- atts :: Acceptable(view, att, slot, scan, ctx)
  }

  /** After a block: earlier entries stay; each scanned validator the block votes for enters by its first vote. */
  ghost predicate Extracted(
    view: EpochView, atts: seq<Attestation>, slot: Slot,
    scan: set<Validator>, ctx: VoteContext, before: map<Validator, Inclusion>, after: map<Validator, Inclusion>)
  {
    forall v :: Entry(before, v).Or(if v in scan then FirstInclusion(view, atts, slot, ctx, v) else None)
                == Entry(after, v)
  }

  function Entry(inclusions: map<Validator, Inclusion>, v: Validator): Option<Inclusion> {
    if v in inclusions then Some(inclusions[v]) else None
  }

  /** The record of the first vote of `v` in the block at `slot`. */
  ghost function FirstInclusion(
    view: EpochView, atts: seq<Attestation>, slot: Slot, ctx: VoteContext, v: Validator)
    : Option<Inclusion>
  {
    match FirstVote(view, atts, v)
    case None => None
    case Some(vote) =>
      if vote.slot <= slot && vote.slot in ctx.blockRoots then Some(InclusionOf(vote, slot, ctx)) else None
  }

  /** A block that lets the scan continue records every scanned validator it votes for. */
  lemma VotesAreRecorded(
    view: EpochView, atts: seq<Attestation>, slot: Slot, scan: set<Validator>, ctx: VoteContext, v: Validator)
    requires Extractable(view, atts, slot, scan, ctx) && v in scan
    ensures FirstInclusion(view, atts, slot, ctx, v).Some? <==> FirstVote(view, atts, v).Some?
  {
    FirstVoteFacts(view, atts, v);
    var vote := FirstVote(view, atts, v);
    if vote.Some? {
      var att :| att in atts && CarriesVote(view, att, v) && vote.value == att.data;
      assert v in Voters(view, att, scan);
      assert Acceptable(view, att, slot, scan, ctx);
    }
  }

  lemma FirstInclusionSnoc(
    view: EpochView, atts: seq<Attestation>, att: Attestation, slot: Slot,
    scan: set<Validator>, ctx: VoteContext, v: Validator)
    requires Acceptable(view, att, slot, scan, ctx)
    requires Extractable(view, atts, slot, scan, ctx)
    requires v in scan
    ensures FirstInclusion(view, atts + [att], slot, ctx, v) ==
            FirstInclusion(view, atts, slot, ctx, v).Or(
              if v in Voters(view, att, scan) then Some(InclusionOf(att.data, slot, ctx)) else None)
  {
    FirstVoteSnoc(view, atts, att, v);
    FirstVoteFacts(view, atts, v);
    var vote := FirstVote(view, atts, v);
    if vote.Some? {
      var a :| a in atts && CarriesVote(view, a, v) && vote.value == a.data;
      assert v in Voters(view, a, scan);
      assert Acceptable(view, a, slot, scan, ctx);
    }
  }

  lemma ExtractedStep(
    view: EpochView, atts: seq<Attestation>, att: Attestation, slot: Slot,
    scan: set<Validator>, ctx: VoteContext, before: map<Validator, Inclusion>,
    middle: map<Validator, Inclusion>, after: map<Validator, Inclusion>)
    requires Acceptable(view, att, slot, scan, ctx)
    requires Extractable(view, atts, slot, scan, ctx)
    requires Extracted(view, atts, slot, scan, ctx, before, middle)
    requires var voters := Voters(view, att, scan);
             after == if voters == {} then middle else Recorded(middle, voters, InclusionOf(att.data, slot, ctx))
    ensures Extracted(view, atts + [att], slot, scan, ctx, before, after)
  {
    var voters := Voters(view, att, scan);
    forall v
      ensures Entry(before, v).Or(if v in scan then FirstInclusion(view, atts + [att], slot, ctx, v) else None)
           == Entry(after, v)
    {
      if v in scan {
        FirstInclusionSnoc(view, atts, att, slot, scan, ctx, v);
      }
      assert Entry(after, v) == Entry(middle, v).Or(if v in voters then Some(InclusionOf(att.data, slot, ctx))
          else None);
    }
  }

  lemma {:induction false} FirstVoteSnoc(
    view: EpochView, atts: seq<Attestation>, last: Attestation, v: Validator)
    ensures FirstVote(view, atts + [last], v) ==
            FirstVote(view, atts, v).Or(
              if CarriesVote(view, last, v) then Some(last.data) else None)
  {
    if atts == [] {
      assert (atts + [last])[1..] == [];
    } else {
      assert (atts + [last])[1..] == atts[1..] + [last];
      FirstVoteSnoc(view, atts[1..], last, v);
    }
  }

  /** An attestation of the epoch stops the scan unless it is readable, not from the future, and its slot has a root. */
  predicate Readable(view: EpochView, att: Attestation, slot: Slot, scan: set<Validator>, ctx: VoteContext) {
    EpochOf(view.spec, att.data.slot) == view.epoch ==>
      && WellEncoded(view.spec, view.committees, att) && att.data.slot <= slot
      && ((exists v <- scan :: v in AttestingSet(view.spec, view.committees, att)) ==> att.data.slot in ctx.blockRoots)
  }

  lemma AcceptableIffReadable(view: EpochView, att: Attestation, slot: Slot, scan: set<Validator>, ctx: VoteContext)
    ensures Acceptable(view, att, slot, scan, ctx) <==> Readable(view, att, slot, scan, ctx)
  {
    AttestersMatchSpecification(view.spec, view.committees, att);
    assert forall v :: v in Voters(view, att, scan) <==> v in scan && CarriesVote(view, att, v);
  }

  /** What the block adds to the records: each scanned validator that attests in it and was not there yet. */
  ghost predicate RecordsVotes(
    view: EpochView, atts: seq<Attestation>, scan: set<Validator>,
    before: map<Validator, Inclusion>, after: map<Validator, Inclusion>)
  {
    && (forall v :: v in after <==> v in before || (v in scan && exists att <- atts :: Attests(view, att, v)))
    && (forall v <- before :: v in after && after[v] == before[v])
  }

  /** A new record is of the first attestation of the block in which its validator attests. */
  ghost predicate RecordsFirst(
    view: EpochView, atts: seq<Attestation>, slot: Slot, ctx: VoteContext,
    before: map<Validator, Inclusion>, after: map<Validator, Inclusion>)
  {
    forall v <- after :: v !in before ==>
      exists i: nat :: IsFirst(view, atts, v, i) && Records(atts[i].data, slot, ctx, after[v])
  }

  predicate Records(data: AttestationData, slot: Slot, ctx: VoteContext, record: Inclusion) {
    && data.slot <= slot && data.slot in ctx.blockRoots
    && record.slot == slot && record.delay == slot - data.slot
    && record.marks == VoteCorrectness(data, ctx)
  }

  lemma ExtractedRecordsVotes(
    view: EpochView, atts: seq<Attestation>, slot: Slot, scan: set<Validator>, ctx: VoteContext,
    before: map<Validator, Inclusion>, after: map<Validator, Inclusion>)
    requires Extractable(view, atts, slot, scan, ctx) && Extracted(view, atts, slot, scan, ctx, before, after)
    ensures RecordsVotes(view, atts, scan, before, after)
  {
    forall v
      ensures v in after <==> v in before || (v in scan && exists att <- atts :: Attests(view, att, v))
      ensures v in before ==> v in after && after[v] == before[v]
    {
      assert Entry(before, v).Or(if v in scan then FirstInclusion(view, atts, slot, ctx, v) else None)
          == Entry(after, v);
      if v in scan {
        VotesAreRecorded(view, atts, slot, scan, ctx, v);
        FirstVoteIsFirst(view, atts, v);
      }
    }
  }

  lemma ExtractedRecordsFirst(
    view: EpochView, atts: seq<Attestation>, slot: Slot, scan: set<Validator>, ctx: VoteContext,
    before: map<Validator, Inclusion>, after: map<Validator, Inclusion>)
    requires Extracted(view, atts, slot, scan, ctx, before, after)
    ensures RecordsFirst(view, atts, slot, ctx, before, after)
  {
    forall v <- after | v !in before
      ensures exists i: nat :: IsFirst(view, atts, v, i) && Records(atts[i].data, slot, ctx, after[v])
    {
      assert Entry(before, v).Or(if v in scan then FirstInclusion(view, atts, slot, ctx, v) else None)
          == Entry(after, v);
      FirstVoteIsFirst(view, atts, v);
      var i: nat :| IsFirst(view, atts, v, i) && FirstVote(view, atts, v).value == atts[i].data;
      assert Records(atts[i].data, slot, ctx, after[v]);
    }
  }

  lemma ExtractableIffReadable(
    view: EpochView, atts: seq<Attestation>, slot: Slot, scan: set<Validator>, ctx: VoteContext)
    ensures Extractable(view, atts, slot, scan, ctx) <==> forall att <- atts :: Readable(view, att, slot, scan, ctx)
  {
    forall att <- atts {
      AcceptableIffReadable(view, att, slot, scan, ctx);
    }
  }

  method ExtractInclusions(
    view: EpochView, atts: seq<Attestation>, slot: Slot,
    scan: set<Validator>, ctx: VoteContext, inclusions: map<Validator, Inclusion>)
    returns (r: Result<map<Validator, Inclusion>>)
    ensures r.Ok? <==> Extractable(view, atts, slot, scan, ctx)
    ensures r.Ok? ==> Extracted(view, atts, slot, scan, ctx, inclusions, r.value)
    ensures r.Ok? <==> forall att <- atts :: Readable(view, att, slot, scan, ctx)
    ensures r.Ok? ==> RecordsVotes(view, atts, scan, inclusions, r.value)
    ensures r.Ok? ==> RecordsFirst(view, atts, slot, ctx, inclusions, r.value)
  {
    ExtractableIffReadable(view, atts, slot, scan, ctx);
    r := ExtractEach(view, atts, slot, scan, ctx, inclusions);
    if r.Ok? {
      ExtractedRecordsVotes(view, atts, slot, scan, ctx, inclusions, r.value);
      ExtractedRecordsFirst(view, atts, slot, scan, ctx, inclusions, r.value);
    }
  }

  method ExtractEach(
    view: EpochView, atts: seq<Attestation>, slot: Slot,
    scan: set<Validator>, ctx: VoteContext, inclusions: map<Validator, Inclusion>)
    returns (r: Result<map<Validator, Inclusion>>)
    ensures r.Ok? <==> Extractable(view, atts, slot, scan, ctx)
    ensures r.Ok? ==> Extracted(view, atts, slot, scan, ctx, inclusions, r.value)
  {
    var result := inclusions;
    for i := 0 to |atts|
      invariant Extractable(view, atts[..i], slot, scan, ctx)
      invariant Extracted(view, atts[..i], slot, scan, ctx, inclusions, result)
    {
      assert atts[..i + 1] == atts[..i] + [atts[i]];
      var step := ProcessAttestation(view, atts[i], slot, scan, ctx, result);
      if step.Err? {
        return Err(step.error);
      }
      ExtractedStep(view, atts[..i], atts[i], slot, scan, ctx, inclusions, result, step.value);
      result := step.value;
    }
    assert atts[..|atts|] == atts;
    return Ok(result);
  }
}
