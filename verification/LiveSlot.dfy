/**
 * One block's live attestation scan over its candidate epochs (src/scanner/attestations/mod.rs:132-196),
 * the assignments seeded before it (src/scanner/mod.rs:181-245), and what they leave in a duty row.
 */
module LiveSlot {
  import opened Wrappers
  import opened Chain
  import opened Attestations
  import opened Rows
  import opened Outcome
  import opened Tables
  import opened Store
  import opened LiveScan
  import Safety

  // ---- Which error is reported ----

  predicate Unavailable(error: Error) {
    error.BeaconDataUnavailable? || error.NotFound?
  }

  function Kept(first: Option<Error>, error: Error): Option<Error> {
    if first.None? || (Unavailable(first.value) && !Unavailable(error)) then Some(error) else first
  }

  function Reported(errors: seq<Error>): Option<Error> {
    if errors == [] then None else Kept(Reported(errors[..|errors| - 1]), errors[|errors| - 1])
  }

  /** The first error that is not merely an unavailable input; failing that, the first error. */
  lemma {:induction false} ReportedIsWorst(errors: seq<Error>)
    ensures Reported(errors).None? <==> errors == []
    ensures Reported(errors).Some? ==>
      if forall e <- errors :: Unavailable(e) then Reported(errors).value == errors[0]
      else exists i :: 0 <= i < |errors| && Reported(errors).value == errors[i] && !Unavailable(errors[i])
                       && forall j :: 0 <= j < i ==> Unavailable(errors[j])
  {
    if errors != [] {
      var n := |errors| - 1;
      ReportedIsWorst(errors[..n]);
      assert errors == errors[..n] + [errors[n]];
      if forall e <- errors[..n] :: Unavailable(e) {
        assert forall j :: 0 <= j < n ==> errors[j] in errors[..n];
        assert n > 0 ==> errors[..n][0] == errors[0];
      } else {
        var i :| 0 <= i < n && Reported(errors[..n]).value == errors[..n][i] && !Unavailable(errors[..n][i])
                 && forall j :: 0 <= j < i ==> Unavailable(errors[..n][j]);
        assert errors[..n][i] == errors[i] && forall j :: 0 <= j < i ==> errors[..n][j] == errors[j];
      }
    }
  }

  function AsResult(first: Option<Error>): Result<()> {
    if first.Some? then Err(first.value) else Ok(())
  }

  // ---- One block ----

  /** The live look-back: slots from the start of the previous epoch up to the one before the block. */
  predicate InLookBack(spec: Spec, slot: Slot, attSlot: Slot) {
    EpochStart(spec, SaturatingSub(EpochOf(spec, slot), 1)) <= attSlot < slot
  }

  function CandidateEpochs(spec: Spec, slot: Slot, atts: seq<Attestation>): set<Epoch> {
    set att <- atts | InLookBack(spec, slot, att.data.slot) :: EpochOf(spec, att.data.slot)
  }

  /** Candidates are the block's epoch and the one before it. */
  lemma CandidatesAreRecent(spec: Spec, slot: Slot, atts: seq<Attestation>, epoch: Epoch)
    requires epoch in CandidateEpochs(spec, slot, atts)
    ensures SaturatingSub(EpochOf(spec, slot), 1) <= epoch <= EpochOf(spec, slot)
    ensures slot < EpochStart(spec, epoch + 2)
  {
    var att :| att in atts && InLookBack(spec, slot, att.data.slot) && EpochOf(spec, att.data.slot) == epoch;
    var first, current := SaturatingSub(EpochOf(spec, slot), 1), EpochOf(spec, slot);
    EpochOfBounds(spec, att.data.slot, first);
    EpochOfBounds(spec, slot, current);
    EpochOfBounds(spec, att.data.slot, current + 1);
    EpochOfBounds(spec, slot, epoch + 2);
  }

  /** Inside its inclusion window, an epoch that is not a candidate is not voted for by the block. */
  lemma OthersAreNotObserved(inputs: Inputs, chain: Canonical, k: Pair, slot: Slot)
    requires VotesPrecedeBlocks(chain) && slot in chain && slot < EpochStart(inputs.spec, k.1 + 2)
    requires k.1 !in CandidateEpochs(inputs.spec, slot, chain[slot].attestations)
    ensures Observation(inputs, chain, k, slot).None?
  {
    if Observation(inputs, chain, k, slot).Some? {
      var view := EpochView(inputs.spec, k.1, inputs.committees[k.1]);
      FirstVoteFacts(view, chain[slot].attestations, k.0);
      var att :| att in chain[slot].attestations && CarriesVote(view, att, k.0);
      var first := SaturatingSub(EpochOf(inputs.spec, slot), 1);
      EpochOfBounds(inputs.spec, slot, k.1 + 2);
      EpochOfBounds(inputs.spec, att.data.slot, first);
      assert InLookBack(inputs.spec, slot, att.data.slot);
    }
  }

  ghost predicate ScannedOrKept(
    inputs: Inputs, chain: Canonical, a: Tables, b: Tables, k: Pair, slot: Slot, finalized: bool)
  {
    || Lookup(b.attestations, k) == ScannedRow(inputs, chain, a, k, slot, finalized)
    || Lookup(b.attestations, k) == Lookup(a.attestations, k)
  }

  /** Epochs below `limit` have been scanned; `all`: every one of them succeeded. */
  ghost predicate ScannedBelow(
    inputs: Inputs, chain: Canonical, scan: set<Validator>, slot: Slot, finalized: bool, a: Tables, b: Tables,
    limit: Epoch, all: bool)
    requires slot in chain
  {
    && OnlyAttestations(a, b)
    && (forall k: Pair ::
          || k.0 !in scan || k !in inputs.duties || k.1 >= limit
          || k.1 !in CandidateEpochs(inputs.spec, slot, chain[slot].attestations)
          ==> Lookup(b.attestations, k) == Lookup(a.attestations, k))
    && (forall k <- inputs.duties :: ScannedOrKept(inputs, chain, a, b, k, slot, finalized))
    && (all ==> forall k <- inputs.duties ::
          k.0 in scan && k.1 in CandidateEpochs(inputs.spec, slot, chain[slot].attestations) && k.1 < limit ==>
          Lookup(b.attestations, k) == ScannedRow(inputs, chain, a, k, slot, finalized))
  }

  ghost predicate EpochScanned(
    inputs: Inputs, chain: Canonical, scan: set<Validator>, slot: Slot, finalized: bool, a: Tables, b: Tables,
    epoch: Epoch, ok: bool)
  {
    && OnlyAttestations(a, b)
    && (forall k: Pair :: k.1 != epoch || k.0 !in scan || k !in inputs.duties ==>
          Lookup(b.attestations, k) == Lookup(a.attestations, k))
    && (forall k <- inputs.duties :: k.0 in scan && k.1 == epoch ==>
          || Lookup(b.attestations, k) == ScannedRow(inputs, chain, a, k, slot, finalized)
          || (!ok && Lookup(b.attestations, k) == Lookup(a.attestations, k)))
  }

  lemma ScannedStep(
    inputs: Inputs, chain: Canonical, scan: set<Validator>, slot: Slot, finalized: bool, a: Tables, b: Tables,
    c: Tables,
    epoch: Epoch, all: bool, ok: bool)
    requires slot in chain
    requires ScannedBelow(inputs, chain, scan, slot, finalized, a, b, epoch, all)
    requires EpochScanned(inputs, chain, scan, slot, finalized, b, c, epoch, ok)
    requires epoch in CandidateEpochs(inputs.spec, slot, chain[slot].attestations)
    ensures ScannedBelow(inputs, chain, scan, slot, finalized, a, c, epoch + 1, all && ok)
  {
    forall k: Pair
      ensures k.0 !in scan || k !in inputs.duties || k.1 != epoch ==>
        Lookup(c.attestations, k) == Lookup(b.attestations, k)
      ensures k in inputs.duties && k.0 in scan && k.1 == epoch ==>
                || Lookup(c.attestations, k) == ScannedRow(inputs, chain, a, k, slot, finalized)
                || (!ok && Lookup(c.attestations, k) == Lookup(a.attestations, k))
    {
      if k in inputs.duties && k.0 in scan && k.1 == epoch {
        SameScan(inputs, chain, a, b, k, slot, finalized);
      }
    }
  }

  lemma ScannedSkip(
    inputs: Inputs, chain: Canonical, scan: set<Validator>, slot: Slot, finalized: bool, a: Tables, b: Tables,
    epoch: Epoch, all: bool)
    requires slot in chain
    requires ScannedBelow(inputs, chain, scan, slot, finalized, a, b, epoch, all)
    requires epoch !in CandidateEpochs(inputs.spec, slot, chain[slot].attestations)
    ensures ScannedBelow(inputs, chain, scan, slot, finalized, a, b, epoch + 1, all)
  {
  }

  /** A scan reads nothing but the row and whether its pair is complete. */
  lemma SameScan(inputs: Inputs, chain: Canonical, a: Tables, b: Tables, k: Pair, slot: Slot, finalized: bool)
    requires Lookup(a.attestations, k) == Lookup(b.attestations, k) && a.completed == b.completed
    ensures ScannedRow(inputs, chain, a, k, slot, finalized) == ScannedRow(inputs, chain, b, k, slot, finalized)
  {
  }

  /** Past its inclusion window a row is left alone. */
  lemma OldEpochsAreKept(
    inputs: Inputs, chain: Canonical, scan: set<Validator>, slot: Slot, finalized: bool, a: Tables, b: Tables,
    limit: Epoch, all: bool, k: Pair)
    requires slot in chain && ScannedBelow(inputs, chain, scan, slot, finalized, a, b, limit, all)
    requires slot >= EpochStart(inputs.spec, k.1 + 2)
    ensures Lookup(b.attestations, k) == Lookup(a.attestations, k)
  {
    if k.1 in CandidateEpochs(inputs.spec, slot, chain[slot].attestations) {
      CandidatesAreRecent(inputs.spec, slot, chain[slot].attestations, k.1);
    }
  }

  /** Success over all candidate epochs is success for every row in its window. */
  lemma CandidatesSuffice(
    inputs: Inputs, chain: Canonical, scan: set<Validator>, slot: Slot, finalized: bool, a: Tables, b: Tables, k: Pair)
    requires slot in chain && VotesPrecedeBlocks(chain)
    requires ScannedBelow(inputs, chain, scan, slot, finalized, a, b, EpochOf(inputs.spec, slot) + 1, true)
    requires k in inputs.duties && k.0 in scan && slot < EpochStart(inputs.spec, k.1 + 2)
    ensures Lookup(b.attestations, k) == ScannedRow(inputs, chain, a, k, slot, finalized)
  {
    if k.1 in CandidateEpochs(inputs.spec, slot, chain[slot].attestations) {
      CandidatesAreRecent(inputs.spec, slot, chain[slot].attestations, k.1);
    } else {
      OthersAreNotObserved(inputs, chain, k, slot);
    }
  }

  /** What a valid chain and its assignments guarantee. */
  ghost predicate WellFormedScan(inputs: Inputs, chain: Canonical) {
    WellAssigned(inputs) && VotesPrecedeBlocks(chain)
  }

  ghost predicate Sound(part: Inputs, whole: Inputs, chain: Canonical) {
    PartOfAnswers(part, whole) && WellFormedScan(whole, chain)
  }

  ghost predicate ReadsBelow(
    inputs: Inputs, scan: set<Validator>, slot: Slot, atts: seq<Attestation>, lo: Slot, limit: Epoch)
  {
    forall e <- CandidateEpochs(inputs.spec, slot, atts) :: e < limit ==> EpochReads(inputs, e, scan, slot, atts, lo)
  }

  lemma ReadsStep(
    inputs: Inputs, scan: set<Validator>, slot: Slot, atts: seq<Attestation>, lo: Slot, epoch: Epoch)
    ensures ReadsBelow(inputs, scan, slot, atts, lo, epoch + 1)
       <==> ReadsBelow(inputs, scan, slot, atts, lo, epoch)
            && (epoch in CandidateEpochs(inputs.spec, slot, atts) ==> EpochReads(inputs, epoch, scan, slot, atts, lo))
  {
  }

  lemma ReadsAll(inputs: Inputs, scan: set<Validator>, slot: Slot, atts: seq<Attestation>, lo: Slot)
    requires scan != {} && slot > 0
    ensures ReadsBelow(inputs, scan, slot, atts, lo, SaturatingSub(EpochOf(inputs.spec, slot), 1))
    ensures ReadsBelow(inputs, scan, slot, atts, lo, EpochOf(inputs.spec, slot) + 1)
       <==> BlockReads(inputs, scan, slot, atts, lo)
  {
    forall e | e in CandidateEpochs(inputs.spec, slot, atts)
      ensures SaturatingSub(EpochOf(inputs.spec, slot), 1) <= e <= EpochOf(inputs.spec, slot)
    {
      CandidatesAreRecent(inputs.spec, slot, atts, e);
    }
  }

  /** When the scan of a block succeeds: every candidate epoch reads, and there is nothing to read at genesis. */
  ghost predicate BlockReads(inputs: Inputs, scan: set<Validator>, slot: Slot, atts: seq<Attestation>, lo: Slot) {
    scan != {} && slot > 0 ==>
      forall e <- CandidateEpochs(inputs.spec, slot, atts) :: EpochReads(inputs, e, scan, slot, atts, lo)
  }

  /**
   * Every candidate epoch is scanned, also past failures. On success each row still in its inclusion
   * window has been brought up to date with the block: an answer that was missing would have failed.
   */
  method ScanLiveAttestationsInSlot(
    db: Database, inputs: Inputs, scan: set<Validator>, slot: Slot, atts: seq<Attestation>,
    roots: map<Slot, Root>, finalized: bool, ghost whole: Inputs, ghost chain: Canonical, ghost lo: Slot)
    returns (r: Result<()>, ghost failures: seq<Error>)
    requires db.spec == inputs.spec && Resolved(roots, chain, lo)
    requires slot in chain && atts == chain[slot].attestations
    modifies db
    ensures r == AsResult(Reported(failures))
    ensures r.Ok? <==> BlockReads(inputs, scan, slot, atts, lo)
    ensures OnlyAttestations(old(db.View()), db.View()) && Safety.AttestationsKeptIn(old(db.View()), db.View())
    ensures Sound(inputs, whole, chain) ==> forall k: Pair ::
              || k.0 !in scan || k !in whole.duties || slot >= EpochStart(whole.spec, k.1 + 2)
              ==> Lookup(db.View().attestations, k) == Lookup(old(db.View()).attestations, k)
    ensures Sound(inputs, whole, chain) ==>
      forall k <- whole.duties :: ScannedOrKept(whole, chain, old(db.View()), db.View(), k, slot, finalized)
    ensures Sound(inputs, whole, chain) && r.Ok? ==>
      forall k <- whole.duties :: k.0 in scan && slot < EpochStart(whole.spec, k.1 + 2) ==>
        Lookup(db.View().attestations, k) == ScannedRow(whole, chain, old(db.View()), k, slot, finalized)
  {
    if scan == {} {
      return Ok(()), [];
    }
    if slot == 0 {
      if VotesPrecedeBlocks(chain) {
        NothingAtGenesis(whole, chain);
      }
      return Ok(()), [];
    }
    ghost var t := db.View();
    ReadsAll(inputs, scan, slot, atts, lo);
    var error, errors := ScanCandidates(db, inputs, scan, slot, atts, roots, finalized, whole, chain, lo);
    ghost var limit := EpochOf(inputs.spec, slot) + 1;
    forall k: Pair | Assigned(inputs, whole) && slot >= EpochStart(whole.spec, k.1 + 2)
      ensures Lookup(db.View().attestations, k) == Lookup(t.attestations, k)
    {
      OldEpochsAreKept(whole, chain, scan, slot, finalized, t, db.View(), limit, error.None?, k);
    }
    if error.None? && Sound(inputs, whole, chain) {
      forall k | k in whole.duties && k.0 in scan && slot < EpochStart(whole.spec, k.1 + 2)
        ensures Lookup(db.View().attestations, k) == ScannedRow(whole, chain, t, k, slot, finalized)
      {
        CandidatesSuffice(whole, chain, scan, slot, finalized, t, db.View(), k);
      }
    }
    return AsResult(error), errors;
  }

  lemma NothingAtGenesis(inputs: Inputs, chain: Canonical)
    requires 0 in chain && VotesPrecedeBlocks(chain)
    ensures forall k: Pair :: Observation(inputs, chain, k, 0).None?
  {
    if chain[0].attestations != [] {
      assert chain[0].attestations[0] in chain[0].attestations;
    }
  }

  method ScanCandidates(
    db: Database, inputs: Inputs, scan: set<Validator>, slot: Slot, atts: seq<Attestation>,
    roots: map<Slot, Root>, finalized: bool, ghost whole: Inputs, ghost chain: Canonical, ghost lo: Slot)
    returns (error: Option<Error>, ghost failures: seq<Error>)
    requires db.spec == inputs.spec && Resolved(roots, chain, lo)
    requires slot in chain && slot > 0 && scan != {} && atts == chain[slot].attestations
    modifies db
    ensures error == Reported(failures)
    ensures Stage(
      inputs, whole, chain, scan, slot, lo, finalized, old(db.View()), db.View(), EpochOf(inputs.spec, slot) + 1,
      error.None?)
  {
    var candidates := CandidateEpochs(db.spec, slot, atts);
    var current := EpochOf(db.spec, slot);
    var first := SaturatingSub(current, 1);
    ghost var t := db.View();
    error, failures := None, [];
    StageFirst(inputs, whole, chain, scan, slot, lo, finalized, t);
    for epoch := first to current + 1
      invariant error == Reported(failures)
      invariant Stage(inputs, whole, chain, scan, slot, lo, finalized, t, db.View(), epoch, error.None?)
    {
      var scanned := Ok(());
      if epoch in candidates {
        scanned := ScanCandidate(db, inputs, epoch, scan, slot, atts, roots, finalized, whole, chain, lo, t,
          error.None?);
      } else {
        StageSkip(inputs, whole, chain, scan, slot, lo, finalized, t, db.View(), epoch, error.None?);
      }
      if scanned.Err? {
        error := Kept(error, scanned.error);
        assert (failures + [scanned.error])[..|failures|] == failures;
        failures := failures + [scanned.error];
      }
    }
  }

  /** The epochs below `limit` have been dealt with; `all`: without a failure. */
  ghost predicate Stage(
    inputs: Inputs, whole: Inputs, chain: Canonical, scan: set<Validator>, slot: Slot, lo: Slot, finalized: bool,
    t: Tables, now: Tables, limit: Epoch, all: bool)
    requires slot in chain
  {
    && OnlyAttestations(t, now) && Safety.AttestationsKeptIn(t, now)
    && (all <==> ReadsBelow(inputs, scan, slot, chain[slot].attestations, lo, limit))
    && (Assigned(inputs, whole) ==> ScannedBelow(whole, chain, scan, slot, finalized, t, now, limit, all))
  }

  lemma StageFirst(
    inputs: Inputs, whole: Inputs, chain: Canonical, scan: set<Validator>, slot: Slot, lo: Slot, finalized: bool,
    t: Tables)
    requires slot in chain && slot > 0 && scan != {}
    ensures Stage(
      inputs, whole, chain, scan, slot, lo, finalized, t, t, SaturatingSub(EpochOf(inputs.spec, slot), 1), true)
  {
    ReadsAll(inputs, scan, slot, chain[slot].attestations, lo);
    forall e | e in CandidateEpochs(inputs.spec, slot, chain[slot].attestations)
      ensures SaturatingSub(EpochOf(inputs.spec, slot), 1) <= e
    {
      CandidatesAreRecent(inputs.spec, slot, chain[slot].attestations, e);
    }
  }

  lemma StageSkip(
    inputs: Inputs, whole: Inputs, chain: Canonical, scan: set<Validator>, slot: Slot, lo: Slot, finalized: bool,
    t: Tables, now: Tables, epoch: Epoch, all: bool)
    requires slot in chain && Stage(inputs, whole, chain, scan, slot, lo, finalized, t, now, epoch, all)
    requires epoch !in CandidateEpochs(inputs.spec, slot, chain[slot].attestations)
    ensures Stage(inputs, whole, chain, scan, slot, lo, finalized, t, now, epoch + 1, all)
  {
    ReadsStep(inputs, scan, slot, chain[slot].attestations, lo, epoch);
    if Assigned(inputs, whole) {
      ScannedSkip(whole, chain, scan, slot, finalized, t, now, epoch, all);
    }
  }

  method ScanCandidate(
    db: Database, inputs: Inputs, epoch: Epoch, scan: set<Validator>, slot: Slot, atts: seq<Attestation>,
    roots: map<Slot, Root>, finalized: bool, ghost whole: Inputs, ghost chain: Canonical, ghost lo: Slot,
    ghost t: Tables, ghost all: bool)
    returns (r: Result<()>)
    requires db.spec == inputs.spec && Resolved(roots, chain, lo)
    requires slot in chain && slot > 0 && atts == chain[slot].attestations
    requires epoch in CandidateEpochs(inputs.spec, slot, atts)
    requires Stage(inputs, whole, chain, scan, slot, lo, finalized, t, db.View(), epoch, all)
    modifies db
    ensures Stage(inputs, whole, chain, scan, slot, lo, finalized, t, db.View(), epoch + 1, all && r.Ok?)
  {
    ghost var before := db.View();
    r := ScanLiveAttestationEpoch(db, inputs, epoch, scan, slot, atts, roots, finalized, whole, chain, lo);
    ghost var after := db.View();
    KeptTwice(t, before, after);
    ReadsStep(inputs, scan, slot, atts, lo, epoch);
    if Assigned(inputs, whole) {
      assert EpochScanned(whole, chain, scan, slot, finalized, before, after, epoch, r.Ok?);
      ScannedStep(whole, chain, scan, slot, finalized, t, before, after, epoch, all, r.Ok?);
    }
  }

  // ---- Seeding ----

  /** Exactly the expected validators, each once. */
  method ValidateRewardIndices(expected: set<Validator>, actual: seq<Validator>) returns (r: Result<()>)
    ensures r.Err? ==> r.error == InconsistentBeaconData
    ensures r.Ok? <==> (forall v :: v in actual <==> v in expected)
                       && (forall i, j :: 0 <= i < j < |actual| ==> actual[i] != actual[j])
  {
    var seen: set<Validator> := {};
    for i := 0 to |actual|
      invariant seen <= expected
      invariant forall v :: v in seen <==> v in actual[..i]
      invariant forall a, b :: 0 <= a < b < i ==> actual[a] != actual[b]
    {
      if actual[i] !in expected || actual[i] in seen {
        assert actual[i] in actual;
        if actual[i] in seen {
          var j :| 0 <= j < i && actual[j] == actual[i];
        }
        return Err(InconsistentBeaconData);
      }
      seen := seen + {actual[i]};
    }
    assert actual[..|actual|] == actual;
    if seen != expected {
      return Err(InconsistentBeaconData);
    }
    return Ok(());
  }

  /** One duty for each of the validators and no other. */
  ghost predicate OneEach(duties: seq<Duty>, validators: set<Validator>) {
    && (forall v <- validators :: exists d :: d in duties && d.validator == v)
    && (forall d <- duties :: d.validator in validators)
    && (forall i, j :: 0 <= i < j < |duties| ==> duties[i].validator != duties[j].validator)
  }

  lemma IndicesOfDuties(duties: seq<Duty>, indices: seq<Validator>, validators: set<Validator>)
    requires |indices| == |duties| && forall i :: 0 <= i < |duties| ==> indices[i] == duties[i].validator
    ensures OneEach(duties, validators)
       <==> (forall v :: v in indices <==> v in validators)
            && forall i, j :: 0 <= i < j < |indices| ==> indices[i] != indices[j]
  {
    forall v ensures v in indices <==> exists d :: d in duties && d.validator == v {
      if v in indices {
        var i :| 0 <= i < |indices| && indices[i] == v;
        assert duties[i] in duties;
      }
      if d :| d in duties && d.validator == v {
        var i :| 0 <= i < |duties| && duties[i] == d;
        assert indices[i] == v;
      }
    }
  }

  /** Pending assignments are written before any inclusion; a response that is not one duty each writes nothing. */
  method SeedLiveAttestationDuties(
    db: Database, epoch: Epoch, validators: set<Validator>, answer: Result<seq<Duty>>)
    returns (r: Result<()>)
    modifies db
    ensures r.Ok? <==> validators == {} || (answer.Ok? && OneEach(answer.value, validators))
    ensures r.Err? ==> r.error == if answer.Err? then answer.error else InconsistentBeaconData
    ensures OnlyAttestations(old(db.View()), db.View())
    ensures r.Err? ==> db.View() == old(db.View())
    ensures forall k: Pair :: k.1 != epoch || k.0 !in validators ==>
              Lookup(db.View().attestations, k) == Lookup(old(db.View()).attestations, k)
    ensures r.Ok? && validators != {} ==> answer.Ok? && forall v <- validators ::
              HasDuty(old(db.View()), answer.value, (v, epoch), Lookup(db.View().attestations, (v, epoch)))
  {
    if validators == {} {
      return Ok(());
    }
    var duties :- answer;
    var indices := seq(|duties|, i requires 0 <= i < |duties| => duties[i].validator);
    IndicesOfDuties(duties, indices, validators);
    var valid := ValidateRewardIndices(validators, indices);
    if valid.Err? {
      return valid;
    }
    ghost var t := db.View();
    for i := 0 to |duties|
      invariant OnlyAttestations(t, db.View())
      invariant forall k: Pair :: k.1 != epoch || k.0 !in indices[..i] ==>
        Lookup(db.View().attestations, k) == Lookup(t.attestations, k)
      invariant forall j :: 0 <= j < i ==>
                  Lookup(db.View().attestations, (duties[j].validator, epoch))
                      == Some(SeededFrom(t, (duties[j].validator, epoch), duties[j]))
    {
      assert indices[..i + 1] == indices[..i] + [indices[i]];
      forall j | 0 <= j < i ensures duties[j].validator != duties[i].validator {
        assert indices[j] != indices[i];
      }
      db.UpsertAttestationDuty(duties[i].validator, epoch, SeedWrite(AssignmentOf(duties[i])));
    }
    forall v | v in validators
      ensures exists d :: d in duties && d.validator == v
                          && Lookup(db.View().attestations, (v, epoch)) == Some(SeededFrom(t, (v, epoch), d))
    {
      assert v in indices;
      var j :| 0 <= j < |indices| && indices[j] == v;
      assert duties[j] in duties;
    }
    return Ok(());
  }

  /** The row is the one seeded from the validator's own duty. */
  ghost predicate HasDuty(t: Tables, duties: seq<Duty>, k: Pair, row: Option<AttestationRow>) {
    exists d :: d in duties && d.validator == k.0 && row == Some(SeededFrom(t, k, d))
  }

  function SeededFrom(t: Tables, k: Pair, duty: Duty): AttestationRow {
    Upserted(Lookup(t.attestations, k), SeedWrite(AssignmentOf(duty)), k in t.completed)
  }

  // ---- What a live row means ----

  ghost predicate Shows(row: AttestationRow, seen: InclusionDetails) {
    && row.details == Details(true, Some(seen.slot), Some(seen.delay), Some(seen.effectiveDelay))
    && row.marks == Marks(Some(seen.source), Some(seen.target), Some(seen.head))
  }

  /** A provisional row claims nothing, or exactly what some block of its window shows. */
  ghost predicate Explained(inputs: Inputs, chain: Canonical, k: Pair, row: AttestationRow) {
    || row.finalized
    || row.details == NO_DETAILS
    || exists s: Slot :: s < EpochStart(inputs.spec, k.1 + 2) && IsSeen(inputs, chain, k, s, row)
  }

  ghost predicate IsSeen(inputs: Inputs, chain: Canonical, k: Pair, s: Slot, row: AttestationRow) {
    Observation(inputs, chain, k, s).Some? && Shows(row, Observation(inputs, chain, k, s).value)
  }

  /** The block at `s`, if it carries the vote, is already accounted for: the row shows it or an earlier one. */
  ghost predicate Accounted(inputs: Inputs, chain: Canonical, k: Pair, s: Slot, row: Option<AttestationRow>) {
    s < EpochStart(inputs.spec, k.1 + 2) && Observation(inputs, chain, k, s).Some? ==>
      && row.Some?
      && (|| row.value.finalized
          || (row.value.details.included && row.value.details.inclusionSlot.Some?
                && row.value.details.inclusionSlot.value <= s))
  }

  /** Scanning a block accounts for it and disturbs nothing accounted for before. */
  lemma ScanAccounts(inputs: Inputs, chain: Canonical, t: Tables, k: Pair, slot: Slot, finalized: bool)
    requires slot < EpochStart(inputs.spec, k.1 + 2)
    requires k in t.attestations ==> Explained(inputs, chain, k, t.attestations[k])
    ensures var after := ScannedRow(inputs, chain, t, k, slot, finalized);
      && (after.Some? ==> Explained(inputs, chain, k, after.value))
      && Accounted(inputs, chain, k, slot, after)
      && (forall s :: Accounted(inputs, chain, k, s, Lookup(t.attestations, k)) ==>
            Accounted(inputs, chain, k, s, after))
  {
    var after := ScannedRow(inputs, chain, t, k, slot, finalized);
    if Observation(inputs, chain, k, slot).Some? && !after.value.finalized {
      if k in t.attestations && after == Some(t.attestations[k]) {
        assert after.value.details.inclusionSlot.Some?;
      } else {
        assert IsSeen(inputs, chain, k, slot, after.value);
      }
    }
  }

  /** Seeding a row again, or joining a reward response, changes nothing of this. */
  lemma SeedAndRewardKeep(
    inputs: Inputs, chain: Canonical, k: Pair, row: Option<AttestationRow>, duty: Duty, rewards: Rewards,
    completed: bool)
    requires row.Some? ==> Explained(inputs, chain, k, row.value)
    ensures var seeded := Upserted(row, SeedWrite(AssignmentOf(duty)), completed);
      && Explained(inputs, chain, k, seeded)
      && (forall s :: Accounted(inputs, chain, k, s, row) ==> Accounted(inputs, chain, k, s, Some(seeded)))
    ensures row.Some? && !row.value.finalized ==>
      var joined := RewardJoined(row.value, rewards);
      && Explained(inputs, chain, k, joined)
      && (forall s :: Accounted(inputs, chain, k, s, row) ==> Accounted(inputs, chain, k, s, Some(joined)))
  {
    if row.Some? && !row.value.finalized && row.value.details != NO_DETAILS {
      var s: Slot :| s < EpochStart(inputs.spec, k.1 + 2) && IsSeen(inputs, chain, k, s, row.value);
      assert IsSeen(inputs, chain, k, s, RewardJoined(row.value, rewards));
    }
  }

  /** A row that shows the deciding block has the reference outcome. */
  lemma ShownIsExpected(inputs: Inputs, chain: Canonical, k: Pair, s: Slot, row: AttestationRow)
    requires k in inputs.duties && k.1 in inputs.committees && WellAssigned(inputs) && VotesPrecedeBlocks(chain)
    requires SeatedAt(inputs.committees[k.1], inputs.duties[k]) && IsSeen(inputs, chain, k, s, row)
    ensures Performed(row.details, row.marks)
         == ExpectedAt(EpochView(inputs.spec, k.1, inputs.committees[k.1]), chain, inputs.duties[k], s)
    ensures EpochStart(inputs.spec, k.1) <= s && row.details.inclusionSlot == Some(s)
  {
    HitFacts(EpochView(inputs.spec, k.1, inputs.committees[k.1]), chain, inputs.duties[k], s);
  }

  /**
   * Once every slot of the window is accounted for, a provisional row is the reference outcome. Only the
   * marks of a miss may come from a reward response.
   */
  lemma AccountedRowIsExpected(inputs: Inputs, chain: Canonical, k: Pair, row: AttestationRow)
    requires k in inputs.duties && k.1 in inputs.committees && WellAssigned(inputs) && VotesPrecedeBlocks(chain)
    requires SeatedAt(inputs.committees[k.1], inputs.duties[k])
    requires !row.finalized && Explained(inputs, chain, k, row)
    requires forall s :: EpochStart(inputs.spec, k.1) <= s < EpochStart(inputs.spec, k.1 + 2) ==>
      Accounted(inputs, chain, k, s, Some(row))
    ensures var expected := Expected(EpochView(inputs.spec, k.1, inputs.committees[k.1]), chain, inputs.duties[k]);
      && row.details == expected.details
      && (row.details.included ==> Performed(row.details, row.marks) == expected)
  {
    var view := EpochView(inputs.spec, k.1, inputs.committees[k.1]);
    EarliestHitIsLeast(view, chain, k.0, view.Start(), view.WindowEnd());
    var hit := EarliestHit(view, chain, k.0, view.Start(), view.WindowEnd());
    if hit.Some? {
      assert row.details.included by {
        assert Accounted(inputs, chain, k, hit.value, Some(row));
        assert Observation(inputs, chain, k, hit.value).Some?;
      }
    }
    if row.details == NO_DETAILS {
      assert hit.None?;
    } else {
      var s: Slot :| s < view.WindowEnd() && IsSeen(inputs, chain, k, s, row);
      ShownIsExpected(inputs, chain, k, s, row);
      assert Hit(view, chain, k.0, s);
      assert hit == Some(s) by {
        assert Accounted(inputs, chain, k, hit.value, Some(row));
      }
    }
  }
}
