/** The live attestation pipeline (src/scanner/attestations/mod.rs:132-340, src/scanner/mod.rs:205-240). */
module LiveScan {
  import opened Wrappers
  import opened Chain
  import opened Attestations
  import opened Rows
  import opened Outcome
  import opened Tables
  import opened Store
  import Safety

  /** What the node answers about assignments; a missing epoch is an unavailable input. */
  datatype Inputs = Inputs(spec: Spec, committees: map<Epoch, CommitteeMap>, duties: map<Pair, Duty>)

  /** Slots resolved by the parent walk: all blocks of the chain from `lo` on. */
  ghost predicate Resolved(roots: map<Slot, Root>, chain: Canonical, lo: Slot) {
    && lo in chain
    && (forall s :: s in roots <==> s in chain && s >= lo)
    && (forall s <- roots :: roots[s] == chain[s].root)
  }

  /** `max_by_key` over the resolved slots at or before `slot`. */
  function NewestAtOrBefore(roots: map<Slot, Root>, slot: Slot): Option<Root> {
    if slot in roots then Some(roots[slot])
    else if slot == 0 then None
    else NewestAtOrBefore(roots, slot - 1)
  }

  lemma {:induction false} NewestIsCanonical(roots: map<Slot, Root>, chain: Canonical, lo: Slot, slot: Slot)
    requires Resolved(roots, chain, lo)
    ensures NewestAtOrBefore(roots, slot).Some? <==> slot >= lo
    ensures slot >= lo ==> NewestAtOrBefore(roots, slot) == RootAtOrBefore(chain, slot)
  {
    if slot !in roots && slot > 0 {
      NewestIsCanonical(roots, chain, lo, slot - 1);
    }
  }

  method LiveVoteContext(
    spec: Spec, epoch: Epoch, slot: Slot, roots: map<Slot, Root>, ghost chain: Canonical, ghost lo: Slot)
    returns (r: Result<VoteContext>)
    requires Resolved(roots, chain, lo)
    ensures r.Ok? <==> lo <= EpochStart(spec, epoch)
    ensures r.Ok? ==>
      && r.value.targetEpoch == epoch && r.value.source.None?
      && RootAtOrBefore(chain, EpochStart(spec, epoch)) == Some(r.value.targetRoot)
      && (forall s :: s in r.value.blockRoots
            <==> EpochStart(spec, epoch) <= s < slot && s < EpochStart(spec, epoch + 1))
      && (forall s <- r.value.blockRoots :: RootAtOrBefore(chain, s) == Some(r.value.blockRoots[s]))
  {
    var start, end := EpochStart(spec, epoch), EpochStart(spec, epoch + 1);
    EpochStartMonotone(spec, epoch, epoch + 1);
    NewestIsCanonical(roots, chain, lo, start);
    var newest := NewestAtOrBefore(roots, start);
    if newest.None? {
      return Err(InconsistentBeaconData);
    }
    var previous := newest.value;
    var targetRoot := previous;
    var blockRoots: map<Slot, Root> := map[];
    var s := start;
    while s < slot && s < end
      invariant start <= s
      invariant forall x :: x in blockRoots <==> start <= x < s && x < slot && x < end
      invariant forall x <- blockRoots :: RootAtOrBefore(chain, x) == Some(blockRoots[x])
      invariant RootAtOrBefore(chain, if s == start then start else s - 1) == Some(previous)
      decreases end - s
    {
      if s in roots {
        previous := roots[s];
      }
      blockRoots := blockRoots[s := previous];
      s := s + 1;
    }
    return Ok(VoteContext(blockRoots, targetRoot, epoch, None));
  }

  /** Blocks after the duty slot through inclusion, counted on resolved roots. */
  function CountResolved(roots: map<Slot, Root>, lo: Slot, hi: Slot): nat {
    if lo >= hi then 0 else CountResolved(roots, lo, hi - 1) + if hi - 1 in roots then 1 else 0
  }

  lemma {:induction false} CountIsCanonical(roots: map<Slot, Root>, chain: Canonical, lo: Slot, a: Slot, b: Slot)
    requires Resolved(roots, chain, lo) && lo <= a
    ensures CountResolved(roots, a, b) == BlocksBetween(chain, a, b)
  {
    if a < b {
      CountIsCanonical(roots, chain, lo, a, b - 1);
    }
  }

  /** The observation of pair `k` in the block at `slot`, measured on the whole chain. */
  ghost function Observation(inputs: Inputs, chain: Canonical, k: Pair, slot: Slot): Option<InclusionDetails> {
    if k.1 !in inputs.committees || k !in inputs.duties then None else
      var view := EpochView(inputs.spec, k.1, inputs.committees[k.1]);
      if !Hit(view, chain, k.0, slot) then None else
        var vote := FirstVote(view, chain[slot].attestations, k.0).value;
        Some(InclusionDetails(
          slot, slot - vote.slot, BlocksBetween(chain, inputs.duties[k].slot + 1, slot + 1), true,
          vote.target.epoch == k.1 && RootAtOrBefore(chain, view.Start()) == Some(vote.target.root),
          RootAtOrBefore(chain, vote.slot) == Some(vote.headRoot)))
  }

  function AssignmentOf(duty: Duty): Assignment {
    Assignment(duty.slot, duty.committeeIndex, duty.position)
  }

  /** Upsert, then the repair that a finalized replay adds. */
  function ObservedRow(
    row: Option<AttestationRow>, duty: Duty, seen: InclusionDetails, finalized: bool, completed: bool)
    : AttestationRow
  {
    var upserted := Upserted(row, ObservationWrite(AssignmentOf(duty), seen), completed);
    if finalized then Repaired(upserted, seen, completed) else upserted
  }

  /** Row `k` after the block at `slot` has been scanned for `k`'s epoch. */
  ghost function ScannedRow(inputs: Inputs, chain: Canonical, t: Tables, k: Pair, slot: Slot, finalized: bool)
    : Option<AttestationRow>
  {
    var seen := Observation(inputs, chain, k, slot);
    if seen.None? then Lookup(t.attestations, k)
    else Some(ObservedRow(Lookup(t.attestations, k), inputs.duties[k], seen.value, finalized, k in t.completed))
  }

  /** Duty rows may appear and change; nothing else does, and none goes. */
  ghost predicate OnlyAttestations(a: Tables, b: Tables) {
    b == a.(attestations := b.attestations) && a.attestations.Keys <= b.attestations.Keys
  }

  /** Duties answered for an epoch lie in it. */
  ghost predicate WellAssigned(inputs: Inputs) {
    forall k <- inputs.duties ::
      inputs.duties[k].validator == k.0
      && EpochStart(inputs.spec, k.1) <= inputs.duties[k].slot < EpochStart(inputs.spec, k.1 + 1)
  }

  /** The answers so far: each agrees with the whole of what the node will answer about the chain. */
  ghost predicate PartOfAnswers(part: Inputs, whole: Inputs) {
    && part.spec == whole.spec
    && (forall e <- part.committees :: e in whole.committees && whole.committees[e] == part.committees[e])
    && (forall k <- part.duties :: k in whole.duties && whole.duties[k] == part.duties[k])
  }

  ghost predicate Assigned(part: Inputs, whole: Inputs) {
    PartOfAnswers(part, whole) && WellAssigned(whole)
  }

  /** What the scan computes from resolved roots is the observation on the whole chain. */
  lemma ObservationIsExact(
    inputs: Inputs, chain: Canonical, lo: Slot, roots: map<Slot, Root>, ctx: VoteContext, k: Pair, slot: Slot)
    requires Resolved(roots, chain, lo) && slot in chain && WellAssigned(inputs)
    requires k.1 in inputs.committees && k in inputs.duties && lo <= EpochStart(inputs.spec, k.1)
    requires ctx.targetEpoch == k.1 && ctx.source.None?
    requires RootAtOrBefore(chain, EpochStart(inputs.spec, k.1)) == Some(ctx.targetRoot)
    requires forall s <- ctx.blockRoots :: RootAtOrBefore(chain, s) == Some(ctx.blockRoots[s])
    requires FirstInclusion(EpochView(inputs.spec, k.1, inputs.committees[k.1]), chain[slot].attestations, slot, ctx,
      k.0).Some?
    ensures var inc := FirstInclusion(EpochView(inputs.spec, k.1, inputs.committees[k.1]), chain[slot].attestations,
      slot, ctx, k.0).value;
      Observation(inputs, chain, k, slot) == Some(SeenOf(inc, inputs.duties[k], roots)) && inc.slot == slot
  {
    CountIsCanonical(roots, chain, lo, inputs.duties[k].slot + 1, slot + 1);
  }

  function SeenOf(inc: Inclusion, duty: Duty, roots: map<Slot, Root>): InclusionDetails {
    InclusionDetails(
      inc.slot, inc.delay, CountResolved(roots, duty.slot + 1, inc.slot + 1),
      inc.marks.source, inc.marks.target, inc.marks.head)
  }

  /** The attestations of the epoch are readable, come before the block where they count, and the epoch is known. */
  ghost predicate VotesRead(
    inputs: Inputs, epoch: Epoch, scan: set<Validator>, slot: Slot, atts: seq<Attestation>, lo: Slot)
  {
    && epoch in inputs.committees && lo <= EpochStart(inputs.spec, epoch)
    && var view := EpochView(inputs.spec, epoch, inputs.committees[epoch]);
    && (forall att <- atts :: EpochOf(inputs.spec, att.data.slot) == epoch ==>
          WellEncoded(inputs.spec, view.committees, att) && att.data.slot <= slot)
    && (forall att <- atts, v <- scan :: Attests(view, att, v) ==> att.data.slot < slot)
  }

  /** The duty may have been attested in the block: it lies in the look-back. */
  predicate WithinReach(inputs: Inputs, k: Pair, slot: Slot) {
    && k in inputs.duties
    && EpochStart(inputs.spec, SaturatingSub(EpochOf(inputs.spec, slot), 1)) <= inputs.duties[k].slot < slot
  }

  /** When the scan of one epoch in one block succeeds. */
  ghost predicate EpochReads(
    inputs: Inputs, epoch: Epoch, scan: set<Validator>, slot: Slot, atts: seq<Attestation>, lo: Slot)
  {
    && VotesRead(inputs, epoch, scan, slot, atts, lo)
    && forall att <- atts, v <- scan ::
        Attests(EpochView(inputs.spec, epoch, inputs.committees[epoch]), att, v) ==>
          WithinReach(inputs, (v, epoch), slot)
  }

  lemma ReadableIsRead(
    inputs: Inputs, epoch: Epoch, scan: set<Validator>, slot: Slot, atts: seq<Attestation>, lo: Slot, ctx: VoteContext)
    requires epoch in inputs.committees && lo <= EpochStart(inputs.spec, epoch)
    requires forall s ::
      s in ctx.blockRoots <==> EpochStart(inputs.spec, epoch) <= s < slot && s < EpochStart(inputs.spec, epoch + 1)
    ensures VotesRead(inputs, epoch, scan, slot, atts, lo)
       <==> forall att <- atts ::
              Readable(EpochView(inputs.spec, epoch, inputs.committees[epoch]), att, slot, scan, ctx)
  {
    forall att <- atts {
      EpochOfBounds(inputs.spec, att.data.slot, epoch);
    }
  }

  /** The decoding half: every scanned validator's observation, ready to be written. */
  method ExtractLive(
    inputs: Inputs, epoch: Epoch, scan: set<Validator>, slot: Slot, atts: seq<Attestation>,
    roots: map<Slot, Root>, ghost whole: Inputs, ghost chain: Canonical, ghost lo: Slot)
    returns (r: Result<map<Validator, Inclusion>>)
    requires Resolved(roots, chain, lo)
    requires slot in chain && atts == chain[slot].attestations
    ensures r.Ok? <==> VotesRead(inputs, epoch, scan, slot, atts, lo)
    ensures r.Ok? ==> r.value.Keys <= scan
    ensures r.Ok? ==> forall v <- scan ::
              v in r.value <==> exists att <- atts ::
                Attests(EpochView(inputs.spec, epoch, inputs.committees[epoch]), att, v)
    ensures r.Ok? && Assigned(inputs, whole) ==> forall v <- scan :: (v, epoch) in whole.duties ==>
              Observation(whole, chain, (v, epoch), slot)
              == if v in r.value then Some(SeenOf(r.value[v], whole.duties[(v, epoch)], roots)) else None
    ensures r.Ok? ==> forall v <- r.value :: r.value[v].slot == slot
  {
    if epoch !in inputs.committees {
      return Err(BeaconDataUnavailable);
    }
    var view := EpochView(inputs.spec, epoch, inputs.committees[epoch]);
    var context := LiveVoteContext(inputs.spec, epoch, slot, roots, chain, lo);
    if context.Err? {
      return Err(context.error);
    }
    var ctx := context.value;
    ReadableIsRead(inputs, epoch, scan, slot, atts, lo, ctx);
    r := ExtractInclusions(view, atts, slot, scan, ctx, map[]);
    if r.Ok? {
      forall v ensures Entry(r.value, v) == if v in scan then FirstInclusion(view, atts, slot, ctx, v) else None {
        assert Entry(map[], v).None?;
      }
      forall v | v in scan && (v, epoch) in whole.duties && Assigned(inputs, whole)
        ensures Observation(whole, chain, (v, epoch), slot)
             == if v in r.value then Some(SeenOf(r.value[v], whole.duties[(v, epoch)], roots)) else None
      {
        VotesAreRecorded(view, atts, slot, scan, ctx, v);
        assert Entry(r.value, v) == FirstInclusion(view, atts, slot, ctx, v);
        if v in r.value {
          ObservationIsExact(whole, chain, lo, roots, ctx, (v, epoch), slot);
        }
      }
    }
  }

  /** The writing half: one guarded upsert per observation, in any order. */
  method WriteObservations(
    db: Database, inputs: Inputs, epoch: Epoch, slot: Slot, roots: map<Slot, Root>,
    inclusions: map<Validator, Inclusion>, finalized: bool)
    returns (r: Result<()>)
    requires db.spec == inputs.spec && slot > 0
    modifies db
    ensures r.Ok? <==> forall v <- inclusions :: WithinReach(inputs, (v, epoch), slot)
    ensures OnlyAttestations(old(db.View()), db.View())
    ensures forall k: Pair :: k.1 != epoch || k.0 !in inclusions ==>
              Lookup(db.View().attestations, k) == Lookup(old(db.View()).attestations, k)
    ensures forall v <- inclusions ::
              || (r.Err? && Lookup(db.View().attestations, (v, epoch))
                    == Lookup(old(db.View()).attestations, (v, epoch)))
              || ((v, epoch) in inputs.duties
                  && Lookup(db.View().attestations, (v, epoch))
                  == Some(WrittenRow(inputs, old(db.View()), roots, inclusions[v], (v, epoch), finalized)))
  {
    var minAttSlot := EpochStart(inputs.spec, SaturatingSub(EpochOf(inputs.spec, slot), 1));
    ghost var t := db.View();
    var pending := inclusions.Keys;
    while pending != {}
      invariant pending <= inclusions.Keys
      invariant OnlyAttestations(t, db.View())
      invariant forall v <- inclusions :: v !in pending ==> WithinReach(inputs, (v, epoch), slot)
      invariant forall k: Pair :: k.1 != epoch || k.0 !in inclusions || k.0 in pending ==>
                  Lookup(db.attestations, k) == Lookup(t.attestations, k)
      invariant forall v <- inclusions :: v !in pending ==>
                  && (v, epoch) in inputs.duties
                  && Lookup(db.attestations, (v, epoch))
                        == Some(WrittenRow(inputs, t, roots, inclusions[v], (v, epoch), finalized))
    {
      var v :| v in pending;
      if (v, epoch) !in inputs.duties {
        return Err(InconsistentBeaconData);
      }
      var duty := inputs.duties[(v, epoch)];
      if duty.slot < minAttSlot || duty.slot > slot - 1 {
        return Err(InconsistentBeaconData);
      }
      pending := pending - {v};
      WriteObservation(db, duty, (v, epoch), SeenOf(inclusions[v], duty, roots), finalized);
    }
    return Ok(());
  }

  method WriteObservation(db: Database, duty: Duty, k: Pair, seen: InclusionDetails, finalized: bool)
    modifies db
    ensures OnlyAttestations(old(db.View()), db.View())
    ensures db.attestations == old(db.attestations)[k :=
      ObservedRow(Lookup(old(db.attestations), k), duty, seen, finalized, k in db.completed)]
  {
    db.UpsertAttestationDuty(k.0, k.1, ObservationWrite(AssignmentOf(duty), seen));
    if finalized {
      db.RepairFinalizedInclusion(k.0, k.1, seen);
    }
  }

  ghost function WrittenRow(
    inputs: Inputs, t: Tables, roots: map<Slot, Root>, inc: Inclusion, k: Pair, finalized: bool): AttestationRow
    requires k in inputs.duties
  {
    ObservedRow(Lookup(t.attestations, k), inputs.duties[k], SeenOf(inc, inputs.duties[k], roots), finalized,
      k in t.completed)
  }

  lemma ObservedKeepsFinal(row: AttestationRow, duty: Duty, seen: InclusionDetails, finalized: bool, completed: bool)
    requires row.finalized
    ensures var after := ObservedRow(Some(row), duty, seen, finalized, completed);
      after.finalized && (completed ==> after == row || Safety.Refreshed(row, after))
  {
  }

  /** Final rows stay final, and those of completed pairs are at most completed with details that were missing. */
  lemma ObservationsKeepFinal(
    inputs: Inputs, a: Tables, b: Tables, roots: map<Slot, Root>, epoch: Epoch, inclusions: map<Validator, Inclusion>,
    finalized: bool)
    requires OnlyAttestations(a, b)
    requires forall k: Pair :: k.1 != epoch || k.0 !in inclusions ==>
      Lookup(b.attestations, k) == Lookup(a.attestations, k)
    requires forall v <- inclusions ::
      || Lookup(b.attestations, (v, epoch)) == Lookup(a.attestations, (v, epoch))
      || ((v, epoch) in inputs.duties
          && Lookup(b.attestations, (v, epoch))
                == Some(WrittenRow(inputs, a, roots, inclusions[v], (v, epoch), finalized)))
    ensures Safety.AttestationsKeptIn(a, b)
  {
    forall k | k in a.attestations && a.attestations[k].finalized
      ensures k in b.attestations && b.attestations[k].finalized
      ensures k in a.completed ==>
        b.attestations[k] == a.attestations[k] || Safety.Refreshed(a.attestations[k], b.attestations[k])
    {
      if Lookup(b.attestations, k) != Lookup(a.attestations, k) {
        ObservedKeepsFinal(a.attestations[k], inputs.duties[k], SeenOf(inclusions[k.0], inputs.duties[k], roots),
                           finalized, k in a.completed);
      }
    }
  }

  lemma KeptTwice(a: Tables, b: Tables, c: Tables)
    requires OnlyAttestations(a, b) && Safety.AttestationsKeptIn(a, b) && Safety.AttestationsKeptIn(b, c)
    ensures Safety.AttestationsKeptIn(a, c)
  {
  }

  /** Exactly the observed validators of one epoch are written, each once. */
  method ScanLiveAttestationEpoch(
    db: Database, inputs: Inputs, epoch: Epoch, scan: set<Validator>, slot: Slot, atts: seq<Attestation>,
    roots: map<Slot, Root>, finalized: bool, ghost whole: Inputs, ghost chain: Canonical, ghost lo: Slot)
    returns (r: Result<()>)
    requires db.spec == inputs.spec && Resolved(roots, chain, lo)
    requires slot in chain && slot > 0 && atts == chain[slot].attestations
    modifies db
    ensures r.Ok? <==> EpochReads(inputs, epoch, scan, slot, atts, lo)
    ensures OnlyAttestations(old(db.View()), db.View()) && Safety.AttestationsKeptIn(old(db.View()), db.View())
    ensures forall k: Pair :: k.1 != epoch || k.0 !in scan || k !in inputs.duties ==>
              Lookup(db.View().attestations, k) == Lookup(old(db.View()).attestations, k)
    ensures Assigned(inputs, whole) ==> forall v <- scan :: (v, epoch) in whole.duties ==>
              || Lookup(db.View().attestations, (v, epoch))
                    == ScannedRow(whole, chain, old(db.View()), (v, epoch), slot, finalized)
              || (r.Err? && Lookup(db.View().attestations, (v, epoch))
                    == Lookup(old(db.View()).attestations, (v, epoch)))
  {
    var inclusions := ExtractLive(inputs, epoch, scan, slot, atts, roots, whole, chain, lo);
    if inclusions.Err? {
      return Err(inclusions.error);
    }
    ghost var t := db.View();
    r := WriteObservations(db, inputs, epoch, slot, roots, inclusions.value, finalized);
    ObservationsKeepFinal(inputs, t, db.View(), roots, epoch, inclusions.value, finalized);
  }
}
