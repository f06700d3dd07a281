/** What one live slot writes, and a whole head scan (src/live/head.rs:17-260). */
module SlotScan {
  import opened Wrappers
  import opened Chain
  import opened Rows
  import opened Attestations
  import opened Outcome
  import Promotion
  import opened Tables
  import opened Store
  import opened LiveScan
  import opened LiveSlot
  import opened HeadScan
  import opened SyncCommittee
  import opened Bits
  import opened Ancestry

  datatype EpochDuties = EpochDuties(
    complete: bool, proposers: map<Slot, Validator>, positions: map<Epoch, map<Validator, seq<nat>>>)

  /** The node's answers about assignments; no entry is an unavailable input. */
  datatype Node = Node(
    attesters: map<Epoch, Result<seq<Duty>>>,
    proposers: map<Epoch, Result<seq<(Slot, Validator)>>>,
    syncs: map<Epoch, Result<map<Validator, seq<nat>>>>)

  function Answer<T>(answers: map<Epoch, Result<T>>, epoch: Epoch): Result<T> {
    if epoch in answers then answers[epoch] else Err(BeaconDataUnavailable)
  }

  // ---- The live evidence agrees with one chain ----

  ghost predicate RowsExplained(inputs: Inputs, chain: Canonical, rows: map<Pair, AttestationRow>) {
    forall k <- inputs.duties :: k in rows ==> Explained(inputs, chain, k, rows[k])
  }

  /** Coverage of a slot vouches that its votes are in the rows. */
  ghost predicate CoverageAccounted(
    inputs: Inputs, chain: Canonical, rows: map<Pair, AttestationRow>, coverage: set<(Validator, Slot)>)
  {
    forall k <- inputs.duties, s: Slot :: (k.0, s) in coverage ==> Accounted(inputs, chain, k, s, Lookup(rows, k))
  }

  /** Provisional slot rows stand no later than the tip and say whether the chain has a block there. */
  ghost predicate FlagsTrue(chain: Canonical, tip: Slot, proposals: map<Slot, ProposalRow>, syncs: SyncRows) {
    && (forall s <- proposals :: !proposals[s].finalized ==> s <= tip && (proposals[s].proposed <==> s in chain))
    && (forall k: (Validator, Slot) <- syncs :: !syncs[k].finalized ==>
          k.1 <= tip && (syncs[k].missedBlock <==> k.1 !in chain))
  }

  /** Everything provisional agrees with the chain that ends at `tip`. */
  ghost predicate LiveConsistent(inputs: Inputs, chain: Canonical, tip: Slot, t: Tables) {
    && WellFormedScan(inputs, chain)
    && (forall s <- chain :: s <= tip)
    && (forall c <- t.coverage :: c.1 <= tip)
    && DutiesActive(inputs, t.validators)
    && RowsExplained(inputs, chain, t.attestations)
    && CoverageAccounted(inputs, chain, t.attestations, t.coverage)
    && FlagsTrue(chain, tip, t.proposals, t.syncs)
  }

  /** The chain a poll examines, resolved from `lo` up to its head at `tip`, and all the node will answer about it. */
  datatype Branch = Branch(inputs: Inputs, chain: Canonical, lo: Slot, tip: Slot)

  /** Blocks of the chain from `lo` on, as the parent walk resolved them. */
  ghost predicate ResolvedBlocks(resolved: map<Slot, Block>, chain: Canonical, lo: Slot) {
    && lo in chain
    && (forall s :: s in resolved <==> s in chain && s >= lo)
    && (forall s <- resolved :: resolved[s] == chain[s])
  }

  function BlockRoots(resolved: map<Slot, Block>): map<Slot, Root> {
    map s | s in resolved :: resolved[s].root
  }

  /** Only active validators have attester duties. */
  ghost predicate DutiesActive(inputs: Inputs, validators: map<Validator, ValidatorRow>) {
    forall k <- inputs.duties :: k.0 in validators && ActiveAt(validators[k.0], k.1)
  }

  // ---- Assignments ----

  /** A row change that keeps each row explained and accounted for. */
  ghost predicate RowsImproved(
    inputs: Inputs, chain: Canonical, a: map<Pair, AttestationRow>, b: map<Pair, AttestationRow>)
  {
    forall k <- inputs.duties ::
      && (k in b ==> Explained(inputs, chain, k, b[k]))
      && (forall s :: Accounted(inputs, chain, k, s, Lookup(a, k)) ==> Accounted(inputs, chain, k, s, Lookup(b, k)))
  }

  lemma ImprovedKeeps(
    inputs: Inputs, chain: Canonical, a: map<Pair, AttestationRow>, b: map<Pair, AttestationRow>,
    coverage: set<(Validator, Slot)>)
    requires RowsImproved(inputs, chain, a, b) && CoverageAccounted(inputs, chain, a, coverage)
    ensures RowsExplained(inputs, chain, b) && CoverageAccounted(inputs, chain, b, coverage)
  {
    forall k <- inputs.duties, s: Slot | (k.0, s) in coverage ensures Accounted(inputs, chain, k, s, Lookup(b, k)) {
      assert Accounted(inputs, chain, k, s, Lookup(a, k));
    }
  }

  lemma SeedsImprove(
    inputs: Inputs, chain: Canonical, a: Tables, b: Tables, epoch: Epoch, validators: set<Validator>, duties: seq<Duty>)
    requires RowsExplained(inputs, chain, a.attestations)
    requires forall k: Pair :: k.1 != epoch || k.0 !in validators ==>
      Lookup(b.attestations, k) == Lookup(a.attestations, k)
    requires forall v <- validators :: HasDuty(a, duties, (v, epoch), Lookup(b.attestations, (v, epoch)))
    ensures RowsImproved(inputs, chain, a.attestations, b.attestations)
  {
    forall k | k in inputs.duties
      ensures k in b.attestations ==> Explained(inputs, chain, k, b.attestations[k])
      ensures forall s :: Accounted(inputs, chain, k, s, Lookup(a.attestations, k)) ==>
        Accounted(inputs, chain, k, s, Lookup(b.attestations, k))
    {
      if k.1 == epoch && k.0 in validators {
        assert HasDuty(a, duties, (k.0, epoch), Lookup(b.attestations, (k.0, epoch)));
        var d :| d in duties && d.validator == k.0 && Lookup(b.attestations, k) == Some(SeededFrom(a, k, d));
        SeedAndRewardKeep(inputs, chain, k, Lookup(a.attestations, k), d, NO_REWARDS, k in a.completed);
      } else {
        assert Lookup(b.attestations, k) == Lookup(a.attestations, k);
      }
    }
  }

  /** The last answer that names an active validator for the slot names `v`. */
  predicate IsProposer(answer: seq<(Slot, Validator)>, active: set<Validator>, slot: Slot, v: Validator) {
    exists i :: 0 <= i < |answer| && IsLast(answer, active, i) && answer[i] == (slot, v)
  }

  predicate IsLast(answer: seq<(Slot, Validator)>, active: set<Validator>, i: nat)
    requires i < |answer|
  {
    answer[i].1 in active && forall j :: i < j < |answer| && answer[j].0 == answer[i].0 ==> answer[j].1 !in active
  }

  /** Exactly the answered slots of active validators, each with its last answer. */
  ghost predicate ProposersAre(
    proposers: map<Slot, Validator>, answer: seq<(Slot, Validator)>, active: set<Validator>)
  {
    forall s: Slot, v: Validator :: s in proposers && proposers[s] == v <==> IsProposer(answer, active, s, v)
  }

  lemma NoProposers(active: set<Validator>)
    ensures ProposersAre(map[], [], active)
  {
  }

  lemma ProposersSnoc(
    before: map<Slot, Validator>, after: map<Slot, Validator>, answer: seq<(Slot, Validator)>,
    last: (Slot, Validator), active: set<Validator>)
    requires ProposersAre(before, answer, active)
    requires after == if last.1 in active then before[last.0 := last.1] else before
    ensures ProposersAre(after, answer + [last], active)
  {
    forall s: Slot, v: Validator
      ensures IsProposer(answer + [last], active, s, v)
         <==> if last.1 in active && last.0 == s then v == last.1 else IsProposer(answer, active, s, v)
    {
      OneMoreAnswer(answer, last, active, s, v);
    }
  }

  lemma OneMoreAnswer(
    answer: seq<(Slot, Validator)>, last: (Slot, Validator), active: set<Validator>, s: Slot, v: Validator)
    ensures IsProposer(answer + [last], active, s, v)
       <==> if last.1 in active && last.0 == s then v == last.1 else IsProposer(answer, active, s, v)
  {
    var (more, n) := (answer + [last], |answer|);
    assert more[n] == last && (last.1 in active ==> IsLast(more, active, n));
    forall i: nat | i < n
      ensures IsLast(more, active, i)
         <==> IsLast(answer, active, i) && !(last.1 in active && last.0 == answer[i].0)
    {
      if IsLast(more, active, i) {
        forall j | i < j < n && answer[j].0 == answer[i].0 ensures answer[j].1 !in active {
          assert more[j] == answer[j];
        }
      }
    }
    if i: nat :| i < n && IsLast(answer, active, i) && answer[i] == (s, v) {
      assert more[i] == (s, v);
    }
  }

  /** The answered pairs of active validators; a slot answered twice keeps its last. */
  method ProposersOf(answer: seq<(Slot, Validator)>, active: set<Validator>) returns (proposers: map<Slot, Validator>)
    ensures ProposersAre(proposers, answer, active)
    ensures forall s <- proposers :: proposers[s] in active
  {
    proposers := map[];
    NoProposers(active);
    for i := 0 to |answer|
      invariant ProposersAre(proposers, answer[..i], active)
      invariant forall s <- proposers :: proposers[s] in active
    {
      ghost var before := proposers;
      if answer[i].1 in active {
        proposers := proposers[answer[i].0 := answer[i].1];
      }
      assert answer[..i + 1] == answer[..i] + [answer[i]];
      ProposersSnoc(before, proposers, answer[..i], answer[i], active);
    }
    assert answer[..|answer|] == answer;
  }

  /** The input is there, or it may still come. */
  predicate Awaited<T>(answer: Result<T>) {
    answer.Ok? || Unavailable(answer.error)
  }

  /** No input of the epoch is wrong: each is there or awaited, and attester duties are one for each validator. */
  ghost predicate Assignable(spec: Spec, node: Node, active: set<Validator>, epoch: Epoch) {
    && Awaited(Answer(node.attesters, epoch)) && Awaited(Answer(node.proposers, epoch))
    && (epoch >= spec.altairForkEpoch ==> Awaited(Answer(node.syncs, epoch)))
    && (Answer(node.attesters, epoch).Ok? ==> OneEach(Answer(node.attesters, epoch).value, active))
  }

  predicate AllAnswered(spec: Spec, node: Node, epoch: Epoch) {
    && Answer(node.attesters, epoch).Ok? && Answer(node.proposers, epoch).Ok?
    && (epoch >= spec.altairForkEpoch ==> Answer(node.syncs, epoch).Ok?)
  }

  /** The assignments are the node's answers for the epoch, restricted to the active validators. */
  ghost predicate DutiesAre(spec: Spec, node: Node, active: set<Validator>, epoch: Epoch, duties: EpochDuties) {
    && (duties.complete <==> AllAnswered(spec, node, epoch))
    && (if Answer(node.proposers, epoch).Ok?
        then ProposersAre(duties.proposers, Answer(node.proposers, epoch).value, active) else duties.proposers == map[])
    && duties.positions == (if epoch >= spec.altairForkEpoch && Answer(node.syncs, epoch).Ok?
                            then map[epoch := Answer(node.syncs, epoch).value] else map[])
  }

  /** Every active validator has a row that comes from its answered duty. */
  ghost predicate Seeded(node: Node, active: set<Validator>, epoch: Epoch, a: Tables, b: Tables) {
    Answer(node.attesters, epoch).Ok? ==> forall v <- active ::
      HasDuty(a, Answer(node.attesters, epoch).value, (v, epoch), Lookup(b.attestations, (v, epoch)))
  }

  /** Assignments of the slot's epoch; an unavailable input leaves them incomplete, anything else fails. */
  method FetchEpochDuties(
    db: Database, node: Node, tracked: set<Validator>, slot: Slot,
    ghost b: Branch, ghost consistent: bool)
    returns (r: Result<EpochDuties>)
    requires consistent ==> RowsExplained(b.inputs, b.chain, db.attestations)
    modifies db
    ensures OnlyAttestations(old(db.View()), db.View())
    ensures consistent ==> RowsImproved(b.inputs, b.chain, old(db.attestations), db.attestations)
    ensures var (e, t) := (EpochOf(db.spec, slot), old(db.View()));
      var active := ActiveValidatorsAt(t, tracked, e);
      if slot == 0 || active == {} then r == Ok(EpochDuties(true, map[], map[])) && db.View() == t
      else
        && (r.Ok? <==> Assignable(db.spec, node, active, e))
        && (r.Ok? ==> DutiesAre(db.spec, node, active, e, r.value) && Seeded(node, active, e, t, db.View()))
  {
    var epoch := EpochOf(db.spec, slot);
    var active := ActiveValidatorsAt(db.View(), tracked, epoch);
    if slot == 0 || active == {} {
      return Ok(EpochDuties(true, map[], map[]));
    }
    var complete := true;
    ghost var t := db.View();
    var seeded := SeedLiveAttestationDuties(db, epoch, active, Answer(node.attesters, epoch));
    if seeded.Ok? {
      if consistent {
        SeedsImprove(b.inputs, b.chain, t, db.View(), epoch, active, Answer(node.attesters, epoch).value);
      }
    } else {
      if !Unavailable(seeded.error) {
        return Err(seeded.error);
      }
      complete := false;
    }
    var proposers: map<Slot, Validator> := map[];
    match Answer(node.proposers, epoch) {
      case Ok(answer) =>
        proposers := ProposersOf(answer, active);
      case Err(error) =>
        if !Unavailable(error) {
          return Err(error);
        }
        complete := false;
    }
    var positions: map<Epoch, map<Validator, seq<nat>>> := map[];
    if epoch >= db.spec.altairForkEpoch {
      match Answer(node.syncs, epoch) {
        case Ok(answer) =>
          positions := map[epoch := answer];
        case Err(error) =>
          if !Unavailable(error) {
            return Err(error);
          }
          complete := false;
      }
    }
    return Ok(EpochDuties(complete, proposers, positions));
  }

  // ---- One slot ----

  function SyncOf(resolved: map<Slot, Block>, aggregates: map<Slot, seq<Byte>>, slot: Slot): SlotSync {
    if slot !in resolved then Skipped else if slot in aggregates then Aggregate(aggregates[slot]) else NoAggregate
  }

  lemma LiveRowsAreTrue(
    spec: Spec, b: Branch, t: Tables, resolved: map<Slot, Block>, aggregates: map<Slot, seq<Byte>>, slot: Slot,
    members: map<Validator, seq<nat>>, done: SyncRows)
    requires ResolvedBlocks(resolved, b.chain, b.lo) && b.lo <= slot <= b.tip
    requires FlagsTrue(b.chain, b.tip, t.proposals, t.syncs)
    requires PartOf(done, LiveDue(spec, slot, SyncOf(resolved, aggregates, slot), members))
    ensures FlagsTrue(b.chain, b.tip, t.proposals, WrittenRows(spec, t.completed, t.syncs, done))
  {
    var due := LiveDue(spec, slot, SyncOf(resolved, aggregates, slot), members);
    forall k | k in done ensures k.1 == slot && (done[k].missedBlock <==> slot !in b.chain) {
      assert k in due && done[k] == due[k];
    }
  }

  /** The member signed: the slot has an aggregate, with the bit of one of its positions set. */
  predicate Signed(
    spec: Spec, slot: Slot, positions: seq<nat>, resolved: map<Slot, Block>, aggregates: map<Slot, seq<Byte>>)
  {
    slot in resolved && slot in aggregates
    && var bits := SyncBits(spec, aggregates[slot]);
    bits.Some? && exists p <- positions :: p < |bits.value| && bits.value[p]
  }

  /** Each member's row is final, or says whether the slot has a block and whether the member signed. */
  ghost predicate SyncRowsStand(
    spec: Spec, syncs: SyncRows, slot: Slot, members: map<Validator, seq<nat>>, resolved: map<Slot, Block>,
    aggregates: map<Slot, seq<Byte>>)
  {
    forall v <- members ::
      && (v, slot) in syncs
      && (|| syncs[(v, slot)].finalized
          || (&& syncs[(v, slot)].missedBlock == (slot !in resolved)
              && syncs[(v, slot)].participated == Signed(spec, slot, members[v], resolved, aggregates)))
  }

  lemma LiveRowsStand(
    spec: Spec, t: Tables, resolved: map<Slot, Block>, aggregates: map<Slot, seq<Byte>>, slot: Slot,
    members: map<Validator, seq<nat>>)
    requires SyncReads(spec, SyncOf(resolved, aggregates, slot), members)
    ensures SyncOf(resolved, aggregates, slot).NoAggregate?
            || SyncRowsStand(
                 spec,
                 WrittenRows(
                   spec, t.completed, t.syncs, LiveDue(spec, slot, SyncOf(resolved, aggregates, slot), members)),
                 slot, members, resolved, aggregates)
  {
    SignedAsDue(spec, resolved, aggregates, slot, members);
  }

  lemma OtherSlotsStand(
    spec: Spec, t: Tables, block: SlotSync, slot: Slot, members: map<Validator, seq<nat>>, done: SyncRows)
    requires PartOf(done, LiveDue(spec, slot, block, members))
    ensures forall k: (Validator, Slot) :: k.1 != slot ==>
      Lookup(WrittenRows(spec, t.completed, t.syncs, done), k) == Lookup(t.syncs, k)
  {
  }

  lemma SignedAsDue(
    spec: Spec, resolved: map<Slot, Block>, aggregates: map<Slot, seq<Byte>>, slot: Slot,
    members: map<Validator, seq<nat>>)
    requires SyncReads(spec, SyncOf(resolved, aggregates, slot), members)
    ensures var due := LiveDue(spec, slot, SyncOf(resolved, aggregates, slot), members);
      forall v <- members :: !SyncOf(resolved, aggregates, slot).NoAggregate? ==>
        (v, slot) in due && due[(v, slot)].participated == Signed(spec, slot, members[v], resolved, aggregates)
  {
  }

  /** Rows and blocks of other slots stay, no duty row goes, and jobs only join. */
  ghost predicate OnlySlot(a: Tables, b: Tables, slot: Slot) {
    && (forall s: Slot :: s != slot ==> Lookup(b.proposals, s) == Lookup(a.proposals, s))
    && (forall k: (Validator, Slot) :: k.1 != slot ==> Lookup(b.syncs, k) == Lookup(a.syncs, k))
    && (forall s: Slot :: s != slot ==> Lookup(b.blocks, s) == Lookup(a.blocks, s))
    && a.attestations.Keys <= b.attestations.Keys && a.jobs.Keys <= b.jobs.Keys
  }

  /** The proposal and its reward job. */
  method WriteProposal(
    db: Database, slot: Slot, proposer: Validator, resolved: map<Slot, Block>,
    ghost b: Branch, ghost consistent: bool)
    requires ResolvedBlocks(resolved, b.chain, b.lo) && slot >= b.lo
    requires (consistent ==> slot <= b.tip && FlagsTrue(b.chain, b.tip, db.proposals, db.syncs))
    modifies db
    ensures consistent ==> FlagsTrue(b.chain, b.tip, db.proposals, db.syncs)
    ensures db.View() == old(db.View()).(proposals := db.proposals, jobs := db.jobs)
    ensures ProposalWritten(db.View(), slot, proposer, resolved)
    ensures JobsAdded(old(db.jobs), db.jobs) && OnlySlot(old(db.View()), db.View(), slot)
    ensures JobsRooted(old(db.jobs), db.jobs, resolved)
  {
    db.UpsertBlockProposal(slot,
      ProposalRow(proposer, slot in resolved, ProposalRewards(None, None, None, None), false));
    if slot in resolved {
      db.EnqueueJobs({ProposalJob(proposer, slot)}, Some(resolved[slot].root));
    }
  }

  ghost predicate ProposalWritten(t: Tables, slot: Slot, proposer: Validator, resolved: map<Slot, Block>) {
    && slot in t.proposals
    && (t.proposals[slot].finalized
          || (t.proposals[slot].proposer == proposer && t.proposals[slot].proposed == (slot in resolved)))
    && (slot in resolved ==> ProposalJob(proposer, slot) in t.jobs)
  }

  ghost predicate SyncsWritten(
    spec: Spec, t: Tables, slot: Slot, members: map<Validator, seq<nat>>, resolved: map<Slot, Block>,
    aggregates: map<Slot, seq<Byte>>)
  {
    SyncOf(resolved, aggregates, slot).NoAggregate?
    || (&& SyncRowsStand(spec, t.syncs, slot, members, resolved, aggregates)
        && (slot in resolved ==> forall v <- members :: SyncJob(v, slot) in t.jobs))
  }

  /** Ancestry, proposal and sync outcomes of a slot are stored, with a reward job for each that may earn one. */
  ghost predicate SlotWritten(
    spec: Spec, t: Tables, slot: Slot, duties: EpochDuties, resolved: map<Slot, Block>,
    aggregates: map<Slot, seq<Byte>>)
  {
    BlockStored(t, slot, resolved) && RowsWritten(spec, t, slot, duties, resolved, aggregates)
  }

  ghost predicate RowsWritten(
    spec: Spec, t: Tables, slot: Slot, duties: EpochDuties, resolved: map<Slot, Block>,
    aggregates: map<Slot, seq<Byte>>)
  {
    && (slot in duties.proposers ==> ProposalWritten(t, slot, duties.proposers[slot], resolved))
    && (EpochOf(spec, slot) in duties.positions ==>
          SyncsWritten(spec, t, slot, duties.positions[EpochOf(spec, slot)], resolved, aggregates))
  }

  predicate SyncsRead(
    spec: Spec, slot: Slot, duties: EpochDuties, resolved: map<Slot, Block>, aggregates: map<Slot, seq<Byte>>)
  {
    EpochOf(spec, slot) in duties.positions ==>
      SyncReads(spec, SyncOf(resolved, aggregates, slot), duties.positions[EpochOf(spec, slot)])
  }

  /** The sync rows and their reward jobs. */
  method WriteSync(
    db: Database, slot: Slot, members: map<Validator, seq<nat>>, resolved: map<Slot, Block>,
    aggregates: map<Slot, seq<Byte>>, ghost b: Branch, ghost consistent: bool)
    returns (r: Result<()>)
    requires ResolvedBlocks(resolved, b.chain, b.lo) && slot >= b.lo
    requires (consistent ==> slot <= b.tip && FlagsTrue(b.chain, b.tip, db.proposals, db.syncs))
    modifies db
    ensures consistent ==> FlagsTrue(b.chain, b.tip, db.proposals, db.syncs)
    ensures db.View() == old(db.View()).(syncs := db.syncs, jobs := db.jobs)
    ensures r.Ok? ==>
      var due := LiveDue(db.spec, slot, SyncOf(resolved, aggregates, slot), members);
      db.syncs == Written(db.spec, old(db.View()), due).syncs
    ensures r.Ok? <==> SyncReads(db.spec, SyncOf(resolved, aggregates, slot), members)
    ensures r.Ok? ==> SyncsWritten(db.spec, db.View(), slot, members, resolved, aggregates)
    ensures JobsAdded(old(db.jobs), db.jobs) && OnlySlot(old(db.View()), db.View(), slot)
    ensures JobsRooted(old(db.jobs), db.jobs, resolved)
  {
    ghost var t := db.View();
    var block := SyncOf(resolved, aggregates, slot);
    var written, done := UpsertLiveSyncInSlot(db, slot, block, members);
    OtherSlotsStand(db.spec, t, block, slot, members, done);
    if consistent {
      LiveRowsAreTrue(db.spec, b, t, resolved, aggregates, slot, members, done);
    }
    if written.Err? {
      return written;
    }
    LiveRowsStand(db.spec, t, resolved, aggregates, slot, members);
    if block.Aggregate? {
      var keys := set v <- members :: SyncJob(v, slot);
      assert forall v <- members :: SyncJob(v, slot) in keys;
      db.EnqueueJobs(keys, Some(resolved[slot].root));
    }
    return Ok(());
  }

  /** A tracked validator whose vote the block may carry is in the scan. */
  ghost predicate CoversDuties(inputs: Inputs, tracked: set<Validator>, active: set<Validator>, slot: Slot) {
    forall k <- inputs.duties ::
      k.0 in tracked && SaturatingSub(EpochOf(inputs.spec, slot), 1) <= k.1 <= EpochOf(inputs.spec, slot) ==>
        k.0 in active
  }

  lemma ScanImproves(inputs: Inputs, chain: Canonical, a: Tables, b: Tables, slot: Slot, finalized: bool)
    requires RowsExplained(inputs, chain, a.attestations)
    requires forall k: Pair :: slot >= EpochStart(inputs.spec, k.1 + 2) ==>
      Lookup(b.attestations, k) == Lookup(a.attestations, k)
    requires forall k <- inputs.duties :: ScannedOrKept(inputs, chain, a, b, k, slot, finalized)
    ensures RowsImproved(inputs, chain, a.attestations, b.attestations)
  {
    forall k | k in inputs.duties
      ensures k in b.attestations ==> Explained(inputs, chain, k, b.attestations[k])
      ensures forall s :: Accounted(inputs, chain, k, s, Lookup(a.attestations, k)) ==>
        Accounted(inputs, chain, k, s, Lookup(b.attestations, k))
    {
      if slot < EpochStart(inputs.spec, k.1 + 2) {
        ScanAccounts(inputs, chain, a, k, slot, finalized);
      } else {
        assert Lookup(b.attestations, k) == Lookup(a.attestations, k);
      }
    }
  }

  ghost predicate VotesReadable(
    inputs: Inputs, active: set<Validator>, slot: Slot, resolved: map<Slot, Block>, lo: Slot)
  {
    slot in resolved && active != {} ==> BlockReads(inputs, active, slot, resolved[slot].attestations, lo)
  }

  /** The attestations of the slot's block. On success every tracked duty is accounted for at this slot. */
  method ScanBlock(
    db: Database, inputs: Inputs, tracked: set<Validator>, active: set<Validator>, slot: Slot,
    resolved: map<Slot, Block>, ghost b: Branch, ghost consistent: bool)
    returns (r: Result<()>)
    requires db.spec == inputs.spec && ResolvedBlocks(resolved, b.chain, b.lo) && slot >= b.lo
    requires consistent ==> Sound(inputs, b.inputs, b.chain) && CoversDuties(b.inputs, tracked, active, slot)
    requires consistent ==> RowsExplained(b.inputs, b.chain, db.attestations)
    modifies db
    ensures r.Ok? <==> VotesReadable(inputs, active, slot, resolved, b.lo)
    ensures OnlyAttestations(old(db.View()), db.View())
    ensures consistent ==> RowsImproved(b.inputs, b.chain, old(db.attestations), db.attestations)
    ensures consistent && r.Ok? ==> forall k <- b.inputs.duties ::
              k.0 in tracked ==> Accounted(b.inputs, b.chain, k, slot, Lookup(db.attestations, k))
  {
    ghost var t := db.View();
    r := Ok(());
    if slot in resolved && active != {} {
      ghost var failures;
      r, failures := ScanLiveAttestationsInSlot(
        db, inputs, active, slot, resolved[slot].attestations, BlockRoots(resolved), false, b.inputs, b.chain, b.lo);
      if consistent {
        ScanImproves(b.inputs, b.chain, t, db.View(), slot, false);
      }
    }
    if consistent && r.Ok? {
      forall k | k in b.inputs.duties && k.0 in tracked
        ensures Accounted(b.inputs, b.chain, k, slot, Lookup(db.attestations, k))
      {
        if slot < EpochStart(b.inputs.spec, k.1 + 2) && Observation(b.inputs, b.chain, k, slot).Some? {
          if k.1 !in CandidateEpochs(b.inputs.spec, slot, b.chain[slot].attestations) {
            OthersAreNotObserved(b.inputs, b.chain, k, slot);
          }
          CandidatesAreRecent(b.inputs.spec, slot, b.chain[slot].attestations, k.1);
          ScanAccounts(b.inputs, b.chain, t, k, slot, false);
        }
      }
    }
  }

  /** Jobs are only added, for blocks and pending. */
  ghost predicate JobsAdded(a: map<JobKey, Job>, b: map<JobKey, Job>) {
    && (forall j <- a :: j in b && b[j] == a[j])
    && (forall j <- b :: j in a || (!j.AttestationJob? && b[j].status == Pending && b[j].dependency.None?))
  }

  /** The fields a head scan leaves alone; jobs only join. */
  ghost predicate OnlyLiveFields(a: Tables, b: Tables) {
    && a.completed == b.completed && a.gaps == b.gaps && a.started == b.started && a.validators == b.validators
    && JobsAdded(a.jobs, b.jobs)
  }

  /** New jobs carry the root of their slot's resolved block. */
  ghost predicate JobsRooted(a: map<JobKey, Job>, b: map<JobKey, Job>, resolved: map<Slot, Block>) {
    forall j <- b :: j !in a ==>
      !j.AttestationJob? && j.slot in resolved && b[j] == Job(Some(resolved[j.slot].root), None, Pending, None)
  }

  /** Stored blocks are as before or as resolved, and so are the blocks of new jobs. */
  ghost predicate BlocksFrom(a: Tables, b: Tables, resolved: map<Slot, Block>) {
    && (forall s <- b.blocks ::
          || (s in a.blocks && b.blocks[s] == a.blocks[s])
          || (s in resolved && b.blocks[s] == BlockRow(resolved[s].root, resolved[s].parent)))
    && JobsRooted(a.jobs, b.jobs, resolved)
  }

  /** Proposal and sync outcomes of the slot, with their reward jobs. */
  method WriteSlotRows(
    db: Database, slot: Slot, duties: EpochDuties, resolved: map<Slot, Block>, aggregates: map<Slot, seq<Byte>>,
    ghost b: Branch, ghost consistent: bool)
    returns (r: Result<()>)
    requires ResolvedBlocks(resolved, b.chain, b.lo) && slot >= b.lo
    requires (consistent ==> slot <= b.tip && FlagsTrue(b.chain, b.tip, db.proposals, db.syncs))
    modifies db
    ensures consistent ==> FlagsTrue(b.chain, b.tip, db.proposals, db.syncs)
    ensures db.View() == old(db.View()).(proposals := db.proposals, syncs := db.syncs, jobs := db.jobs)
    ensures JobsAdded(old(db.jobs), db.jobs) && OnlySlot(old(db.View()), db.View(), slot)
    ensures JobsRooted(old(db.jobs), db.jobs, resolved)
    ensures r.Ok? <==> SyncsRead(db.spec, slot, duties, resolved, aggregates)
    ensures slot in duties.proposers ==> ProposalWritten(db.View(), slot, duties.proposers[slot], resolved)
    ensures r.Ok? && EpochOf(db.spec, slot) in duties.positions ==>
      SyncsWritten(db.spec, db.View(), slot, duties.positions[EpochOf(db.spec, slot)], resolved, aggregates)
  {
    var epoch := EpochOf(db.spec, slot);
    if slot in duties.proposers {
      WriteProposal(db, slot, duties.proposers[slot], resolved, b, consistent);
    }
    if epoch in duties.positions {
      r := WriteSync(db, slot, duties.positions[epoch], resolved, aggregates, b, consistent);
    } else {
      r := Ok(());
    }
  }

  lemma CoverageGrows(
    inputs: Inputs, chain: Canonical, rows: map<Pair, AttestationRow>, coverage: set<(Validator, Slot)>,
    tracked: set<Validator>, slot: Slot)
    requires CoverageAccounted(inputs, chain, rows, coverage)
    requires forall k <- inputs.duties :: k.0 in tracked ==> Accounted(inputs, chain, k, slot, Lookup(rows, k))
    ensures CoverageAccounted(inputs, chain, rows, coverage + Covering(tracked, [slot]))
  {
  }

  /** The resolved block of the slot, if there is one. */
  method RecordAncestry(db: Database, slot: Slot, resolved: map<Slot, Block>) returns (r: Result<()>)
    modifies db
    ensures r.Ok? <==> (slot in resolved ==> RootFree(old(db.View()), slot, resolved[slot].root))
    ensures db.View() == old(db.View()).(blocks := db.blocks)
    ensures OnlySlot(old(db.View()), db.View(), slot) && BlocksFrom(old(db.View()), db.View(), resolved)
    ensures DistinctRoots(old(db.blocks)) ==> DistinctRoots(db.blocks)
    ensures r.Ok? ==> BlockStored(db.View(), slot, resolved)
  {
    r := Ok(());
    if slot in resolved {
      r := db.RecordBlock(slot, resolved[slot].root, resolved[slot].parent);
    }
  }

  ghost predicate BlockStored(t: Tables, slot: Slot, resolved: map<Slot, Block>) {
    slot in resolved ==> slot in t.blocks && t.blocks[slot] == BlockRow(resolved[slot].root, resolved[slot].parent)
  }

  /** Proposal and sync outcomes of the slot, then the attestations of its block. */
  method WriteOutcomes(
    db: Database, inputs: Inputs, slot: Slot, tracked: set<Validator>, active: set<Validator>, duties: EpochDuties,
    resolved: map<Slot, Block>, aggregates: map<Slot, seq<Byte>>, ghost b: Branch, ghost consistent: bool)
    returns (r: Result<()>)
    requires db.spec == inputs.spec && ResolvedBlocks(resolved, b.chain, b.lo) && slot >= b.lo
    requires consistent ==> PartOfAnswers(inputs, b.inputs) && LiveConsistent(b.inputs, b.chain, b.tip, db.View())
    requires consistent ==> slot <= b.tip && CoversDuties(b.inputs, tracked, active, slot)
    modifies db
    ensures consistent ==> LiveConsistent(b.inputs, b.chain, b.tip, db.View())
    ensures db.View()
         == old(db.View()).(attestations := db.attestations, proposals := db.proposals, syncs := db.syncs,
                            jobs := db.jobs)
    ensures JobsAdded(old(db.jobs), db.jobs) && OnlySlot(old(db.View()), db.View(), slot)
    ensures JobsRooted(old(db.jobs), db.jobs, resolved)
    ensures r.Ok? <==> SyncsRead(db.spec, slot, duties, resolved, aggregates)
                       && VotesReadable(inputs, active, slot, resolved, b.lo)
    ensures r.Ok? ==> RowsWritten(db.spec, db.View(), slot, duties, resolved, aggregates)
    ensures consistent && r.Ok? ==> forall k <- b.inputs.duties ::
              k.0 in tracked ==> Accounted(b.inputs, b.chain, k, slot, Lookup(db.attestations, k))
  {
    r := WriteSlotRows(db, slot, duties, resolved, aggregates, b, consistent);
    if r.Ok? {
      ghost var rows := db.attestations;
      r := ScanBlock(db, inputs, tracked, active, slot, resolved, b, consistent);
      if consistent {
        ImprovedKeeps(b.inputs, b.chain, rows, db.attestations, db.coverage);
      }
    }
  }

  /** Coverage, once every tracked duty is accounted for at the slot. */
  method CoverSlot(db: Database, tracked: set<Validator>, slot: Slot, ghost b: Branch, ghost consistent: bool)
    requires consistent ==> slot <= b.tip && LiveConsistent(b.inputs, b.chain, b.tip, db.View())
    requires consistent ==> forall k <- b.inputs.duties ::
               k.0 in tracked ==> Accounted(b.inputs, b.chain, k, slot, Lookup(db.attestations, k))
    modifies db
    ensures consistent ==> LiveConsistent(b.inputs, b.chain, b.tip, db.View())
    ensures db.View() == old(db.View()).(coverage := old(db.coverage) + Covering(tracked, [slot]))
  {
    if consistent {
      CoverageGrows(b.inputs, b.chain, db.attestations, db.coverage, tracked, slot);
    }
    db.RecordCoverage(tracked, slot);
    assert db.coverage == old(db.coverage) + Covering(tracked, [slot]);
  }

  /**
   * Ancestry is saved before any outcome and coverage after every outcome. A covered slot has its votes in
   * the rows and true flags; a failing slot leaves its gap.
   */
  method ProcessSlot(
    db: Database, inputs: Inputs, slot: Slot, tracked: set<Validator>, active: set<Validator>, duties: EpochDuties,
    resolved: map<Slot, Block>, aggregates: map<Slot, seq<Byte>>, ghost b: Branch, ghost consistent: bool)
    returns (r: Result<()>)
    requires db.spec == inputs.spec && ResolvedBlocks(resolved, b.chain, b.lo) && slot >= b.lo
    requires consistent ==> PartOfAnswers(inputs, b.inputs) && LiveConsistent(b.inputs, b.chain, b.tip, db.View())
    requires consistent ==> slot <= b.tip && CoversDuties(b.inputs, tracked, active, slot)
    modifies db
    ensures consistent ==> LiveConsistent(b.inputs, b.chain, b.tip, db.View())
    ensures db.coverage == if r.Ok? then old(db.coverage) + Covering(tracked, [slot]) else old(db.coverage)
    ensures OnlyLiveFields(old(db.View()), db.View()) && BlocksFrom(old(db.View()), db.View(), resolved)
    ensures DistinctRoots(old(db.blocks)) ==> DistinctRoots(db.blocks)
    ensures r.Ok? ==> SlotWritten(db.spec, db.View(), slot, duties, resolved, aggregates)
    ensures OnlySlot(old(db.View()), db.View(), slot)
    ensures r.Ok? <==>
      && (slot in resolved ==> RootFree(old(db.View()), slot, resolved[slot].root))
      && SyncsRead(db.spec, slot, duties, resolved, aggregates)
      && VotesReadable(inputs, active, slot, resolved, b.lo) && duties.complete
  {
    var recorded := RecordAncestry(db, slot, resolved);
    if recorded.Err? {
      return recorded;
    }
    var written := WriteOutcomes(db, inputs, slot, tracked, active, duties, resolved, aggregates, b, consistent);
    if written.Err? {
      return written;
    }
    if !duties.complete {
      return Err(BeaconDataUnavailable);
    }
    CoverSlot(db, tracked, slot, b, consistent);
    return Ok(());
  }

  // ---- A whole head scan ----

  function RecentlyActive(t: Tables, tracked: set<Validator>, epoch: Epoch): set<Validator> {
    ActiveValidatorsAt(t, tracked, epoch) + if epoch > 0 then ActiveValidatorsAt(t, tracked, epoch - 1) else {}
  }

  lemma RecentlyActiveSuffices(inputs: Inputs, t: Tables, tracked: set<Validator>, slot: Slot)
    requires DutiesActive(inputs, t.validators)
    ensures CoversDuties(inputs, tracked, RecentlyActive(t, tracked, EpochOf(inputs.spec, slot)), slot)
  {
  }

  method LowestSlot(resolved: map<Slot, Block>, ghost b: Branch) returns (lowest: Slot)
    requires ResolvedBlocks(resolved, b.chain, b.lo)
    ensures lowest == b.lo
  {
    lowest :| lowest in resolved;
    var pending := resolved.Keys;
    while pending != {}
      invariant pending <= resolved.Keys && lowest in resolved
      invariant forall s <- resolved :: s in pending || lowest <= s
    {
      var s :| s in pending;
      pending := pending - {s};
      if s < lowest {
        lowest := s;
      }
    }
    assert b.lo in resolved;
  }

  /** Assignments once per epoch; an epoch whose assignments failed has none. */
  type Fetched = map<Epoch, Option<EpochDuties>>

  ghost predicate Descending(slots: seq<Slot>) {
    forall i, j :: 0 <= i < j < |slots| ==> slots[i] > slots[j]
  }

  /** A slot of the epoch other than genesis is among the slots, so its assignments are asked for. */
  ghost predicate Asked(spec: Spec, slots: seq<Slot>, epoch: Epoch) {
    exists s <- slots :: s > 0 && EpochOf(spec, s) == epoch
  }

  lemma AskedByNewest(spec: Spec, slots: seq<Slot>, i: nat)
    requires Descending(slots) && i < |slots|
    requires forall j :: 0 <= j < i ==> EpochOf(spec, slots[j]) != EpochOf(spec, slots[i])
    ensures Asked(spec, slots, EpochOf(spec, slots[i])) <==> slots[i] > 0
  {
    if Asked(spec, slots, EpochOf(spec, slots[i])) {
      var s :| s in slots && s > 0 && EpochOf(spec, s) == EpochOf(spec, slots[i]);
      var j :| 0 <= j < |slots| && slots[j] == s;
    }
  }

  /** The assignments of an epoch, None when an input was wrong. */
  ghost predicate FetchedFor(
    spec: Spec, node: Node, active: set<Validator>, epoch: Epoch, asked: bool, duties: Option<EpochDuties>)
  {
    if !asked || active == {} then duties == Some(EpochDuties(true, map[], map[]))
    else
      && (duties.Some? <==> Assignable(spec, node, active, epoch))
      && (duties.Some? ==> DutiesAre(spec, node, active, epoch, duties.value))
  }

  /** Every active validator has its duty row. */
  ghost predicate RowsSeeded(
    node: Node, active: set<Validator>, epoch: Epoch, asked: bool, duties: Option<EpochDuties>,
    rows: map<Pair, AttestationRow>)
  {
    asked && duties.Some? && Answer(node.attesters, epoch).Ok? ==> forall v <- active :: (v, epoch) in rows
  }

  /** Each epoch of the slots has been fetched, and nothing else. */
  ghost predicate AllFetched(
    spec: Spec, node: Node, tracked: set<Validator>, t: Tables, slots: seq<Slot>, fetched: Fetched,
    rows: map<Pair, AttestationRow>)
  {
    forall e <- fetched ::
      && (exists s <- slots :: EpochOf(spec, s) == e)
      && FetchedFor(spec, node, ActiveValidatorsAt(t, tracked, e), e, Asked(spec, slots, e), fetched[e])
      && RowsSeeded(node, ActiveValidatorsAt(t, tracked, e), e, Asked(spec, slots, e), fetched[e], rows)
  }

  lemma FetchedAt(
    spec: Spec, node: Node, tracked: set<Validator>, t: Tables, slots: seq<Slot>, fetched: Fetched,
    rows: map<Pair, AttestationRow>, slot: Slot)
    requires AllFetched(spec, node, tracked, t, slots, fetched, rows) && EpochOf(spec, slot) in fetched
    ensures var e := EpochOf(spec, slot);
      && FetchedFor(spec, node, ActiveValidatorsAt(t, tracked, e), e, Asked(spec, slots, e), fetched[e])
      && RowsSeeded(node, ActiveValidatorsAt(t, tracked, e), e, Asked(spec, slots, e), fetched[e], rows)
  {
  }

  lemma MoreFetched(
    spec: Spec, node: Node, tracked: set<Validator>, t: Tables, slots: seq<Slot>, fetched: Fetched,
    rows: map<Pair, AttestationRow>, more: map<Pair, AttestationRow>, slot: Slot, duties: Option<EpochDuties>)
    requires AllFetched(spec, node, tracked, t, slots, fetched, rows) && rows.Keys <= more.Keys && slot in slots
    requires var e := EpochOf(spec, slot);
      && FetchedFor(spec, node, ActiveValidatorsAt(t, tracked, e), e, Asked(spec, slots, e), duties)
      && RowsSeeded(node, ActiveValidatorsAt(t, tracked, e), e, Asked(spec, slots, e), duties, more)
    ensures AllFetched(spec, node, tracked, t, slots, fetched[EpochOf(spec, slot) := duties], more)
  {
  }

  /** The assignments of one slot's epoch, with the error that kept them back. */
  method FetchEpoch(
    db: Database, node: Node, tracked: set<Validator>, slot: Slot, ghost b: Branch, ghost consistent: bool)
    returns (duties: Option<EpochDuties>, error: Option<Error>)
    requires consistent ==> RowsExplained(b.inputs, b.chain, db.attestations)
    requires consistent ==> CoverageAccounted(b.inputs, b.chain, db.attestations, db.coverage)
    modifies db
    ensures OnlyAttestations(old(db.View()), db.View())
    ensures consistent ==> RowsExplained(b.inputs, b.chain, db.attestations)
    ensures consistent ==> CoverageAccounted(b.inputs, b.chain, db.attestations, db.coverage)
    ensures duties.Some? <==> error.None?
    ensures var (e, active) := (EpochOf(db.spec, slot),
                                ActiveValidatorsAt(old(db.View()), tracked, EpochOf(db.spec, slot)));
      && FetchedFor(db.spec, node, active, e, slot > 0, duties)
      && RowsSeeded(node, active, e, slot > 0, duties, db.attestations)
  {
    ghost var rows := db.attestations;
    var fetched := FetchEpochDuties(db, node, tracked, slot, b, consistent);
    if consistent {
      ImprovedKeeps(b.inputs, b.chain, rows, db.attestations, db.coverage);
    }
    if fetched.Err? {
      return None, Some(fetched.error);
    }
    return Some(fetched.value), None;
  }

  method FetchAll(
    db: Database, node: Node, tracked: set<Validator>, slots: seq<Slot>,
    ghost b: Branch, ghost consistent: bool)
    returns (fetched: Fetched, error: Option<Error>)
    requires Descending(slots)
    requires consistent ==> RowsExplained(b.inputs, b.chain, db.attestations)
    requires consistent ==> CoverageAccounted(b.inputs, b.chain, db.attestations, db.coverage)
    modifies db
    ensures OnlyAttestations(old(db.View()), db.View())
    ensures consistent ==> RowsExplained(b.inputs, b.chain, db.attestations)
    ensures consistent ==> CoverageAccounted(b.inputs, b.chain, db.attestations, db.coverage)
    ensures forall s <- slots :: EpochOf(db.spec, s) in fetched
    ensures AllFetched(db.spec, node, tracked, old(db.View()), slots, fetched, db.attestations)
    ensures error.None? <==> forall e <- fetched :: fetched[e].Some?
  {
    fetched, error := map[], None;
    ghost var t := db.View();
    for i := 0 to |slots|
      invariant OnlyAttestations(t, db.View())
      invariant consistent ==> RowsExplained(b.inputs, b.chain, db.attestations)
      invariant consistent ==> CoverageAccounted(b.inputs, b.chain, db.attestations, db.coverage)
      invariant forall j :: 0 <= j < i ==> EpochOf(db.spec, slots[j]) in fetched
      invariant AllFetched(db.spec, node, tracked, t, slots, fetched, db.attestations)
      invariant error.None? <==> forall e <- fetched :: fetched[e].Some?
    {
      var epoch := EpochOf(db.spec, slots[i]);
      if epoch !in fetched {
        ghost var rows := db.attestations;
        AskedByNewest(db.spec, slots, i);
        var duties, failure := FetchEpoch(db, node, tracked, slots[i], b, consistent);
        if failure.Some? {
          error := Kept(error, failure.value);
        }
        MoreFetched(db.spec, node, tracked, t, slots, fetched, rows, db.attestations, slots[i], duties);
        fetched := fetched[epoch := duties];
      }
    }
  }

  // ---- What a covered slot has, and when a slot can be covered ----

  /**
   * A covered slot: its block is stored; if assignments were asked for, all were answered, every active validator
   * has its duty row, the proposer its proposal row and each member of the sync committee its row.
   */
  ghost predicate SlotRecorded(
    spec: Spec, node: Node, active: set<Validator>, t: Tables, asked: bool, slot: Slot, resolved: map<Slot, Block>,
    aggregates: map<Slot, seq<Byte>>)
  {
    var e := EpochOf(spec, slot);
    && BlockStored(t, slot, resolved)
    && (asked && active != {} ==>
          && AllAnswered(spec, node, e)
          && (forall v <- active :: (v, e) in t.attestations)
          && (forall v :: IsProposer(Answer(node.proposers, e).value, active, slot, v) ==>
                ProposalWritten(t, slot, v, resolved))
          && (e >= spec.altairForkEpoch ==>
                SyncsWritten(spec, t, slot, Answer(node.syncs, e).value, resolved, aggregates)))
  }

  /** The slot can be covered: no input of its epoch is missing or wrong, and its votes and sync bits can be read. */
  ghost predicate SlotScans(
    inputs: Inputs, node: Node, active: set<Validator>, recent: set<Validator>, asked: bool, slot: Slot,
    resolved: map<Slot, Block>, aggregates: map<Slot, seq<Byte>>, lo: Slot)
  {
    var e := EpochOf(inputs.spec, slot);
    && (asked && active != {} ==>
          && Assignable(inputs.spec, node, active, e) && AllAnswered(inputs.spec, node, e)
          && (e >= inputs.spec.altairForkEpoch ==>
                SyncReads(inputs.spec, SyncOf(resolved, aggregates, slot), Answer(node.syncs, e).value)))
    && VotesReadable(inputs, recent, slot, resolved, lo)
  }

  lemma RecordedStays(
    spec: Spec, node: Node, active: set<Validator>, a: Tables, b: Tables, asked: bool, s: Slot, slot: Slot,
    resolved: map<Slot, Block>, aggregates: map<Slot, seq<Byte>>)
    requires SlotRecorded(spec, node, active, a, asked, s, resolved, aggregates) && s != slot && OnlySlot(a, b, slot)
    ensures SlotRecorded(spec, node, active, b, asked, s, resolved, aggregates)
  {
    assert Lookup(b.proposals, s) == Lookup(a.proposals, s) && Lookup(b.blocks, s) == Lookup(a.blocks, s);
    assert forall v: Validator :: Lookup(b.syncs, (v, s)) == Lookup(a.syncs, (v, s));
  }

  lemma WrittenIsRecorded(
    spec: Spec, node: Node, active: set<Validator>, t: Tables, asked: bool, slot: Slot, duties: EpochDuties,
    resolved: map<Slot, Block>, aggregates: map<Slot, seq<Byte>>)
    requires FetchedFor(spec, node, active, EpochOf(spec, slot), asked, Some(duties)) && duties.complete
    requires RowsSeeded(node, active, EpochOf(spec, slot), asked, Some(duties), t.attestations)
    requires SlotWritten(spec, t, slot, duties, resolved, aggregates)
    ensures SlotRecorded(spec, node, active, t, asked, slot, resolved, aggregates)
  {
  }

  /** No resolved root stands at another slot, stored or resolved. */
  ghost predicate RootsFit(blocks: map<Slot, BlockRow>, resolved: map<Slot, Block>) {
    && (forall s <- blocks, x <- resolved :: blocks[s].root == resolved[x].root ==> s == x)
    && (forall s <- resolved, x <- resolved :: resolved[s].root == resolved[x].root ==> s == x)
  }

  lemma FittingRootIsFree(a: Tables, b: Tables, resolved: map<Slot, Block>, slot: Slot)
    requires RootsFit(a.blocks, resolved) && BlocksFrom(a, b, resolved) && slot in resolved
    ensures RootFree(b, slot, resolved[slot].root)
  {
  }

  /**
   * What a head scan of the selected slots did: covered and recorded exactly those that succeeded, which are exactly
   * those that can be scanned when no root is stored elsewhere; no failure means all of them.
   */
  ghost predicate HeadScanned(
    inputs: Inputs, node: Node, tracked: set<Validator>, before: Tables, after: Tables, selected: seq<Slot>,
    covered: seq<Slot>, resolved: map<Slot, Block>, aggregates: map<Slot, seq<Byte>>, lo: Slot, ok: bool)
  {
    && (forall s <- covered :: s in selected)
    && (ok <==> covered == selected)
    && after.coverage == before.coverage + Covering(tracked, covered)
    && RecordedAll(inputs.spec, node, tracked, before, after, selected, covered, resolved, aggregates)
    && (RootsFit(before.blocks, resolved) ==> forall s <- selected ::
          s in covered <==> Scannable(inputs, node, tracked, before, selected, s, resolved, aggregates, lo))
  }

  /**
   * One head scan. Whatever fails, the evidence stays consistent with the chain and exactly the slots that
   * succeeded are covered and recorded; if nothing fails, they are all the selected ones.
   */
  method ProcessHeadScan(
    db: Database, inputs: Inputs, node: Node, tracked: set<Validator>, cursor: Option<Slot>,
    resolved: map<Slot, Block>, aggregates: map<Slot, seq<Byte>>, floor: Slot, target: Slot,
    ghost b: Branch, ghost consistent: bool)
    returns (r: Result<()>, last: Option<Slot>, ghost covered: seq<Slot>)
    requires db.spec == inputs.spec && ResolvedBlocks(resolved, b.chain, b.lo) && NextSlot(cursor) >= b.lo
    requires consistent ==> target <= b.tip && PartOfAnswers(inputs, b.inputs)
    requires consistent ==> LiveConsistent(b.inputs, b.chain, b.tip, db.View())
    modifies db
    ensures consistent ==> LiveConsistent(b.inputs, b.chain, b.tip, db.View())
    ensures OnlyLiveFields(old(db.View()), db.View()) && BlocksFrom(old(db.View()), db.View(), resolved)
    ensures DistinctRoots(old(db.blocks)) ==> DistinctRoots(db.blocks)
    ensures HeadScanned(
      inputs, node, tracked, old(db.View()), db.View(),
      SelectedSlots(db.spec, old(db.View()), tracked, cursor, Max(b.lo, floor), target), covered, resolved, aggregates,
      b.lo, r.Ok?)
    ensures last == Furthest(cursor, covered)
    ensures r.Ok? ==>
      Scanned(db.spec, old(db.View()), tracked, cursor, Max(b.lo, floor), target)
          == (old(db.View()).(coverage := db.coverage), last)
  {
    var lowest := LowestSlot(resolved, b);
    var slots := SelectedSlots(db.spec, db.View(), tracked, cursor, Max(lowest, floor), target);
    SelectedAreResolved(db.spec, db.View(), tracked, cursor, b.lo, floor, target);
    ghost var t := db.View();
    var fetched, error := FetchAll(db, node, tracked, slots, b, consistent);
    ghost var f := db.View();
    SameLifetimes(inputs, node, tracked, t, f, slots, fetched, db.attestations, resolved, aggregates, b.lo);
    r, last, covered := ProcessSlots(db, inputs, node, tracked, cursor, slots, fetched, error, resolved, aggregates, b,
      consistent);
    RecordedSince(db.spec, node, tracked, t, f, db.View(), slots, covered, resolved, aggregates);
    assert slots[..|slots|] == slots;
  }

  lemma SameActive(tracked: set<Validator>, a: Tables, b: Tables)
    requires a.validators == b.validators
    ensures forall e :: ActiveValidatorsAt(a, tracked, e) == ActiveValidatorsAt(b, tracked, e)
    ensures forall e :: RecentlyActive(a, tracked, e) == RecentlyActive(b, tracked, e)
  {
  }

  /** Which validators are active, and so what a scan calls for, is the same in both. */
  lemma SameLifetimes(
    inputs: Inputs, node: Node, tracked: set<Validator>, a: Tables, b: Tables, slots: seq<Slot>, fetched: Fetched,
    rows: map<Pair, AttestationRow>, resolved: map<Slot, Block>, aggregates: map<Slot, seq<Byte>>, lo: Slot)
    requires a.validators == b.validators && AllFetched(inputs.spec, node, tracked, a, slots, fetched, rows)
    ensures AllFetched(inputs.spec, node, tracked, b, slots, fetched, rows)
    ensures forall s :: Scannable(inputs, node, tracked, a, slots, s, resolved, aggregates, lo)
                   <==> Scannable(inputs, node, tracked, b, slots, s, resolved, aggregates, lo)
  {
    SameActive(tracked, a, b);
  }

  lemma RecordedSince(
    spec: Spec, node: Node, tracked: set<Validator>, a: Tables, b: Tables, now: Tables, slots: seq<Slot>,
    covered: seq<Slot>, resolved: map<Slot, Block>, aggregates: map<Slot, seq<Byte>>)
    requires a.validators == b.validators
    requires RecordedAll(spec, node, tracked, b, now, slots, covered, resolved, aggregates)
    ensures RecordedAll(spec, node, tracked, a, now, slots, covered, resolved, aggregates)
  {
    SameActive(tracked, a, b);
  }

  /** Every covered slot has what the assignments of its epoch call for. */
  ghost predicate RecordedAll(
    spec: Spec, node: Node, tracked: set<Validator>, t: Tables, now: Tables, slots: seq<Slot>, covered: seq<Slot>,
    resolved: map<Slot, Block>, aggregates: map<Slot, seq<Byte>>)
  {
    forall s <- covered ::
      SlotRecorded(spec, node, ActiveValidatorsAt(t, tracked, EpochOf(spec, s)), now,
        Asked(spec, slots, EpochOf(spec, s)), s, resolved, aggregates)
  }

  ghost predicate Scannable(
    inputs: Inputs, node: Node, tracked: set<Validator>, t: Tables, slots: seq<Slot>, s: Slot,
    resolved: map<Slot, Block>, aggregates: map<Slot, seq<Byte>>, lo: Slot)
  {
    var e := EpochOf(inputs.spec, s);
    SlotScans(inputs, node, ActiveValidatorsAt(t, tracked, e), RecentlyActive(t, tracked, e),
      Asked(inputs.spec, slots, e), s, resolved, aggregates, lo)
  }

  function Max(a: nat, b: nat): nat {
    if a >= b then a else b
  }

  lemma SelectedAreResolved(
    spec: Spec, t: Tables, tracked: set<Validator>, cursor: Option<Slot>, lo: Slot, floor: Slot, target: Slot)
    requires NextSlot(cursor) >= lo
    ensures forall s <- SelectedSlots(spec, t, tracked, cursor, Max(lo, floor), target) :: lo <= s <= target
    ensures Descending(SelectedSlots(spec, t, tracked, cursor, Max(lo, floor), target))
  {
    var gaps := MissingCoverageSlots(spec, t, tracked, Max(lo, floor), target, 12);
    NewestFacts(MissingSlots(spec, t, tracked, Max(lo, floor), target), target, 12);
    NewestFacts(Range(NextSlot(cursor), target) + Elements(gaps), target, 32);
  }

  /** What slots only add to: blocks and jobs as resolved, duty rows. */
  ghost predicate Grown(a: Tables, b: Tables, resolved: map<Slot, Block>) {
    && OnlyLiveFields(a, b) && BlocksFrom(a, b, resolved) && a.attestations.Keys <= b.attestations.Keys
    && (DistinctRoots(a.blocks) ==> DistinctRoots(b.blocks))
  }

  /** How far the slot loop is: what is stored and covered, and whether anything failed. */
  ghost predicate Progress(
    inputs: Inputs, node: Node, tracked: set<Validator>, t: Tables, now: Tables, slots: seq<Slot>, i: nat,
    covered: seq<Slot>, resolved: map<Slot, Block>, aggregates: map<Slot, seq<Byte>>, lo: Slot)
    requires i <= |slots|
  {
    && Grown(t, now, resolved)
    && now.coverage == t.coverage + Covering(tracked, covered)
    && (forall s <- covered :: s in slots[..i])
    && RecordedAll(inputs.spec, node, tracked, t, now, slots, covered, resolved, aggregates)
    && (RootsFit(t.blocks, resolved) ==>
          forall s <- slots[..i] :: s in covered <==>
            Scannable(inputs, node, tracked, t, slots, s, resolved, aggregates, lo))
  }

  lemma ProgressStep(
    inputs: Inputs, node: Node, tracked: set<Validator>, t: Tables, a: Tables, b: Tables, slots: seq<Slot>, i: nat,
    covered: seq<Slot>, resolved: map<Slot, Block>, aggregates: map<Slot, seq<Byte>>, lo: Slot, ok: bool)
    requires i < |slots| && Descending(slots)
    requires Progress(inputs, node, tracked, t, a, slots, i, covered, resolved, aggregates, lo)
    requires Grown(a, b, resolved) && OnlySlot(a, b, slots[i])
    requires b.coverage == if ok then a.coverage + Covering(tracked, [slots[i]]) else a.coverage
    requires ok ==> RecordedAll(inputs.spec, node, tracked, t, b, slots, [slots[i]], resolved, aggregates)
    requires RootsFit(t.blocks, resolved) ==>
      (ok <==> Scannable(inputs, node, tracked, t, slots, slots[i], resolved, aggregates, lo))
    ensures Progress(
      inputs, node, tracked, t, b, slots, i + 1, if ok then covered + [slots[i]] else covered, resolved, aggregates, lo)
  {
    var slot := slots[i];
    assert slots[..i + 1] == slots[..i] + [slot];
    GrownTwice(t, a, b, resolved);
    CoveringMore(tracked, t.coverage, covered, slot);
    forall s | s in slots[..i] ensures s != slot {
      var j :| 0 <= j < i && slots[j] == s;
    }
    RecordedStep(inputs.spec, node, tracked, t, a, b, slots, covered, slot, resolved, aggregates);
    if ok {
      assert slot in [slot];
    }
  }

  lemma RecordedStep(
    spec: Spec, node: Node, tracked: set<Validator>, t: Tables, a: Tables, b: Tables, slots: seq<Slot>,
    covered: seq<Slot>, slot: Slot, resolved: map<Slot, Block>, aggregates: map<Slot, seq<Byte>>)
    requires RecordedAll(spec, node, tracked, t, a, slots, covered, resolved, aggregates)
    requires slot !in covered && OnlySlot(a, b, slot)
    ensures RecordedAll(spec, node, tracked, t, b, slots, covered, resolved, aggregates)
  {
    forall s | s in covered
      ensures SlotRecorded(spec, node, ActiveValidatorsAt(t, tracked, EpochOf(spec, s)), b,
                Asked(spec, slots, EpochOf(spec, s)), s, resolved, aggregates)
    {
      RecordedStays(spec, node, ActiveValidatorsAt(t, tracked, EpochOf(spec, s)), a, b,
        Asked(spec, slots, EpochOf(spec, s)), s, slot, resolved, aggregates);
    }
  }

  lemma NothingProcessed(
    inputs: Inputs, node: Node, tracked: set<Validator>, t: Tables, slots: seq<Slot>,
    resolved: map<Slot, Block>, aggregates: map<Slot, seq<Byte>>, lo: Slot)
    ensures Progress(inputs, node, tracked, t, t, slots, 0, [], resolved, aggregates, lo)
  {
  }

  /** The slot loop: newest first, past failures. */
  method ProcessSlots(
    db: Database, inputs: Inputs, node: Node, tracked: set<Validator>, cursor: Option<Slot>, slots: seq<Slot>,
    fetched: Fetched, earlier: Option<Error>, resolved: map<Slot, Block>, aggregates: map<Slot, seq<Byte>>,
    ghost b: Branch, ghost consistent: bool)
    returns (r: Result<()>, last: Option<Slot>, ghost covered: seq<Slot>)
    requires db.spec == inputs.spec && ResolvedBlocks(resolved, b.chain, b.lo) && forall s <- slots :: s >= b.lo
    requires consistent ==> (forall s <- slots :: s <= b.tip) && PartOfAnswers(inputs, b.inputs)
    requires consistent ==> LiveConsistent(b.inputs, b.chain, b.tip, db.View())
    requires Descending(slots) && forall s <- slots :: EpochOf(db.spec, s) in fetched
    requires AllFetched(db.spec, node, tracked, db.View(), slots, fetched, db.attestations)
    requires earlier.None? <==> forall e <- fetched :: fetched[e].Some?
    modifies db
    ensures consistent ==> LiveConsistent(b.inputs, b.chain, b.tip, db.View())
    ensures Progress(
      inputs, node, tracked, old(db.View()), db.View(), slots, |slots|, covered, resolved, aggregates, b.lo)
    ensures r.Ok? <==> covered == slots
    ensures last == Furthest(cursor, covered)
  {
    ghost var t := db.View();
    var error;
    error, last, covered := EachSlot(db, inputs, node, tracked, cursor, slots, fetched, earlier, resolved, aggregates,
      b, consistent);
    CoveredLast(db.spec, fetched, slots, covered);
    return AsResult(error), last, covered;
  }

  method EachSlot(
    db: Database, inputs: Inputs, node: Node, tracked: set<Validator>, cursor: Option<Slot>, slots: seq<Slot>,
    fetched: Fetched, earlier: Option<Error>, resolved: map<Slot, Block>, aggregates: map<Slot, seq<Byte>>,
    ghost b: Branch, ghost consistent: bool)
    returns (error: Option<Error>, last: Option<Slot>, ghost covered: seq<Slot>)
    requires db.spec == inputs.spec && ResolvedBlocks(resolved, b.chain, b.lo)
    requires (forall s <- slots :: s >= b.lo)
             && (consistent ==> (forall s <- slots :: s <= b.tip) && PartOfAnswers(inputs, b.inputs))
    requires consistent ==> LiveConsistent(b.inputs, b.chain, b.tip, db.View())
    requires Descending(slots) && forall s <- slots :: EpochOf(db.spec, s) in fetched
    requires AllFetched(db.spec, node, tracked, db.View(), slots, fetched, db.attestations)
    requires earlier.None? ==> forall e <- fetched :: fetched[e].Some?
    modifies db
    ensures consistent ==> LiveConsistent(b.inputs, b.chain, b.tip, db.View())
    ensures Progress(
      inputs, node, tracked, old(db.View()), db.View(), slots, |slots|, covered, resolved, aggregates, b.lo)
    ensures Tallied(db.spec, cursor, slots, fetched, earlier, |slots|, error, last, covered)
  {
    error, last, covered := earlier, cursor, [];
    ghost var t := db.View();
    NothingProcessed(inputs, node, tracked, t, slots, resolved, aggregates, b.lo);
    for i := 0 to |slots|
      invariant consistent ==> LiveConsistent(b.inputs, b.chain, b.tip, db.View())
      invariant Progress(inputs, node, tracked, t, db.View(), slots, i, covered, resolved, aggregates, b.lo)
      invariant Tallied(db.spec, cursor, slots, fetched, earlier, i, error, last, covered)
    {
      error, last, covered := NextSlotOf(db, inputs, node, tracked, cursor, slots, fetched, earlier, resolved,
        aggregates, i, error, last, covered, t, b, consistent);
    }
  }

  /** One turn of the loop. */
  method NextSlotOf(
    db: Database, inputs: Inputs, node: Node, tracked: set<Validator>, ghost cursor: Option<Slot>, slots: seq<Slot>,
    fetched: Fetched, ghost earlier: Option<Error>, resolved: map<Slot, Block>, aggregates: map<Slot, seq<Byte>>,
    i: nat, error: Option<Error>, last: Option<Slot>, ghost covered: seq<Slot>,
    ghost t: Tables, ghost b: Branch, ghost consistent: bool)
    returns (newError: Option<Error>, newLast: Option<Slot>, ghost newCovered: seq<Slot>)
    requires db.spec == inputs.spec && ResolvedBlocks(resolved, b.chain, b.lo) && i < |slots|
    requires (forall s <- slots :: s >= b.lo)
             && (consistent ==> (forall s <- slots :: s <= b.tip) && PartOfAnswers(inputs, b.inputs))
    requires consistent ==> LiveConsistent(b.inputs, b.chain, b.tip, db.View())
    requires Descending(slots) && forall s <- slots :: EpochOf(db.spec, s) in fetched
    requires AllFetched(db.spec, node, tracked, t, slots, fetched, t.attestations)
    requires earlier.None? ==> forall e <- fetched :: fetched[e].Some?
    requires Progress(inputs, node, tracked, t, db.View(), slots, i, covered, resolved, aggregates, b.lo)
    requires Tallied(db.spec, cursor, slots, fetched, earlier, i, error, last, covered)
    modifies db
    ensures consistent ==> LiveConsistent(b.inputs, b.chain, b.tip, db.View())
    ensures Progress(inputs, node, tracked, t, db.View(), slots, i + 1, newCovered, resolved, aggregates, b.lo)
    ensures Tallied(db.spec, cursor, slots, fetched, earlier, i + 1, newError, newLast, newCovered)
  {
    assert slots[i] in slots;
    var duties := fetched[EpochOf(db.spec, slots[i])];
    FetchedAt(db.spec, node, tracked, t, slots, fetched, t.attestations, slots[i]);
    var result := TrySlot(db, inputs, node, slots[i], tracked, duties, resolved, aggregates, t, slots, i, covered, b,
      consistent);
    newError, newLast, newCovered :=
      Tally(db.spec, cursor, slots, fetched, earlier, i, error, last, covered, result);
  }

  /** The cursor is at the furthest covered slot, and no error means that every slot so far is covered. */
  ghost predicate Tallied(
    spec: Spec, cursor: Option<Slot>, slots: seq<Slot>, fetched: Fetched, earlier: Option<Error>, i: nat,
    error: Option<Error>, last: Option<Slot>, covered: seq<Slot>)
    requires i <= |slots| && forall s <- slots :: EpochOf(spec, s) in fetched
  {
    && (error.None? <==> earlier.None? && |covered| == i)
    && CoveredOf(spec, fetched, slots, i, covered)
    && last == Furthest(cursor, covered)
  }

  /** The cursor and the error kept after one more slot. */
  method Tally(
    spec: Spec, ghost cursor: Option<Slot>, slots: seq<Slot>, ghost fetched: Fetched, ghost earlier: Option<Error>,
    i: nat, error: Option<Error>, last: Option<Slot>, ghost covered: seq<Slot>, result: Option<Result<()>>)
    returns (newError: Option<Error>, newLast: Option<Slot>, ghost newCovered: seq<Slot>)
    requires i < |slots| && forall s <- slots :: EpochOf(spec, s) in fetched
    requires Tallied(spec, cursor, slots, fetched, earlier, i, error, last, covered)
    requires result.Some? <==> fetched[EpochOf(spec, slots[i])].Some?
    requires earlier.None? ==> result.Some?
    ensures newCovered == if result.Some? && result.value.Ok? then covered + [slots[i]] else covered
    ensures Tallied(spec, cursor, slots, fetched, earlier, i + 1, newError, newLast, newCovered)
  {
    newError, newLast, newCovered := error, last, covered;
    CoveredStep(spec, fetched, slots, i, covered);
    if result.Some? && result.value.Ok? {
      newLast := if last.Some? && last.value >= slots[i] then last else Some(slots[i]);
      FurthestMore(cursor, covered, slots[i]);
      newCovered := covered + [slots[i]];
    } else if result.Some? {
      newError := Kept(error, result.value.error);
    }
  }

  /** Covered slots are of the first `i`, all of them if as many, and of epochs with assignments. */
  ghost predicate CoveredOf(spec: Spec, fetched: Fetched, slots: seq<Slot>, i: nat, covered: seq<Slot>)
    requires i <= |slots| && forall s <- slots :: EpochOf(spec, s) in fetched
  {
    && |covered| <= i && (|covered| == i ==> covered == slots[..i])
    && forall s <- covered :: s in slots && fetched[EpochOf(spec, s)].Some?
  }

  lemma CoveredStep(spec: Spec, fetched: Fetched, slots: seq<Slot>, i: nat, covered: seq<Slot>)
    requires i < |slots| && (forall s <- slots :: EpochOf(spec, s) in fetched)
    requires CoveredOf(spec, fetched, slots, i, covered)
    ensures slots[i] in slots && CoveredOf(spec, fetched, slots, i + 1, covered)
    ensures fetched[EpochOf(spec, slots[i])].Some? ==> CoveredOf(spec, fetched, slots, i + 1, covered + [slots[i]])
  {
    assert slots[..i + 1] == slots[..i] + [slots[i]];
  }

  lemma CoveredLast(spec: Spec, fetched: Fetched, slots: seq<Slot>, covered: seq<Slot>)
    requires forall s <- slots :: EpochOf(spec, s) in fetched
    requires CoveredOf(spec, fetched, slots, |slots|, covered)
    requires forall e <- fetched :: exists s <- slots :: EpochOf(spec, s) == e
    ensures covered == slots <==> |covered| == |slots| && forall e <- fetched :: fetched[e].Some?
  {
    assert slots[..|slots|] == slots;
    if e :| e in fetched && fetched[e].None? {
      var s :| s in slots && EpochOf(spec, s) == e;
      assert s !in covered;
    }
  }

  lemma CoveringMore(tracked: set<Validator>, coverage: set<(Validator, Slot)>, covered: seq<Slot>, slot: Slot)
    ensures coverage + Covering(tracked, covered) + Covering(tracked, [slot])
        == coverage + Covering(tracked, covered + [slot])
  {
  }

  lemma FurthestMore(cursor: Option<Slot>, covered: seq<Slot>, slot: Slot)
    ensures var last := Furthest(cursor, covered);
      Furthest(cursor, covered + [slot]) == if last.Some? && last.value >= slot then last else Some(slot)
  {
    assert (covered + [slot])[..|covered|] == covered;
  }

  lemma GrownTwice(a: Tables, b: Tables, c: Tables, resolved: map<Slot, Block>)
    requires Grown(a, b, resolved) && Grown(b, c, resolved)
    ensures Grown(a, c, resolved)
  {
    BlocksFromTwice(a, b, c, resolved);
  }

  lemma BlocksFromTwice(a: Tables, b: Tables, c: Tables, resolved: map<Slot, Block>)
    requires BlocksFrom(a, b, resolved) && BlocksFrom(b, c, resolved) && JobsAdded(b.jobs, c.jobs)
    ensures BlocksFrom(a, c, resolved)
  {
    forall s | s in c.blocks
      ensures (s in a.blocks && c.blocks[s] == a.blocks[s])
           || (s in resolved && c.blocks[s] == BlockRow(resolved[s].root, resolved[s].parent))
    {
      if s in b.blocks && c.blocks[s] == b.blocks[s] {
        assert (s in a.blocks && b.blocks[s] == a.blocks[s])
            || (s in resolved && b.blocks[s] == BlockRow(resolved[s].root, resolved[s].parent));
      }
    }
    forall j | j in c.jobs && j !in a.jobs
      ensures !j.AttestationJob? && j.slot in resolved
      ensures c.jobs[j] == Job(Some(resolved[j.slot].root), None, Pending, None)
    {
      assert j in b.jobs ==> c.jobs[j] == b.jobs[j];
    }
  }

  /** A slot whose epoch has no assignments is passed over; its error was reported when they were fetched. */
  method TrySlot(
    db: Database, inputs: Inputs, node: Node, slot: Slot, tracked: set<Validator>, duties: Option<EpochDuties>,
    resolved: map<Slot, Block>, aggregates: map<Slot, seq<Byte>>,
    ghost t: Tables, ghost slots: seq<Slot>, ghost i: nat, ghost covered: seq<Slot>, ghost b: Branch,
    ghost consistent: bool)
    returns (result: Option<Result<()>>)
    requires db.spec == inputs.spec && ResolvedBlocks(resolved, b.chain, b.lo) && slot >= b.lo
    requires consistent ==> slot <= b.tip && PartOfAnswers(inputs, b.inputs)
    requires consistent ==> LiveConsistent(b.inputs, b.chain, b.tip, db.View())
    requires i < |slots| && slot == slots[i] && Descending(slots)
    requires Progress(inputs, node, tracked, t, db.View(), slots, i, covered, resolved, aggregates, b.lo)
    requires var (e, active) := (EpochOf(db.spec, slot), ActiveValidatorsAt(t, tracked, EpochOf(db.spec, slot)));
      && FetchedFor(db.spec, node, active, e, Asked(db.spec, slots, e), duties)
      && RowsSeeded(node, active, e, Asked(db.spec, slots, e), duties, t.attestations)
    modifies db
    ensures result.Some? <==> duties.Some?
    ensures consistent ==> LiveConsistent(b.inputs, b.chain, b.tip, db.View())
    ensures var ok := result.Some? && result.value.Ok?;
      Progress(inputs, node, tracked, t, db.View(), slots, i + 1, if ok then covered + [slot] else covered,
        resolved, aggregates, b.lo)
  {
    ghost var (before, e) := (db.View(), EpochOf(db.spec, slot));
    ghost var (active, asked) := (ActiveValidatorsAt(t, tracked, e), Asked(db.spec, slots, e));
    if duties.None? {
      NotScannable(inputs, node, tracked, t, before, slots, i, covered, resolved, aggregates, b.lo);
      return None;
    }
    var recent := RecentlyActive(db.View(), tracked, EpochOf(db.spec, slot));
    SameActive(tracked, t, before);
    if consistent {
      RecentlyActiveSuffices(b.inputs, before, tracked, slot);
    }
    var r := ProcessSlot(db, inputs, slot, tracked, recent, duties.value, resolved, aggregates, b, consistent);
    TriedSlot(inputs, node, tracked, t, before, db.View(), slots, i, covered, duties.value, resolved, aggregates, b.lo,
      r.Ok?);
    return Some(r);
  }

  lemma NotScannable(
    inputs: Inputs, node: Node, tracked: set<Validator>, t: Tables, now: Tables, slots: seq<Slot>, i: nat,
    covered: seq<Slot>, resolved: map<Slot, Block>, aggregates: map<Slot, seq<Byte>>, lo: Slot)
    requires i < |slots| && Descending(slots)
    requires Progress(inputs, node, tracked, t, now, slots, i, covered, resolved, aggregates, lo)
    requires var e := EpochOf(inputs.spec, slots[i]);
      FetchedFor(inputs.spec, node, ActiveValidatorsAt(t, tracked, e), e, Asked(inputs.spec, slots, e), None)
    ensures Progress(inputs, node, tracked, t, now, slots, i + 1, covered, resolved, aggregates, lo)
  {
    ProgressStep(inputs, node, tracked, t, now, now, slots, i, covered, resolved, aggregates, lo, false);
  }

  lemma TriedSlot(
    inputs: Inputs, node: Node, tracked: set<Validator>, t: Tables, a: Tables, b: Tables, slots: seq<Slot>, i: nat,
    covered: seq<Slot>, duties: EpochDuties, resolved: map<Slot, Block>, aggregates: map<Slot, seq<Byte>>, lo: Slot,
    ok: bool)
    requires i < |slots| && Descending(slots)
    requires Progress(inputs, node, tracked, t, a, slots, i, covered, resolved, aggregates, lo)
    requires Grown(a, b, resolved) && OnlySlot(a, b, slots[i])
    requires b.coverage == if ok then a.coverage + Covering(tracked, [slots[i]]) else a.coverage
    requires var (e, active) := (EpochOf(inputs.spec, slots[i]),
                                 ActiveValidatorsAt(t, tracked, EpochOf(inputs.spec, slots[i])));
      && FetchedFor(inputs.spec, node, active, e, Asked(inputs.spec, slots, e), Some(duties))
      && RowsSeeded(node, active, e, Asked(inputs.spec, slots, e), Some(duties), t.attestations)
    requires ok ==> SlotWritten(inputs.spec, b, slots[i], duties, resolved, aggregates)
    requires ok <==>
      && (slots[i] in resolved ==> RootFree(a, slots[i], resolved[slots[i]].root))
      && SyncsRead(inputs.spec, slots[i], duties, resolved, aggregates)
      && VotesReadable(inputs, RecentlyActive(t, tracked, EpochOf(inputs.spec, slots[i])), slots[i], resolved, lo)
      && duties.complete
    ensures Progress(
      inputs, node, tracked, t, b, slots, i + 1, if ok then covered + [slots[i]] else covered, resolved, aggregates, lo)
  {
    var (slot, e) := (slots[i], EpochOf(inputs.spec, slots[i]));
    if ok {
      WrittenIsRecorded(inputs.spec, node, ActiveValidatorsAt(t, tracked, e), b, Asked(inputs.spec, slots, e), slot,
        duties, resolved, aggregates);
    }
    if RootsFit(t.blocks, resolved) && slot in resolved {
      FittingRootIsFree(t, a, resolved, slot);
    }
    ProgressStep(inputs, node, tracked, t, a, b, slots, i, covered, resolved, aggregates, lo, ok);
  }

  /** A full window accounts for every one of its slots. */
  lemma WindowIsAccounted(inputs: Inputs, chain: Canonical, tip: Slot, t: Tables, k: Pair)
    requires LiveConsistent(inputs, chain, tip, t) && k in inputs.duties && k in t.attestations
    requires Promotion.WindowCounted(inputs.spec, t, k)
    ensures Explained(inputs, chain, k, t.attestations[k])
    ensures forall s :: EpochStart(inputs.spec, k.1) <= s < EpochStart(inputs.spec, k.1 + 2) ==>
      Accounted(inputs, chain, k, s, Some(t.attestations[k]))
  {
    Promotion.CountMeansEverySlot(inputs.spec, t, k);
    forall s | EpochStart(inputs.spec, k.1) <= s < EpochStart(inputs.spec, k.1 + 2)
      ensures Accounted(inputs, chain, k, s, Some(t.attestations[k]))
    {
      assert (k.0, s) in t.coverage;
      assert Accounted(inputs, chain, k, s, Lookup(t.attestations, k));
    }
  }

  /** What coverage is for: a provisional row whose whole window is covered is the reference outcome, miss included. */
  lemma CoveredRowIsExpected(inputs: Inputs, chain: Canonical, tip: Slot, t: Tables, k: Pair)
    requires LiveConsistent(inputs, chain, tip, t)
    requires k in inputs.duties && k.1 in inputs.committees && SeatedAt(inputs.committees[k.1], inputs.duties[k])
    requires k in t.attestations && !t.attestations[k].finalized && Promotion.WindowCounted(inputs.spec, t, k)
    ensures ShowsOutcome(
      t.attestations[k], Expected(EpochView(inputs.spec, k.1, inputs.committees[k.1]), chain, inputs.duties[k]))
  {
    WindowIsAccounted(inputs, chain, tip, t, k);
    AccountedRowIsExpected(inputs, chain, k, t.attestations[k]);
  }

  /** Every provisional duty row whose whole window is covered is the reference outcome on the branch. */
  ghost predicate CoveredRowsAreExpected(b: Branch, t: Tables) {
    forall k <- b.inputs.duties ::
      k.1 in b.inputs.committees && SeatedAt(b.inputs.committees[k.1], b.inputs.duties[k])
      && k in t.attestations && !t.attestations[k].finalized && Promotion.WindowCounted(b.inputs.spec, t, k) ==>
        ShowsOutcome(t.attestations[k],
          Expected(EpochView(b.inputs.spec, k.1, b.inputs.committees[k.1]), b.chain, b.inputs.duties[k]))
  }

  ghost predicate ShowsOutcome(row: AttestationRow, expected: Performance) {
    row.details == expected.details && (row.details.included ==> Performed(row.details, row.marks) == expected)
  }

  lemma ConsistentRowsAreExpected(b: Branch, t: Tables)
    requires LiveConsistent(b.inputs, b.chain, b.tip, t)
    ensures CoveredRowsAreExpected(b, t)
  {
    forall k | k in b.inputs.duties && k.1 in b.inputs.committees
        && SeatedAt(b.inputs.committees[k.1], b.inputs.duties[k])
               && k in t.attestations && !t.attestations[k].finalized && Promotion.WindowCounted(b.inputs.spec, t, k)
      ensures ShowsOutcome(t.attestations[k],
                           Expected(EpochView(b.inputs.spec, k.1, b.inputs.committees[k.1]), b.chain,
                             b.inputs.duties[k]))
    {
      CoveredRowIsExpected(b.inputs, b.chain, b.tip, t, k);
    }
  }
}
