/** The three attestation pipelines write the same outcome. */
module Agreement {
  import opened Wrappers
  import opened Chain
  import opened Attestations
  import opened Rows
  import opened Outcome
  import opened Tables
  import opened Dense
  import opened Sparse
  import opened LiveScan
  import opened LiveSlot
  import opened SlotScan
  import Promotion

  /**
   * Dense, sparse and live rows of one duty on one chain: same inclusion, same slots and delays, same head
   * and target marks. On a miss the sparse row still carries the delay its reward response reported.
   */
  lemma ThreePipelinesAgree(
    inputs: Inputs, chain: Canonical, k: Pair, dense: DutyWrite, sparse: DutyWrite, reward: Outcome.Reward,
    live: AttestationRow)
    requires k in inputs.duties && k.1 in inputs.committees && WellAssigned(inputs) && VotesPrecedeBlocks(chain)
    requires SeatedAt(inputs.committees[k.1], inputs.duties[k]) && dense.duty == sparse.duty == inputs.duties[k]
    requires MatchesReference(EpochView(inputs.spec, k.1, inputs.committees[k.1]), chain, dense)
    requires MatchesReported(EpochView(inputs.spec, k.1, inputs.committees[k.1]), chain, sparse, reward)
    requires !live.finalized && Explained(inputs, chain, k, live)
    requires forall s :: EpochStart(inputs.spec, k.1) <= s < EpochStart(inputs.spec, k.1 + 2) ==>
      Accounted(inputs, chain, k, s, Some(live))
    ensures live.details == dense.write.details
    ensures live.details.included ==>
      Performed(live.details, live.marks) == Performed(dense.write.details, dense.write.marks)
        == Performed(sparse.write.details, sparse.write.marks)
    ensures !live.details.included ==>
      && dense.write.marks.head.None? && dense.write.marks.target.None?
      && sparse.write.marks.head.None? && sparse.write.marks.target.None?
      && sparse.write.details == dense.write.details.(delay := reward.inclusionDelay)
  {
    AccountedRowIsExpected(inputs, chain, k, live);
    EarliestHitIsLeast(EpochView(inputs.spec, k.1, inputs.committees[k.1]), chain, k.0,
                       EpochStart(inputs.spec, k.1), EpochStart(inputs.spec, k.1 + 2));
  }

  /**
   * So a covered provisional row that the live worker gathered poll by poll, as the head grew and switched branches,
   * is what either archive scan of the finished epoch writes on the branch the evidence stands on.
   */
  lemma CoveredRowIsArchived(b: Branch, t: Tables, k: Pair, dense: DutyWrite, sparse: DutyWrite, reward: Outcome.Reward)
    requires LiveConsistent(b.inputs, b.chain, b.tip, t) && k in b.inputs.duties && k.1 in b.inputs.committees
    requires k in t.attestations && !t.attestations[k].finalized && Promotion.WindowCounted(b.inputs.spec, t, k)
    requires SeatedAt(b.inputs.committees[k.1], b.inputs.duties[k]) && dense.duty == sparse.duty == b.inputs.duties[k]
    requires MatchesReference(EpochView(b.inputs.spec, k.1, b.inputs.committees[k.1]), b.chain, dense)
    requires MatchesReported(EpochView(b.inputs.spec, k.1, b.inputs.committees[k.1]), b.chain, sparse, reward)
    ensures var live := t.attestations[k];
      && live.details == dense.write.details
      && (live.details.included ==>
            Performed(live.details, live.marks) == Performed(dense.write.details, dense.write.marks)
              == Performed(sparse.write.details, sparse.write.marks))
      && (!live.details.included ==> sparse.write.details == live.details.(delay := reward.inclusionDelay))
  {
    WindowIsAccounted(b.inputs, b.chain, b.tip, t, k);
    ThreePipelinesAgree(b.inputs, b.chain, k, dense, sparse, reward, t.attestations[k]);
  }
}
