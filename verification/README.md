# Verification of the duty indexer

The indexer watches a proof-of-stake chain through one beacon node and stores, for every tracked validator, what
became of its attestation, block-proposal and sync-committee duties. Two workers write the same tables. The live
worker follows the head, writes provisional rows, rolls them back after a reorg and promotes them once finality
confirms the blocks they came from. The archive worker scans finalized epochs, either densely (every block of a
two-epoch window) or sparsely (forward from each duty), and writes final rows. This project models both workers, the
store they share and the algorithms that derive a row, and proves what those rows may be trusted for.

`dafny verify dfyconfig.toml` checks everything.

## What is modelled, module by module

- `Chain`: slots, epochs, and the chain constants; every theorem holds for every positive epoch length.
- `Bits`, `Attestations`: SSZ bit decoding, committee resolution for both attestation encodings, the attesting set.
- `Outcome`: one canonical chain as a block per occupied slot, and the reference outcome of a duty on it.
- `Dense`, `Sparse`, `LiveScan`, `LiveSlot`, `Agreement`: the three pipelines, each proved against that reference,
  and their agreement.
- `Rows`: one attestation row under the guarded upsert, the reward join and the finalized repair.
- `Tables`, `Promotion`, `Store`: the tables as one value; each SQL statement or transaction as a function of it; and
  the database as a class whose methods carry the statements out.
- `Settling`, `Completing`: what a promotion does row by row, and what it asks of the rows it freezes and of the pairs
  it completes, read off its outcome.
- `Safety`: the two workers as a state machine, one action per statement or transaction, and what every run of it keeps.
- `Ancestry`, `Freezing`: the block tree, confirmed ancestry, and exactly when a row that finality freezes is true,
  with runs of the two workers in which one is not.
- `Pruning`, `Retention`: pruning is invisible to later promotions, given what the collectors store.
- `HeadScan`, `SlotScan`, `ChainWalk`, `Reorg`: slot selection, one slot, the parent walk, rollback.
- `Consistency`, `Upkeep`, `Unnoticed`: live evidence that agrees with one chain, carried to a longer chain, through a
  rollback and past every other statement, with the exact condition and a branch change that goes unnoticed.
- `RewardJobs`, `Reconcile`, `LiveWorker`: reward collection, finality, a whole poll, and the loop of polls.
- `Backfill`, `SyncCommittee`, `InputCache`: the backfill loop, sync accounting, the anchored input cache.

A method that mirrors a source loop is proved against a specification; lemmas then say what the specification means.
Clocks, the network and the node's answers are parameters: `Inputs`, `Node`, `Poll`, `Served`, `Snapshot`, and the
functions `scan` and `finality` of the backfill.

Facts a valid chain and its assignments provide are premises of the theorems that need them, never preconditions of
the scanning methods: an attestation's slot precedes its block (`VotesPrecedeBlocks`), an assigned duty lies in its
epoch (`WellAssigned`) and belongs to an active validator (`DutiesActive`), a validator sits in committees of its duty
slot only (`SeatedAt`), a parent's slot is lower than its child's (`WellFormed`).

## Where the code does not do what one would expect

- On a miss, a sparse row keeps the inclusion delay its reward response reports, so its raw delay differs from a dense
  row exactly then (`Sparse.DenseAndSparseAgree`; src/scanner/attestations/sparse.rs:40-73).
- The completion loop of a promotion freezes proposal and sync rows without looking at their slots again. A frozen row
  is true if and only if its flag agrees with whether a confirmed block is stored in its slot
  (`Ancestry.FrozenProposalIsTrueIff`, `Ancestry.FrozenSyncIsTrueIff`), and `Freezing.ReadyLoopCanFreezeAFalseMiss` is a
  run from empty tables that freezes a miss in an occupied slot (src/live/finalization.rs:286-302).
- The comment at src/live/finalization.rs:176-178 calls an observed inclusion a complete fact once its block is
  finalized, and the promotion makes the row final then, while earlier slots of the window may still be gaps; live scans
  of those slots are refused afterwards. The frozen row is the reference outcome if and only if no earlier block of the
  window carries the vote (`Freezing.FrozenAttestationIsTrueIff`), and `Freezing.InclusionCanFreezeTooEarly` is a run
  that ends with the later of two inclusions.
- The comment at src/backfill.rs:104-112 says that extension re-reads finality after catching up. It does so if and only
  if something is left to scan contiguously at or before the first target, which after a non-contiguous sweep takes a
  validator whose lifetime does not reach that target (`Backfill.RunBackfill`); `Backfill.SweepStopsShort` is a run that
  ends seven epochs early. When a swept run is extended, pairs between the first target and a watermark that already
  lay past it are not taken, and exactly those are missed (`Backfill.SkippedByWatermark`).
- A cached input anchored to the boundary block makes every later request fail with "not found", instead of being
  refetched, once the chain skips that boundary slot (`InputCache.StillCurrent`; src/beacon_client/inputs.rs:68-75).
  Clearing memory after a reorg does not help, because the durable table keeps the entry.
- A poll notices a branch change only where a stored block left the chain. Slots past the newest stored block that were
  covered as skipped may hold blocks on the new branch (src/live/mod.rs:163-173). The evidence then stands on the new
  branch if and only if none of those blocks matters (`Unnoticed.UnnoticedChange`), which holds when every slot it
  speaks of that is occupied there is stored; `Unnoticed.FilledSlotGoesUnnoticed` is a branch change that leaves a false
  miss.

## Model

| member | source | states |
|---|---|---|
| Bits.DecodeBitlist | src/scanner/bits.rs:17-48 | Refuses exactly the empty input and a zero last byte; otherwise returns the bits below the sentinel. |
| Bits.DecodeBitvector | src/scanner/bits.rs:50-62 | Eight bits a byte, least significant first, for every input. |
| Bits.BitlistRoundTrip | src/scanner/bits.rs:17-48 | Every bit sequence, encoded as an SSZ bitlist and decoded, returns itself. |
| Bits.BitlistCanonical | src/scanner/bits.rs:17-48 | Every accepted byte sequence re-encodes to itself. |
| Bits.BitvectorRoundTrip | src/scanner/bits.rs:50-62 | Every whole-byte bit sequence survives encoding and decoding. |
| Bits.BitvectorCanonical | src/scanner/bits.rs:50-62 | Every byte sequence survives decoding and encoding. |
| Attestations.BuildCommitteeMap | src/scanner/attestations/decode.rs:42-52 | Keys are exactly the listed (slot, index) pairs; a repeated key keeps its last committee. |
| Attestations.ResolvePreElectra | src/scanner/attestations/decode.rs:125-158 | Succeeds exactly on a known committee of matching size; one committee at offset 0 tiles the bits. |
| Attestations.ResolveElectra | src/scanner/attestations/decode.rs:160-220 | Succeeds exactly on a well-formed ballot; the selected committees tile the aggregation bits without gap or overlap. |
| Attestations.TileBounds | src/scanner/attestations/decode.rs:176-220 | Each committee's bits are in range, hold its members in order, and start where the last committee ended. |
| Attestations.AttestersMatchSpecification | src/scanner/attestations/decode.rs:125-220 | A ballot is read exactly from the well-formed encodings of either kind, and the set read off its tiled seats is what `get_attesting_indices` of EIP-7549 computes. |
| Attestations.SetIndicesAscend | src/scanner/attestations/decode.rs:160-220 | The selected committees are taken in ascending order, each once. |
| Attestations.CarriesIffAttests | src/scanner/attestations/decode.rs:329-372 | The vote the scan reads is the vote the specification counts: of the epoch, well encoded, in the attesting set. |
| Attestations.RecordCommitteeInclusions | src/scanner/attestations/decode.rs:223-269 | Records exactly the scanned members whose bit is set, and replaces no earlier record. |
| Attestations.ProcessResolvedAttestation | src/scanner/attestations/decode.rs:272-327 | Fails exactly on an attestation from after the block or an unknown head slot of a scanned voter; otherwise records all scanned attesters. |
| Attestations.ExtractInclusions | src/scanner/attestations/decode.rs:79-123 | Succeeds exactly when every attestation of the epoch is well encoded, not from after the block, and of a slot with a known root if a scanned validator attests in it; then a scanned validator is recorded if and only if it was before or an attestation of the block for the epoch has it in its attesting set, earlier records stay, and a new one is of the first such attestation. |
| Outcome.EarliestHitIsLeast | src/scanner/attestations/decode.rs:54-77 | The deciding slot of the reference outcome is the least one in the window whose block carries the vote. |
| Outcome.HitFacts | src/scanner/attestations/mod.rs:77-99 | A block that carries a validator's vote carries it for its duty slot, which lies in the epoch and before the block. |
| Outcome.ExpectedIffAttested | src/scanner/attestations/decode.rs:54-77 | A duty is included if and only if a block of its window holds an attestation for the epoch with the validator in its attesting set; then at the least such slot, with the raw delay and the number of occupied slots after the duty through it. |
| Outcome.ExpectedMarks | src/scanner/attestations/decode.rs:272-327 | The head and target marks compare the first such attestation of that block with the newest roots at or before the duty slot and the epoch start. |
| Outcome.RootIsNewest | src/scanner/attestations/dense.rs:167-236 | The root at a slot is that of the newest block at or before it, and missing only when there is none. |
| Dense.BuildBlockRootMap | src/scanner/attestations/dense.rs:167-236 | Succeeds exactly when a block lies within one epoch back of the boundary; then each slot maps to the latest block at or before it. |
| Dense.CollectInclusions | src/scanner/attestations/decode.rs:54-77 | Succeeds exactly when every block can be extracted; then each scanned validator has the record of the earliest block that yields one. |
| Dense.CollectedIsEarliest | src/scanner/attestations/decode.rs:54-77 | Keep-first over ascending blocks is the earliest hit of the reference. |
| Dense.AdjustedDelay | src/scanner/attestations/mod.rs:101-111 | The raw delay less the missed slots between is the number of blocks after the duty slot through inclusion. |
| Dense.ValidateEpochResponse | src/scanner/attestations/mod.rs:32-46 | Accepts exactly when every tracked validator has a duty and a reward. |
| Dense.ScanEpoch | src/scanner/attestations/dense.rs:27-142 | Succeeds exactly with a block in the look-back, readable blocks and full responses; then each scanned duty has a write with the reference inclusion, delays, head and target marks, and the source judged against the justified checkpoint. |
| Dense.WriteDutyRows | src/scanner/attestations/dense.rs:275-365 | One write per scanned duty, with the reference outcome, the source mark and the reported rewards. |
| Sparse.FindRootAtOrBefore | src/scanner/attestations/sparse.rs:284-296 | Succeeds exactly when a block lies within two epochs back, and returns the latest one's root. |
| Sparse.ScanForwardForInclusion | src/scanner/attestations/sparse.rs:224-281 | Fails exactly when a root is out of reach or a block of the walk cannot be read; else finds the first block after the duty slot that carries the vote, with the skipped slots before it, or proves there is none in the window. |
| Sparse.ScanEpochSparse | src/scanner/attestations/sparse.rs:75-222 | Succeeds exactly when every scanned duty is answered and scannable; then each has a write with the reference outcome, except the raw delay of a miss, and a source vouched for by inclusion. |
| Sparse.DenseAndSparseAgree | src/scanner/attestations/sparse.rs:40-73 | Dense and sparse writes of a duty agree on every performance column if and only if it was included or no delay was reported. |
| Sparse.LookBacksNest | src/scanner/attestations/sparse.rs:284-296 | Whenever the one-epoch look-back of dense scans finds a block, the two-epoch look-back does, for every slot of the epoch. |
| LiveScan.LiveVoteContext | src/scanner/attestations/mod.rs:310-340 | Succeeds exactly when the resolved chain reaches the boundary; its roots are the latest blocks at or before each slot. |
| LiveScan.ObservationIsExact | src/scanner/attestations/mod.rs:198-306 | What the live scan computes from resolved roots equals the observation on the whole chain. |
| LiveScan.ScanLiveAttestationEpoch | src/scanner/attestations/mod.rs:198-306 | Succeeds exactly when the epoch is known and resolved, its attestations readable and every attesting scanned validator has a duty within reach; changes only scanned rows of its epoch, each to its row after the block's observation; a row untouched on success was not voted for; no final row is lost or reopened. |
| LiveSlot.ReportedIsWorst | src/scanner/attestations/mod.rs:169-195 | The reported error is the first that is not a mere unavailable input, and failing that the first. |
| LiveSlot.CandidatesAreRecent | src/scanner/attestations/mod.rs:147-158 | Candidate epochs are the block's own and the one before, so the block lies in their inclusion windows. |
| LiveSlot.OthersAreNotObserved | src/scanner/attestations/mod.rs:147-167 | An epoch whose window holds the block but is no candidate receives no vote from it. |
| LiveSlot.ScanLiveAttestationsInSlot | src/scanner/attestations/mod.rs:125-196 | All candidate epochs are tried past failures, and it succeeds exactly when each of them reads; on success every row in its window is up to date with the block. |
| LiveSlot.ValidateRewardIndices | src/scanner/mod.rs:159-176 | Accepts exactly the expected validators, each once. |
| LiveSlot.SeedLiveAttestationDuties | src/scanner/mod.rs:207-243 | Succeeds exactly when the answer is one duty for each of the validators and no other; then each has the pending row of its own duty; otherwise nothing is written. |
| LiveSlot.ScanAccounts | src/db/scanner/attestations.rs:133-175 | Scanning a block accounts for it in the row and undoes nothing accounted for before, in any order of blocks. |
| LiveSlot.SeedAndRewardKeep | src/db/scanner/attestations.rs:72-105 | Re-seeding and joining rewards change nothing of what a row accounts for. |
| LiveSlot.AccountedRowIsExpected | src/scanner/attestations/mod.rs:125-196 | A provisional row with every slot of its window accounted for has the reference outcome, a miss included. |
| Agreement.CoveredRowIsArchived | src/live/finalization.rs:192-227 | A covered provisional row, gathered poll by poll on a branch that grew or replaced another, is what either archive scan of the epoch writes. |
| Agreement.ThreePipelinesAgree | src/scanner/attestations/mod.rs:113-124 | Dense, sparse and live rows of a duty agree on inclusion, slots, adjusted delay and head and target marks, and on raw delay except on a miss. |
| Rows.RunIsMerge | src/db/scanner/attestations.rs:112-208 | Any order and repetition of seeds, observations and a reward response ends as the smallest observed inclusion with its own details plus the response. |
| Rows.OrderIndependent | src/live/head.rs:47-51 | Two runs of the same events in any order end in the same row, so newest-first equals oldest-first. |
| Store.Database.CompletePairs | src/live/finalization.rs:286-304 | The loop over ready pairs has the same effect in every order, watermarks included. |
| Store.Database.PromoteCollected | src/live/finalization.rs:116-324 | The whole promotion transaction and the number it returns; what it makes of each row and pair is stated in `Completing`. |
| Promotion.CountMeansEverySlot | src/live/finalization.rs:192-207 | A count of two epochs over keyed coverage means every slot of the window is covered, and conversely. |
| Settling.FlagsSettledRows | src/live/finalization.rs:127-257 | The statements before completion, read row by row: rewards replayed, known and final set together exactly on proof. |
| Settling.PromotedRows | src/live/finalization.rs:116-324 | A promotion is the settling of every row followed by the completion of the ready pairs. |
| Settling.PromotionIsIdempotent | src/live/finalization.rs:116-324 | The same promotion again changes nothing and reports no completion. |
| Completing.CompletedIffEarned | src/live/finalization.rs:264-304 | A pair is complete after a promotion if and only if it was before, or: it is tracked, through the target and above the floor; its outcome is known, with delay and marks if included, and source, target and head rewards; every slot of its two epochs is covered; its attestation job and every other job of it were collected on confirmed blocks; and every proposed slot and non-missed sync slot of its epoch has its rewards from such a job. |
| Completing.CountsNewPairs | src/live/finalization.rs:286-323 | The number returned is that of the pairs newly complete. |
| Completing.PromotedAttestation | src/live/finalization.rs:127-227 | A duty row afterwards: final exactly if it was, is proved by a confirmed inclusion or a covered window, or its pair completes; known exactly if it was or is proved; rewards and inferred marks from its staged totals; outcome as it was. |
| Completing.PromotedProposal | src/live/finalization.rs:147-302 | A proposal row afterwards: final exactly if it was, its flag agrees with a confirmed stored block or with none stored at a covered slot, or its pair completes; rewards from its staged response. |
| Completing.PromotedSync | src/live/finalization.rs:159-302 | The same for a sync row and its amount. |
| Completing.PromotedWatermark | src/live/finalization.rs:286-304 | A watermark rises to the newest epoch completed for its validator and never falls. |
| Completing.PromotedGaps | src/live/finalization.rs:305-321 | The gaps afterwards are those there were and every tracked active epoch from the start through the target that is not complete. |
| Safety.StepKeeps | src/db/scanner/attestations.rs:133-175 | Every action of either worker keeps the invariant, loses or reopens no final row and freezes completed ones, up to the refresh of missing details. |
| Safety.RunKeeps | src/db/scanner/attestations.rs:30-37 | The same over every interleaving of both workers. |
| Safety.ReachableStatesAreHonest | src/live/finalization.rs:179-227 | From empty tables, known outcomes are final, every shown miss has its witness, completed pairs have their rows, retired jobs their gaps. |
| Safety.LiveRunsKeepFinalOutcomes | src/db/scanner/proposals.rs:29-41 | No run of live steps, with scans beginning and ending in between, changes proposer, flags or participation of a final proposal or sync row. |
| Safety.PromotionAccounts | src/live/finalization.rs:305-321 | After a promotion every tracked active pair from its start through the target is complete or a gap. |
| Safety.RunKeepsAccounts | src/db/scanner/live.rs:264-286 | That account survives every later run that leaves starts and lifetimes alone. |
| Ancestry.ConfirmedAncestry | src/live/finalization.rs:94-114 | The loop returns the line of stored blocks from the checkpoint, each the parent of the one before at a lower slot, that ends only where no lower stored block is the next parent. |
| Ancestry.LineIsUnique | src/live/finalization.rs:94-114 | There is only one such line. |
| Ancestry.ConfirmedIsClosed | src/live/finalization.rs:106-113 | The stored parent of a confirmed block, at a lower slot, is confirmed. |
| Ancestry.ConfirmedIffUnbroken | src/live/finalization.rs:94-114 | On a tree of real blocks an ancestor of the checkpoint is confirmed if and only if it and every ancestor above it are stored. |
| Ancestry.WalkIsAncestry | src/live/finalization.rs:94-114 | It visits ancestors only, and every ancestor down to where it stops, whatever branches are stored. |
| Ancestry.SlotEvidenceIsTrue | src/live/finalization.rs:228-257 | Slot evidence holds for a flag only if the flag says whether the checkpoint's chain has a block there. |
| Ancestry.FrozenProposalsAreTrue | src/live/finalization.rs:228-257 | A proposal row frozen by that pass is present exactly when the finalized chain has a block at the slot. |
| Ancestry.FrozenSyncsAreTrue | src/live/finalization.rs:228-257 | A sync row frozen by that pass is marked missed exactly when the finalized chain skipped the slot. |
| Ancestry.DescendantsAgree | src/live/finalization.rs:228-257 | Every later head that descends from the checkpoint agrees on the slots before its epoch start. |
| Ancestry.ReadyRowHasEvidenceIffItAgrees | src/live/finalization.rs:286-302 | A proposal of a ready pair has slot evidence if and only if its flag agrees with what is stored in its slot. |
| Ancestry.StoredBlockDecides | src/live/finalization.rs:94-114 | From the floor on, the checkpoint's chain has a block at a slot if and only if a confirmed block is stored there. |
| Ancestry.FrozenProposalIsTrueIff | src/live/finalization.rs:228-302 | A proposal row that a promotion freezes, by slot evidence or by completion, tells the truth if and only if its flag agrees with whether a confirmed block is stored. |
| Ancestry.FrozenSyncIsTrueIff | src/live/finalization.rs:228-302 | The same for a sync row and its missed flag. |
| Freezing.ReadyLoopCanFreezeAFalseMiss | src/live/finalization.rs:286-302 | A run of both workers from empty tables whose promotion freezes a miss in a slot that the finalized chain occupies. |
| Freezing.FrozenAttestationIsTrueIff | src/live/finalization.rs:176-227 | A duty row after a promotion is the reference outcome if and only if no earlier block of its window carries the vote, and so whenever the slots before its inclusion are covered. |
| Freezing.InclusionCanFreezeTooEarly | src/live/finalization.rs:176-188 | A run from empty tables, writing only what its blocks show, that ends with a final inclusion later than the reference one. |
| Pruning.WalkIsCutAtAnchor | src/db/scanner/live.rs:300-307 | After pruning, confirmed ancestry is its own prefix down to the anchor. |
| Tables.PrunedKeeps | src/db/scanner/live.rs:290-309 | Dropped are exactly the jobs of complete pairs and the coverage from before the retained epoch, and the blocks below the newest one from before it. |
| Pruning.PromotionsAgree | src/live/finalization.rs:116-324 | Two promotions that see the same from an epoch on decide the same rows, completions and gaps from it on. |
| Pruning.PruningIsInvisible | src/db/scanner/live.rs:290-309 | With the stored blocks on one chain, open jobs depending on nothing before the anchor and inclusions past their epoch start, pruning changes nothing a promotion decides for retained epochs. |
| Retention.DependenciesAreKept | src/live/mod.rs:279-288 | Open reward jobs of retained epochs, as the collectors store them, depend on no block before the anchor. |
| Retention.InclusionsAreKept | src/scanner/attestations/mod.rs:198-306 | In every run whose scans write inclusions past their epoch start, every stored inclusion lies there. |
| Retention.LiveWriteFollows | src/scanner/attestations/mod.rs:262-300 | What the live scan writes and repairs with lies past the epoch start. |
| Retention.ArchiveWritesFollow | src/scanner/attestations/mod.rs:77-99 | So does what the dense and sparse scans write. |
| Retention.PruningAfterPollIsInvisible | src/live/mod.rs:246-248 | In the state a poll leaves, pruning changes nothing that the next promotion decides for a retained epoch. |
| HeadScan.NewestFacts | src/live/head.rs:47-51 | The truncated selection is descending, of the set, and leaves out only slots older than all it took. |
| HeadScan.SelectionIsBounded | src/live/head.rs:28-51 | At most 32 slots are taken; with at most 20 past the cursor all of those are, and every gap but those with twelve newer ones. |
| HeadScan.CountMeansUncovered | src/db/scanner/live.rs:131-154 | A coverage count below the number of tracked validators means some tracked validator lacks the slot. |
| HeadScan.ScanProgress | src/live/head.rs:27-51 | A succeeding scan reaches the target if slots follow the cursor, and otherwise closes the twelve newest gaps. |
| HeadScan.RepeatedScansCoverEverything | src/live/head.rs:17-128 | After one succeeding scan plus a twelfth of the gaps as many, every tracked validator has every slot of its tracking time down to the floor covered. |
| SlotScan.FetchEpochDuties | src/live/head.rs:206-287 | Succeeds exactly when no input is wrong; complete exactly when all are there. Then the proposers are the answered pairs of active validators, the last answer for a slot winning, the positions are the node's, and every active validator has a row from its answered duty; seeds keep rows explained and accounted for. |
| SlotScan.ProcessSlot | src/live/head.rs:130-197 | Succeeds, and records coverage, exactly when the block's root is free, the sync bits and votes can be read and the assignments are complete; then block, proposal and sync rows say what the chain has at the slot, their reward jobs exist, and the slot's votes are in the duty rows. Other slots are not touched. |
| SlotScan.ProcessHeadScan | src/live/head.rs:17-128 | Exactly the slots that succeeded are covered and move the cursor, and success means all of them. A covered slot has its block, a row for every active validator of its epoch, the proposal row of its answered proposer and the sync rows of the answered members. With no root stored elsewhere exactly the slots whose inputs are there and readable are covered. Evidence consistent with the chain stays so whatever fails. |
| SlotScan.CoveredRowIsExpected | src/live/finalization.rs:192-227 | A provisional row whose whole window is covered is the reference outcome on the chain the evidence stands on, a miss included. |
| ChainWalk.CanonicalIsAncestry | src/live/head.rs:289-297 | A chain holds at each slot exactly the ancestor of its head with that slot. |
| ChainWalk.SharedAncestor | src/live/mod.rs:163-169 | Two heads with a common ancestor share every slot up to it. |
| ChainWalk.ResolveChain | src/live/head.rs:299-333 | Exactly the head's chain down to the first block at or below the start, absent slots truly skipped; fails exactly when a needed block is not served. |
| Reorg.Rollback | src/live/reorg.rs:8-29 | Invalidates from the epoch before the changed slot's and resets the cursor before it. |
| Reorg.RollbackKeepsSlots | src/db/scanner/live.rs:157-180 | A rollback keeps exactly the blocks and coverage from before the epoch preceding the changed one, and the proposal and sync rows from before it or final. |
| Reorg.RollbackKeepsEpochs | src/db/scanner/live.rs:157-180 | It keeps exactly the duty rows from before that epoch or final and the jobs from before it or of completed pairs, and no other table changes. |
| Reorg.SurvivorsDependOnlyBefore | src/live/reorg.rs:27-29 | What survives provisionally depends only on slots before the changed one: windows of duties and boundaries of reward jobs included. |
| Reorg.FinalSurvives | src/db/scanner/live.rs:157-180 | Final rows, completions, gaps and jobs of completed pairs survive any rollback. |
| Reorg.SurvivingOutcomesAreShared | src/live/reorg.rs:7-13 | A surviving duty has the same reference outcome on both branches. |
| Consistency.ConsistencyGrows | src/live/head.rs:17-128 | Evidence consistent with a chain up to its head stays consistent as that chain grows. |
| Consistency.ConsistencyFollows | src/live/mod.rs:163-173 | Evidence consistent with one chain is consistent with another that agrees up to the last block it rests on if and only if no slot taken for skipped past it now holds a block that matters. |
| Consistency.RollbackRestores | src/live/reorg.rs:7-13 | Evidence consistent with one branch is, rolled back, consistent with any branch that agrees before the changed slot's epoch. |
| Consistency.RollbackFollows | src/live/reorg.rs:7-13 | After a rollback the evidence left is consistent with the new branch if and only if no slot it still covers was taken for skipped and now holds a block that matters. |
| Upkeep.StepStaysConsistent | src/live/finalization.rs:116-324 | Promotions, reward joins, pruning, job bookkeeping and every archive write leave consistent live evidence consistent. |
| Unnoticed.UnnoticedChange | src/live/mod.rs:163-173 | When the newest stored block is on both branches, the evidence stands on the new one if and only if no later slot taken for skipped now holds a block that matters; it does if every slot it speaks of that is occupied there is stored. |
| Unnoticed.FilledSlotGoesUnnoticed | src/live/mod.rs:163-173 | Evidence consistent with one head, and a next head on whose chain every stored block lies while a slot stored as missed is occupied. |
| RewardJobs.RewardsAreSettled | src/live/mod.rs:255-263 | Rewards of an epoch are due exactly once its second-next epoch start lies the settling delay behind the head. |
| RewardJobs.CollectEpochRewards | src/live/mod.rs:279-315 | Succeeds exactly on a canonical boundary within the resolved chain and a response of totals; then exactly the epoch's jobs are completed with that response, depending on the last block at or before the end of the next epoch, and the totals join the unfinalized duty rows. |
| RewardJobs.CollectBlockRewards | src/live/mod.rs:317-365 | Succeeds exactly on a canonical block and a block response; then exactly the group's jobs are completed with it, depending on the block they were enqueued for, and its rewards join the proposal or sync rows. |
| RewardJobs.CollectJobs | src/live/mod.rs:224-233 | The groups are collected one after the other: a collectable one completes its jobs and joins its rewards, another changes nothing and stops nothing. |
| RewardJobs.CollectedJobs | src/live/mod.rs:224-233 | After a run of groups each job of a collectable one is complete, with the response and dependency of the last such group; every other job is as it was. |
| RewardJobs.CollectedTotals | src/live/mod.rs:314-315 | A provisional duty row ends with the totals of the last collectable group that speaks of it; without one, or if final, it is as it was. |
| Tables.ProposalUpserts | src/db/scanner/proposals.rs:22-41 | A proposal row takes every write while provisional and an archive write until its pair is complete, keeping rewards the write does not know; otherwise it stays. |
| Tables.SyncRewardThenScan | src/db/scanner/sync.rs:20-34 | A sync amount that arrives before the slot is scanned again survives the scan. |
| RewardJobs.SaneIsRestored | src/live/reorg.rs:7-29 | A rollback to a branch that shares everything before the changed slot's epoch leaves evidence and open reward dependencies standing on it. |
| Reconcile.CollectionStart | src/live/mod.rs:112-117 | The slot after the cursor or the start of the recovery window, whichever is later; without a cursor the start of the head's epoch. |
| Reconcile.QueueRewards | src/live/mod.rs:203-223 | Exactly the due epochs of active followed validators are enqueued, then pending jobs from before the window retired with their gaps. |
| Reconcile.DueIsQueued | src/live/mod.rs:203-223 | A pair has its reward job afterwards if and only if it had one or was active, followed, in the retry window and settled; a new job is pending. |
| Reconcile.OldJobsExpire | src/db/scanner/live.rs:264-286 | The jobs there were stay, except that exactly the pending ones from before the window go to backfill, each leaving its gap. |
| Reconcile.FinalizeCollectedEvidence | src/live/finalization.rs:11-90 | Promotion runs exactly on a verified checkpoint connected to stored blocks, with the ancestry confirmed from it, on tables in which the rows of the four newest blocks with missing details are mended and no final row is lost or reopened; consistent evidence stays so. |
| Reconcile.RepairDetails | src/live/finalization.rs:47-80 | Every row is as it was or has its details; rows shown at a repaired block that can be read and carries their vote have them. |
| LiveWorker.Worker.Recover | src/live/mod.rs:136-152 | Registers the tracking start; a cursor behind the window is dropped and, if the old tip is unknown, everything from the first stored block's preceding epoch is rolled back. |
| Reconcile.RegisteredKeeps | src/db/scanner/live.rs:17-51 | Each tracked validator starts at the head's epoch or earlier as before; exactly the gaps from before a start go, and the jobs unless their pair is complete. |
| Reconcile.WalkStartsEarly | src/live/mod.rs:153-161 | The ancestry is resolved from the start of an epoch before any slot that is collected or compared, or from genesis. |
| LiveWorker.Worker.Compare | src/live/mod.rs:163-176 | Rolls back exactly when a stored block from the floor on is off the resolved chain or past the head, from the first such slot. |
| LiveWorker.Worker.Collect | src/live/mod.rs:178-195 | Covers and records exactly the selected slots that succeed, from where the cursor says, and moves the cursor; stored blocks stay on the resolved chain; consistent evidence stays so. |
| LiveWorker.Worker.Settle | src/live/mod.rs:203-248 | Ends in the pruned promotion of the queued, collected and repaired tables, each of them stated; no reward job from before the window stays pending; after a connected checkpoint every tracked active pair through its target is complete or a gap. |
| LiveWorker.Worker.Reconcile | src/live/mod.rs:119-253 | Unresolved exactly when the head's ancestry cannot be walked; otherwise rolled back exactly to the first stored block off the chain, or collected and then rolled back, settled or left as the second look at the head says, with each state in between stated; every stored block from the floor on is an ancestor of the head or the head; evidence stands on the head's branch if it extends the old one or was found to replace it. |
| LiveWorker.Worker.PolledDepends | src/live/mod.rs:163-201 | A poll that rolled back leaves nothing provisional that depends on the changed or replayed slot or a later one. |
| LiveWorker.Worker.RunLiveTracking | src/live/mod.rs:52-92 | Over any run of polls each takes tables and cursor from one state of the trace to the next as `Reconcile` says; as the head grows or switches branches, the evidence stands on the last branch and every covered provisional duty row is the reference outcome on it. |
| Backfill.EarliestEpochToScan | src/backfill.rs:63-83 | The least start over the tracked validators; none exactly when nothing is tracked. |
| Backfill.StartMeans | src/backfill.rs:63-83 | An epoch is at or past the start exactly if past activation, depth and, unless ignored, the watermark. |
| Backfill.ScanEpoch | src/scanner/mod.rs:30-124 | Merges each row of the stages with the row there was, also on failure; completes exactly the scanned pairs, with their rows known, and only when every stage succeeded. |
| Backfill.ArchiveScanFills | src/scanner/mod.rs:70-95 | A finalized dense or sparse scan that succeeds has a final write for exactly the scanned validators. |
| Backfill.FilledRows | src/scanner/mod.rs:73-111 | Such a scan of pairs not yet complete leaves the rows of complete pairs alone and each of its own final, known and showing its write. |
| Backfill.GapEpochsAreNewest | src/backfill.rs:30-58 | The repaired epochs are at most eight, newest first, each with an open gap; one left out is older than eight of them. |
| Backfill.RepairLiveGaps | src/backfill.rs:30-58 | Completes exactly the tracked open gaps of the newest eight gap epochs whose scan succeeds, and removes those gaps only; with filling scans each pair it completes has a final, known row that shows its write. |
| Backfill.RunPass | src/backfill.rs:148-270 | Exactly the due pairs are added to the completed ones, none is scanned that was complete; with filling scans each scanned pair has a final, known row that shows its write; watermarks reach the scanned epochs and never move back. |
| Backfill.RunBackfill | src/backfill.rs:115-349 | On success exactly the eligible pairs are added over the whole run and none is scanned twice; with filling scans every pair it completes has a final, known row that shows its scan's write, and completed pairs keep theirs; asked to extend, it reads finality if and only if something is left to scan contiguously at or before the first target; it fails only if a scan does. |
| Backfill.SweepStopsShort | src/backfill.rs:104-112 | One active validator swept to epoch 1 with finality at epoch 10: extension never reads finality and epochs 2 to 8 stay as they were. |
| Backfill.SkippedByWatermark | src/backfill.rs:155-165 | After an extended sweep the pairs not taken are exactly those between the first target and a later startup watermark. |
| SyncCommittee.SyncOutcomes | src/scanner/sync_committee.rs:75-83 | One outcome per distinct member: any of its seats set, and set less unset seats. |
| SyncCommittee.NetsTotal | src/scanner/sync_committee.rs:73-83 | Net seats summed over distinct members equal set bits less unset bits. |
| SyncCommittee.ParticipationAgrees | src/scanner/sync_committee.rs:276-312 | The archive flag equals the live any-position flag. |
| SyncCommittee.PerPositionIsExact | src/scanner/sync_committee.rs:61-71 | A member with nonzero net reveals the seat reward exactly, and a total that is no such multiple is refused. |
| SyncCommittee.ProbeSyncParticipantReward | src/scanner/sync_committee.rs:25-58 | Finds a seat reward if and only if some slot reveals one, and then the one a consistent node reports; with readable blocks it does not fail on consistent answers. |
| SyncCommittee.ProcessEpochSync | src/scanner/sync_committee.rs:103-262 | On success every slot's rows are written, rewarded by the seat reward times net seats, which is each amount a consistent node reports; with readable blocks and consistent answers it succeeds if and only if some slot reveals the seat reward or the epoch has no block. |
| SyncCommittee.UniformIsReported | src/scanner/sync_committee.rs:170-251 | When the node reports one seat reward throughout, every amount it reports for a scanned member is what the member's row shows. |
| SyncCommittee.SlotsWrittenAt | src/scanner/sync_committee.rs:170-251 | Each row meets its own slot's write once, against what was there before the scan. |
| SyncCommittee.UpsertLiveSyncInSlot | src/scanner/sync_committee.rs:276-331 | Succeeds exactly when the aggregate decodes and has a bit for every position; then every tracked member has its row; a position out of range stops with a part of them. |
| SyncCommittee.ArchiveAndLiveAgree | src/scanner/sync_committee.rs:264-331 | Archive and live rows of a member agree on participation and on missed blocks. |
| InputCache.InputAnchor | src/beacon_client/inputs.rs:40-66 | The head up to the boundary, else the latest block at or before it within two epochs; probes are bounded and never pass slot 0. |
| InputCache.AnchorIsUnique | src/beacon_client/inputs.rs:40-66 | On one snapshot the anchor is determined. |
| InputCache.StillCurrent | src/beacon_client/inputs.rs:105-113 | Reuse is accepted exactly when recomputation gives the stored anchor; it errs exactly on an emptied boundary or an unreachable look-back. |
| InputCache.Client.CachedInputFor | src/beacon_client/inputs.rs:77-191 | Succeeds exactly when a current cached response is usable or, without one, the fetched response is usable between two equal anchors; a returned response belongs to an anchor canonical when last checked, its dependent block still has a header, and only such responses are stored. |

## Left out

- HTTP, retries, event streams, metrics, logging, configuration, the web API and its read-side aggregates.
- JSON, hex and root normalisation: roots are opaque values, bit fields are byte sequences, blocks are slot, parent,
  attestations and sync bits.
- Integer widths: slots, epochs and amounts are unbounded, so conversions between `u64`, `i64` and `i32` and the
  overflow errors of proposal rewards are not modelled.
- PostgreSQL beyond its statements: each is one atomic update; foreign keys, `updated_at`, error text and the instances
  table are not modelled. The unique root of a stored block is.
- Clocks: retry delays of jobs and of unavailable inputs. Any pending job may be picked.
- The recent-state fallback for committees, and the retry window in which an unavailable input is not asked for again.
- The archive stages for proposals, whose rows are plain upserts, and the block caches of the node client.
- Source marks are outside the agreement of the three pipelines: dense scans compare a justified checkpoint, live and
  sparse ones trust inclusion.
- A job's epoch is a function of its slot, as it is for every job the live worker enqueues.
- Backfill.ScanEpoch: takes the writes of the attestation stage and the result of the stages as given and states what it
  makes of them; that the writes are right is what `Dense.ScanEpoch` and `Sparse.ScanEpochSparse` state.
- Backfill.RunBackfill: the exact set of completed pairs is stated for a run that no other worker interrupts; what
  interleaving keeps is stated in `Safety`.
- LiveWorker.Worker.RunLiveTracking: takes a finite run of polls with nothing written in between; that archive writes
  leave consistent evidence consistent is what `Upkeep.StepStaysConsistent` states.
- LiveWorker.Worker.Settle: takes the pending job groups, at most twelve, and the node's answers to them as given.
- Consistency.ConsistencyFollows: asks that what the evidence rests on past the last shared block was skipped on the old
  chain, which a caller reads off the stored blocks.
- Retention.PruningAfterPollIsInvisible: asks that the stored blocks lie on the head's chain; a poll guarantees that
  from the recovery floor on.
- Pruning.PruningIsInvisible: watermarks are not compared, because older epochs that lost their coverage may no longer
  become ready.
