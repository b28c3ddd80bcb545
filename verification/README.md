# Settlement pipeline: a verified model

This project models how Clean Web Economy turns delivered bytes and proven listening into exact
integer payouts, and proves what that pipeline promises. Everything is stated for all inputs, all
runs, or all reachable states.

- **Payout core** (`Apportionment`, `DiminishingReturns`, `Allocation`, `AllocationLaws`,
  `WorkPayouts`, `Burning`, `Datasets`): the diminishing-returns curve, the bandwidth discount, largest-remainder
  apportionment, and the per-user pass with its 128-bit overflow errors.
- **Bandwidth receipts** (`Receipts`, `Credibility`, `EvidenceLaws`, `Delivery`,
  `DeliveryProtocol`, `ContentCap`): delivery
  streams that credit only on completion, ledgers and receipts as a step system over many nodes,
  the aggregator's acceptance of a bundle, and the saturating credibility arithmetic.
- **Usage proofs** (`Field`, `UsageCircuit`, `CircuitSynthesis`, `Prover`): the circuit as a
  relation over the BN254 scalar field, its synthesis, and the native prover beside it.
- **Event mode** (`Consumption`, `EventMode`, `SettlementRun`, `RunBounds`): the submission contract, the
  digest re-check, one whole settlement run, and when a run can overflow.
- **Settlement tail** (`HexText`, `Merkle`, `Settlement`, `WrappedTotals`): the Merkle tree and its
  proofs, and the routing of each work to a direct or an escrow entry.
- **Discovery index** and **session store** (`DiscoveryIndex`, `SessionStore`).
- `Words`, `Arithmetic`, `Sums`, `Ids`, `Ledgers` hold shared arithmetic, ordered ids and maps of
  running totals.

Objects the source updates in place are classes here (`Delivery.Ledger`, `Delivery.DeliveryStream`,
`CircuitSynthesis.ConstraintSystem`, `Consumption.CWEConsumption`, `DiscoveryIndex.Index`,
`SessionStore.Store`); loops over local state are methods with loops. Each such method is proved
equal to a function of its inputs or its old state, and the laws are proved about that function. Where
such a function decides a payment, a credit, an acceptance or an order, a law fixes its value in
plain terms.

## Conventions

- Hash functions, signature recovery, fingerprint parsing, tokenising, credential and rate lookups
  are parameters. Where a result needs collision resistance, the hypothesis speaks of a finite set
  of vectors actually hashed: no function from longer to shorter values is injective outright.
- The proof system is idealised as: a submitted proof that verifies has a satisfying assignment
  whose commitments, pseudonyms and digest preimage were hashed. A pseudonym then has one opening:
  work, minutes, plays and salt. The commitment does not bind the price and region factors, so an
  opening earns a weight at some factors in range (`Prover.Weighs`, `Prover.WeighsAtMost`). Works are
  bound modulo the field order: every opened work has a second 32-byte name the proofs cannot tell
  from it (`EventMode.PassesSeesResidues`, `EventMode.EveryWorkHasAlias`).
- Addresses, work ids and session ids are text in the order a `BTreeMap` iterates it; a 32-byte
  value is an integer below 2^256 in the circuit, the Merkle tree and settlement entries, and its
  hexadecimal text elsewhere. `HexText` proves the two forms equivalent.
- 64- and 128-bit widths are explicit: checked operations return an error, saturating ones clip,
  and plain ones wrap, as a release build of the workspace does.

## Where the comments and the code differ

The model follows the code.

- `sims/src/lib.rs:46-48` says the unallocated amount arises only for users with no value. A user
  with value burns a fee of 1 on a row of weight 1 and credibility 0 (`Burning.ValueCanBurn`). Nothing
  stays unallocated iff every payer with a fee has some weight and no discounted weight
  (`Burning.NothingUnallocatedIff`).
- `libs/zk-circuits/src/prove.rs:174-177` says the assembled witness always satisfies the circuit. An
  input with no plays never does (`Prover.UnplayedUnprovable`); the assigned values satisfy it iff
  `Prover.Admissible` holds of every input and the works are distinct (`Prover.WitnessSatisfiesIff`).
- `libs/zk-circuits/src/dr.rs:17-19` says the native weight mirrors the payout core's. Up to 64 plays
  it does so iff the scaled value is below 2^128 (`Prover.ProvenWeightIsOpenedWeight`); factors in
  range can exceed that (`Prover.OutsizedWraps`), and past 64 plays the two curves part
  (`Prover.WeightsPartPast64`).
- `services/settlement/src/settle.rs:182` says an escrowed work is never paid directly. A work
  credited under two spellings, one of them escrowed, is in both lists
  (`Settlement.BothBucketsPossible`). Each work is published once iff no two credited keys spell the
  same value (`Settlement.PublishedOnceIff`), which event mode guarantees
  (`SettlementRun.RunPublishesOnce`).
- `services/settlement/src/chain.rs:306-309` has a bad submission rejected by itself. One whose digest
  mismatches is; one with more than sixteen works or a weight of 2^128 or more ends the whole run
  instead (`EventMode.OneSubmissionCanAbort`). A run gets through intake iff no submission does that
  and every passing one has its fee (`EventMode.IngestDoneIff`).
- `services/settlement/src/receipts.rs:59-63` says the clamp caps a work's total credit at its content
  size even when a credentialed node colludes (also `libs/receipt/src/lib.rs:14` and `:39`), and
  `libs/receipt/src/lib.rs:88-90` that an offset past the end is rejected later. Nothing
  rejects it: one co-signed receipt for block 1000000 of a one-byte work is credited a full block
  (`ContentCap.CapCanFail`). Whoever signs, the cap holds when no position is credited more than its
  block holds (`ContentCap.AnySignersWithinContent`), and no true deliveries added to a bundle can
  break it iff the bundle credits no more than the blocks it names hold (`ContentCap.CapSurvivesIff`). Honest nodes meet it (`DeliveryProtocol.VerifiedWithinContent`).
- `libs/wallet-zk/src/session.rs:136-137` says a play count is always found. A session left open across
  a flush, or a snapshot without play counts, reports minutes with none (`SessionStore.PlaysCanBeZero`).
  The count is zero iff the work was not started since the last flush and none was carried in
  (`SessionStore.FlushEntries`).
- The tests at `services/settlement/src/settle.rs:302-311` and `:419-424` promise that the committed
  totals account for the fees. The additions at lines 187 and 210 are unchecked, so the totals are
  exact iff each bucket's amounts sum below 2^128 (`Settlement.TotalsExactIff`); fees of 2^127 from two
  users total to nothing (`WrappedTotals.TotalsCanWrap`). The entries themselves always account for
  the fees.

## Model

| member | source | states |
|---|---|---|
| Apportionment.Apportion | sims/src/lib.rs:459-491 | fails exactly when some product of the total and a weight leaves 128 bits; otherwise returns the one split by largest remainders, ties to the lower index |
| Apportionment.HandOut | sims/src/lib.rs:485-488 | one extra unit to each of the first leftover indices of the ranking |
| Apportionment.SharesExact | sims/src/lib.rs:449-458 | shares sum to exactly the total |
| Apportionment.SharesQuota | sims/src/lib.rs:466-488 | each share is the floor or the ceiling of its ideal, and a zero weight gets nothing |
| Apportionment.SharesMonotone | sims/src/lib.rs:480-488 | a larger weight never gets less |
| Apportionment.OnlyLargestRemainders | sims/src/lib.rs:459-491 | a vector is the shares iff it sums to the total, every item has its floor or one more, and none is topped up past an item with a larger remainder or an equal one earlier |
| Apportionment.EarlierTieFirst | sims/src/lib.rs:480-483 | of two equal weights the earlier never gets less |
| Apportionment.LeftoverBelowPositiveRemainders | sims/src/lib.rs:476-478 | a positive leftover is strictly below the number of nonzero remainders |
| Apportionment.FavouredRemainderPositive | sims/src/lib.rs:480-488 | only items that lost a fraction get an extra unit |
| Apportionment.FavouredAhead | sims/src/lib.rs:480-488 | whoever ranks ahead of a favoured item, by remainder and then by index, is favoured |
| Apportionment.RankedInOrder | sims/src/lib.rs:480-483 | the ranking is strictly by larger remainder, ties to the lower index |
| Apportionment.SharesOptimal | sims/src/lib.rs:459-491 | among all integer vectors with the same sum the shares are closest to the ideal split |
| DiminishingReturns.DPpm | sims/src/lib.rs:510-522 | the running-sum loop computes the curve and fits 64 bits |
| DiminishingReturns.CurveBounds | sims/src/lib.rs:493-522 | the curve lies between 10 and 1000000, and is full weight up to one play |
| DiminishingReturns.CurveAntitone | sims/src/lib.rs:501-509 | the curve never rises with more plays or a larger k, despite per-term flooring |
| DiminishingReturns.CurveMeans | sims/src/lib.rs:510-522 | the curve is the floored average of the floored worths 10^12 / (10^6 + k * i), i from 0, over the plays clamped to 1 to 100000 |
| DiminishingReturns.WeightMeans | sims/src/lib.rs:255-256 | a row weighs its minutes at its price, region and curve, floored |
| Allocation.AllocateWithRowCredibility | sims/src/lib.rs:348-447 | refuses mismatched lengths; otherwise returns the unbounded outcome, or overflow exactly when some checked operation leaves 128 bits |
| Allocation.GroupByUser | sims/src/lib.rs:362-371 | groups rows by user, keeping each user's row order and clamping credibility |
| Allocation.UserTotals | sims/src/lib.rs:381-402 | one user's credited weights and totals, or overflow of the raw sum |
| Allocation.PayUser | sims/src/lib.rs:410-424 | adds to each work the shares of the user's rows on it, or fails exactly on an unfit product or total |
| Allocation.UserMoney | sims/src/lib.rs:378-425 | the new totals, usage and burn after one user, and exactly when that overflows |
| Allocation.TallyUsers | sims/src/lib.rs:378-425 | after all paying users the accumulators hold exactly their contributions, or some bound is exceeded |
| Allocation.Burn | sims/src/lib.rs:404-416 | the burned shortfall and the target add up to the fee, so the target never exceeds it |
| Burning.NothingBurnsIff | sims/src/lib.rs:404-416 | a fee is paid out in full iff it is zero, or some row has weight and no weighted row is discounted |
| Burning.NothingUnallocatedIff | sims/src/lib.rs:46-48 | an epoch leaves nothing unallocated iff every payer with a fee has weight and no discounted weight |
| Burning.ValueCanBurn | sims/src/lib.rs:46-48 | a concrete epoch whose only user has value and whose whole fee stays unallocated |
| Ledgers.CheckedPost | sims/src/lib.rs:421-424 | checked posting fails exactly when some final total leaves 128 bits |
| AllocationLaws.Conservation | sims/src/lib.rs:232-234 | credits to works plus the unallocated amount equal the fees |
| AllocationLaws.RowCreditBounds | sims/src/lib.rs:410-419 | a row's credit is within two units below and one above fee times credit over raw total, whatever the other credibilities are |
| AllocationLaws.BurnedNeverRises | sims/src/lib.rs:335-341 | raising any rows' credibility never raises the burned amount |
| AllocationLaws.PayoutLocality | sims/src/lib.rs:359-447 | payouts and burn of an epoch are the sums of the single-user runs |
| AllocationLaws.DepthLocality | sims/src/lib.rs:394-401 | weighted usage of a work is the sum over single-user runs |
| AllocationLaws.ReachLocality | sims/src/lib.rs:427-440 | the audience of a work counts its listeners once each, summed over single-user runs |
| AllocationLaws.InterleavingIrrelevant | sims/src/lib.rs:359-371 | only each payer's own row order matters; other interleaving, and rows of non-payers, change nothing |
| AllocationLaws.Totality | sims/src/lib.rs:381-425 | with weights, fees and their products below 2^128, allocation never overflows |
| AllocationLaws.CreditedNamed | sims/src/lib.rs:417-424 | every credited work is named by some input row |
| WorkPayouts.RowsInOrder | sims/src/lib.rs:362-371 | a user's rows are the input rows of that user in input order, each with its own credibility capped at neutral |
| WorkPayouts.CreditBracket | sims/src/lib.rs:388-390 | a row is credited its weight times its credibility over 10^6, floored |
| WorkPayouts.TargetBracket | sims/src/lib.rs:410-413 | a live user's works are paid the fee times credit over raw total, floored |
| WorkPayouts.WorkPayout | sims/src/lib.rs:421-424 | a work's payout is the sum, over live payers and their rows on that very work, of the row's share |
| WorkPayouts.WorkUsage | sims/src/lib.rs:394-401 | a work's weighted usage is the same sum of credited weights, over all payers |
| WorkPayouts.WorksListed | sims/src/lib.rs:394-424 | a work has a payout iff a live payer has a row on it, and a reputation iff any payer has |
| WorkPayouts.WorkListeners | sims/src/lib.rs:427-440 | a listed work's audience is the payers with a row on it, each once |
| WorkPayouts.WorkCreditBounds | sims/src/lib.rs:410-424 | what a user pays a work is less than two units a row below, and one above, the fee times the credit of the rows on it over raw total |
| WorkPayouts.DistinctWorkBounds | sims/src/lib.rs:417-424 | when a user's rows name distinct works, each work is paid its own row's share, within that row's bounds |
| WorkPayouts.UnallocatedIs | sims/src/lib.rs:404-416 | the unallocated amount is the fees of users who are not live and what the others' targets leave |
| WorkPayouts.InRangeIff | sims/src/lib.rs:378-425 | allocation is in range iff every payer's raw total and share products, every work's payout and usage, and the unallocated amount are below 2^128 |
| Datasets.CheckedValue | sims/src/lib.rs:108-113 | the row value, or overflow exactly when the product leaves 128 bits |
| Datasets.AllocateFromRaw | sims/src/lib.rs:311-323 | allocation with one clamped, neutral-by-default credibility per work |
| Datasets.Allocate | sims/src/lib.rs:246-265 | reduces every row in order and allocates; fails exactly on an unfit value or an unfit epoch |
| Datasets.RowMeans | sims/src/lib.rs:246-323 | a row becomes its own user and work at its floored weight, with the bandwidth listed for its work, neutral when none is or when more is |
| Datasets.LoyalListenerPaysInFull | sims/src/lib.rs:405-424 | a user wholly on one fully credible work, with one row worth 100000, pays it the whole fee |
| Datasets.WholeFeeToOneWork | sims/src/lib.rs:405-424 | all of a live user's rows on one neutral work send it the whole fee and burn nothing |
| Receipts.AcceptReceipts | services/settlement/src/receipts.rs:64-125 | totals per consumer and work of the evidence in the bundle, saturating |
| Receipts.FirstEligibleCounts | services/settlement/src/receipts.rs:96-121 | a block is credited iff some receipt carries both named signatures, this epoch, a credentialed node, and that consumer, work and block; its credit is the first such receipt's bytes, 131072 at most |
| EvidenceLaws.TotalIsSum | services/settlement/src/receipts.rs:115-121 | a consumer and work have a total iff some block of theirs is credited, and it is their credited bytes, saturating |
| Receipts.RejectedReceiptsIgnored | services/settlement/src/receipts.rs:76-107 | a receipt that would not count can be inserted anywhere without effect |
| Receipts.ReplaysIgnored | services/settlement/src/receipts.rs:96-107 | appended replays change nothing |
| Receipts.ResubmissionIgnored | services/settlement/src/receipts.rs:96-107 | submitting a bundle twice is submitting it once |
| Receipts.CredentialsOnlyAdd | services/settlement/src/receipts.rs:88-94 | more credentialed nodes only add credited positions |
| Receipts.OrderIrrelevant | services/settlement/src/receipts.rs:64-125 | when eligible receipts agree on each block, the bundle's order does not matter |
| Receipts.BlocksBoundBytes | services/settlement/src/receipts.rs:110-121 | bytes for a consumer and work are at most one block per distinct accepted position |
| Credibility.MulDivFloorExactIff | services/settlement/src/receipts.rs:269-295 | the split quotient is the saturated floor exactly when the remainder product fits or its clipping does not show |
| Credibility.MulDivFloorCanMiss | services/settlement/src/receipts.rs:275-277 | concrete inputs outside the guard give a wrong quotient |
| Credibility.EpochFactor | services/settlement/src/receipts.rs:143-167 | every user's factor equals the unbounded formula over that user's summed bytes |
| Credibility.SumByUser | services/settlement/src/receipts.rs:147-152 | saturated totals per normalised user, in whatever order pairs are visited |
| Credibility.SaturatedFactor | services/settlement/src/receipts.rs:160-166 | saturation of a user's total never shows in the clamped factor |
| Credibility.RowRefinesIdeal | services/settlement/src/receipts.rs:212-267 | the 128-bit row computation equals the unbounded one |
| Credibility.PipelineRefines | services/settlement/src/receipts.rs:64-267 | on every acceptable bundle, row credibility is the unbounded formula of the row, its rate and the accepted bytes of the row's own user and work |
| EvidenceLaws.CredibilityMeans | services/settlement/src/receipts.rs:127-267 | zero without a rate or any credited block of the user; otherwise the floored product of the user's bytes over the floor and the bytes of this user and this work over what the weight implies, each at most neutral |
| EvidenceLaws.FullEvidenceFullCredit | services/settlement/src/receipts.rs:244-264 | a row whose user's bytes of its work reach what its weight implies, for a user at the floor, is fully credible |
| Credibility.ClaimingMoreNeverHelps | services/settlement/src/receipts.rs:172-199 | credibility never rises with the claimed weight |
| Credibility.MoreEvidenceNeverHurts | services/settlement/src/receipts.rs:172-181 | credibility never falls with more verified bytes of the row or the user |
| Credibility.FactorMono | services/settlement/src/receipts.rs:127-137 | the epoch factor never falls with more bytes |
| Credibility.MoreReceiptsNeverHurt | services/settlement/src/receipts.rs:64-267 | adding receipts to a bundle, valid or not, never lowers any row's credibility |
| Credibility.EvidenceBoundsWeight | services/settlement/src/receipts.rs:244-264 | credited weight times rate is at most twice the verified bytes at the rate's scale |
| Credibility.BlocksBoundWeight | services/settlement/src/receipts.rs:118-121 | the weight a row can be paid on is capped by its consumer's accepted blocks of that work |
| Delivery.FragmentIsBlock | services/storage/src/lib.rs:113-128 | the saturating window is the exact block of the file |
| Delivery.WorkIdMeans | services/storage/src/lib.rs:130-137 | a work id is the prefixed text of a 32-byte value, in either case |
| Delivery.FragmentMeans | services/storage/src/lib.rs:105-128 | a request is answered with its 131072 bytes of the file at its own offset, as far as the file goes, or refused for a bad id, then for a work not held |
| Delivery.BlocksReassemble | services/storage/src/lib.rs:105-128 | the blocks in order are the content, each byte once |
| Delivery.Ledger.Record | services/storage/src/lib.rs:58-67 | a repeat overwrites its normalised position and nothing else changes |
| Delivery.DeliveryStream.constructor | services/storage/src/lib.rs:181-189 | a fresh stream with nothing handed out and completion pending; a zero slice becomes one |
| Delivery.DeliveryStream.PollNext | services/storage/src/lib.rs:192-220 | the next slice, or the end with completion fired exactly once |
| Delivery.DeliveryStream.Drain | services/storage/src/lib.rs:152-163 | driving a stream to its end yields the rest of the data and only then records it |
| Delivery.ServeContent | services/storage/src/lib.rs:286-324 | serving credits nothing; it promises the true length to the stream's end |
| DeliveryProtocol.RunsStayHonest | services/storage/src/lib.rs:56-128 | in every reachable state every ledger entry and receipt states a true block length |
| DeliveryProtocol.CreditedIffDrained | services/storage/src/lib.rs:152-220 | a node can attest a block iff some transfer of it ran to completion |
| DeliveryProtocol.RequestMeans | services/storage/src/lib.rs:286-324 | a request for held content starts a transfer at its first byte that will record the block's true length for that consumer; any other changes nothing |
| DeliveryProtocol.AttestedIffDrained | services/storage/src/lib.rs:78-103 | over every run a node gives a receipt iff a transfer of that block to that consumer completed there, naming node, epoch, consumer, work and true length |
| DeliveryProtocol.TransferEarnsReceipt | services/storage/src/lib.rs:78-103 | from any state a completed transfer makes the node attest the block at its exact length |
| DeliveryProtocol.VerifiedWithinContent | libs/receipt/src/lib.rs:94-107 | over every run, for bundles whose credited nodes sign only what their ledgers issued, verified bytes never exceed the content length, and equal it iff every block is covered |
| DeliveryProtocol.EvidenceMeansDelivery | services/storage/src/lib.rs:152-220 | with such nodes, accepted evidence of a block means some transfer of it to that consumer ran to completion |
| DeliveryProtocol.VerifiedWithinDelivered | services/storage/src/lib.rs:152-220 | with such nodes, verified bytes never exceed the lengths of the blocks delivered in full to that consumer |
| DeliveryProtocol.EveryBlockSubmitted | services/settlement/src/receipts.rs:54-63 | with such nodes, an accepted receipt for every block earns exactly the content length |
| DeliveryProtocol.HonestBundlesConsistent | libs/receipt/src/lib.rs:94-107 | receipts of honest nodes agree on every block |
| ContentCap.AnySignersWithinContent | services/settlement/src/receipts.rs:49-63 | whoever signed, bytes stay within the content when each position is credited at most its block |
| ContentCap.WithinBlocksIff | services/settlement/src/receipts.rs:110-121 | that guard holds iff the first eligible receipt of each position claims no more than its block |
| ContentCap.CapSurvivesIff | services/settlement/src/receipts.rs:49-63 | no true deliveries added to a bundle exceed the content iff the bundle credits at most what the blocks it names hold |
| ContentCap.LoneReceiptCredit | services/settlement/src/receipts.rs:110-121 | one eligible receipt is credited its clamped bytes, whatever block it names |
| ContentCap.CapCanFail | libs/receipt/src/lib.rs:86-92 | a concrete co-signed receipt past the end of a one-byte work is credited a full block |
| Field.BitWidthIff | libs/zk-circuits/src/circuit.rs:284-298 | the bit-width gadget accepts exactly the values below the power of two |
| UsageCircuit.BuildTable | libs/zk-circuits/src/dr.rs:9-15 | the table holds the payout curve at 1 to 64 plays |
| UsageCircuit.LookupSound | libs/zk-circuits/src/circuit.rs:344-368 | the selector sums admit only 1 to 64 plays and read the curve there |
| UsageCircuit.DivisionMeans | libs/zk-circuits/src/circuit.rs:364-385 | the field equation is integer floor division, with no wrap-around |
| UsageCircuit.RowSatisfiableIff | libs/zk-circuits/src/circuit.rs:170-387 | a row is satisfiable iff it is an in-range opening with the exact capped weight, or canonical padding |
| CircuitSynthesis.ConstraintSystem.EnforceBitWidth | libs/zk-circuits/src/circuit.rs:290-298 | the width constraint, guarded |
| CircuitSynthesis.EnforceDrWeight | libs/zk-circuits/src/circuit.rs:320-387 | pushes exactly the weight constraints of an active row |
| CircuitSynthesis.EnforceRow | libs/zk-circuits/src/circuit.rs:170-281 | pushes exactly the row's constraints, active or padding |
| CircuitSynthesis.EnforceUnique | libs/zk-circuits/src/circuit.rs:428-444 | pushes exactly that no two active rows share a work |
| CircuitSynthesis.GenerateConstraints | libs/zk-circuits/src/circuit.rs:400-469 | refuses any shape but sixteen rows; otherwise pushes exactly the circuit's constraints |
| CircuitSynthesis.ProvableIff | libs/zk-circuits/src/circuit.rs:389-469 | a digest is provable iff it hashes sixteen honest, pairwise distinct openings or paddings under one key |
| CircuitSynthesis.RowSatisfiableOutright | libs/zk-circuits/src/circuit.rs:170-387 | satisfiability of a row spelled out: 1 to 64 plays, the widths, a nonzero work, the hash layouts and the floored weight; or the zero row with its pseudonym |
| CircuitSynthesis.PreimageLayout | libs/zk-circuits/src/poseidon.rs:74-106 | the digest preimage holds epoch, tier and key, then pseudonym, work and weight of row i at 3 + 3i |
| CircuitSynthesis.PreimageInjective | libs/zk-circuits/src/poseidon.rs:72-106 | the digest preimage layout determines every row's outputs |
| Prover.WeightOfExactIff | libs/zk-circuits/src/dr.rs:17-25 | for every input the native weight is the exact floor iff the scaled value is below 2^128 |
| Prover.ProvenWeightIsOpenedWeight | libs/zk-circuits/src/dr.rs:17-25 | for every input the native weight is the payout core's iff the clamp's and the wrap's excess is absorbed by the remainder; up to 64 plays iff the scaled value fits 128 bits; past 64 never less while it fits |
| Prover.WeightsPartPast64 | libs/zk-circuits/src/dr.rs:21-22 | a concrete input of 65 plays that weighs more proven than opened |
| Prover.OutsizedWraps | libs/zk-circuits/src/dr.rs:23-24 | concrete factors in range whose exact weight the circuit accepts and the native product misses |
| Prover.ComputeDigest | libs/zk-circuits/src/poseidon.rs:93-106 | hashes the epoch, tier, key and row outputs in the frozen order |
| Prover.Prove | libs/zk-circuits/src/prove.rs:230-283 | refuses more than sixteen inputs; otherwise the proof system's failure, or its proof with the digest of active rows and canonical padding |
| Prover.PublishedRows | libs/zk-circuits/src/prove.rs:145-215 | the published rows are each input's own work, commitment, pseudonym and weight in order, then the zero row with its hashes, sixteen in all |
| Prover.DigestFromActive | libs/zk-circuits/src/prove.rs:300-325 | refuses more than sixteen rows; otherwise the digest of the padded rows |
| Prover.DigestRoundTrip | libs/zk-circuits/src/prove.rs:286-325 | recomputing from the real rows, without commitments, gives the prover's digest |
| Prover.NativeRemainder | libs/zk-circuits/src/circuit.rs:367-372 | for bounded factors the native value does not wrap and the reduced remainder is the true one |
| Prover.CircuitWeighsAsSettlement | libs/zk-circuits/src/dr.rs:9-25 | the weight a circuit proves is the one settlement computes at curvature 1000000 |
| Prover.WitnessSatisfiesIff | libs/zk-circuits/src/circuit.rs:334-387 | the values the prover assigns satisfy every constraint iff each input is admissible and works are distinct, and otherwise no other advice would |
| Prover.UnplayedUnprovable | libs/zk-circuits/src/prove.rs:174-177 | a concrete input with minutes and no play, which weighs something and cannot be proved |
| Prover.AdmissibleNeutralIff | libs/zk-circuits/src/circuit.rs:47-51 | at the circuit's curvature, admissible means in range and not overflowing 128 bits |
| Prover.OneOpening | libs/zk-circuits/src/poseidon.rs:51-72 | without collisions a pseudonym has at most one opening |
| Prover.WeighsAtMost | libs/zk-circuits/src/circuit.rs:200-222 | an opening's greatest provable weight is the one at the top price and region factors |
| Prover.SubmissionTrusted | libs/zk-circuits/src/circuit.rs:446-469 | rows hashing to a proven digest have every nonzero weight earned by the opening behind the row's own pseudonym, of its work modulo the field order, on works distinct modulo it |
| Consumption.CWEConsumption.SubmitConsumption | chain/contracts/CWEConsumption.sol:76-109 | the exact revert, or the flag set and the event logged |
| Consumption.AcceptedIff | chain/contracts/CWEConsumption.sol:76-109 | after any calls, a call is logged, with its own contents, iff it is nonempty with equal lists, its sender has no event in the thirty-day epoch, and its proof verifies |
| Consumption.RevertMeans | chain/contracts/CWEConsumption.sol:85-101 | which revert refuses a call, in order, read off the log |
| Consumption.RunsSound | chain/contracts/CWEConsumption.sol:95-107 | in every call history each user appears once per epoch and every logged digest was proven |
| Consumption.EpochUsersDistinct | services/settlement/src/chain.rs:194-213 | an epoch's log names each user once |
| Consumption.AcceptedFromAnyone | chain/contracts/CWEConsumption.sol:85-108 | an accepted call's contents are accepted again from any address yet to submit |
| Consumption.LoggedForGood | chain/contracts/CWEConsumption.sol:103-108 | an accepted call stays logged whatever is called after |
| EventMode.AcceptSubmissions | services/settlement/src/chain.rs:355-404 | skips misaligned or mismatching submissions, aborts on unreadable values, and collects fees and rows |
| EventMode.IngestDoneIff | services/settlement/src/chain.rs:355-404 | intake completes iff every aligned submission is readable and every passing one has its fee |
| EventMode.IntakeStopsAt | services/settlement/src/chain.rs:355-404 | a failed intake stopped at its first intolerable submission: a weight of 2^128 or more, then more than sixteen works, then a missing or too wide fee |
| EventMode.OneSubmissionCanAbort | services/settlement/src/chain.rs:373-384 | one aligned submission with too many works or too wide a weight fails every log that holds it |
| EventMode.OversizedCallAborts | services/settlement/src/chain.rs:384-384 | the contract logs a call with too many works, and the epoch's intake then fails whatever else is called |
| EventMode.IntakeExact | services/settlement/src/chain.rs:393-403 | completed intake holds exactly each passing submission's own tier fee and rows, in order, and nothing for anyone else |
| EventMode.EntriesEarned | services/settlement/src/chain.rs:366-389 | every nonzero entry of an accepted submission was earned under its own pseudonym by an opening of its work modulo the field order, on works distinct modulo it |
| EventMode.PaidRowsTrusted | services/settlement/src/chain.rs:383-403 | the rows of one accepted submission are backed by its entries, on works distinct modulo the field order |
| EventMode.PaidWeightsAreEarned | services/settlement/src/chain.rs:355-404 | for every call history and epoch, every nonzero paid weight is an entry of its user's own submission, earned by the one opening behind that entry's pseudonym, of its work modulo the field order, and no user is paid twice for a work, even modulo that order |
| EventMode.PassesSeesResidues | libs/zk-circuits/src/circuit.rs:184-184 | replacing works by values equal modulo the field order changes no acceptance |
| EventMode.EveryWorkHasAlias | libs/zk-circuits/src/circuit.rs:184-184 | every opened work has a second 32-byte value with the same residue and another text |
| EventMode.OpeningsPaidOnceIff | services/settlement/src/chain.rs:366-403 | no opening is paid in two places iff the paid pseudonyms of the epoch are distinct |
| EventMode.SameContentsPaidTwice | services/settlement/src/chain.rs:355-404 | the same contents submitted from a second address pass again, so the paid pseudonyms repeat |
| EventMode.HonestSubmissionPaid | services/settlement/src/chain.rs:381-403 | an honest prover's submission passes the digest check, and its fee and rows are in every completed intake |
| SettlementRun.ResolveCredentials | services/settlement/src/chain.rs:420-432 | each named node's credential, resolved once |
| SettlementRun.ResolveRates | services/settlement/src/chain.rs:443-452 | each row's rate by normalised work, zero when too wide |
| SettlementRun.CachedCredentialsSuffice | services/settlement/src/chain.rs:434-436 | looking credentials up in the cache accepts the same receipts |
| SettlementRun.ComputePpm | services/settlement/src/chain.rs:406-455 | credibility of the accepted rows from the accepted receipts |
| SettlementRun.RunEvents | services/settlement/src/chain.rs:338-500 | the intake's abort, or exactly what settling the accepted rows returns, errors included |
| SettlementRun.RunConserves | services/settlement/src/chain.rs:485-500 | a run pays out exactly the accepted fees, escrows nothing, and every entry's proof verifies |
| SettlementRun.RunPublishesOnce | services/settlement/src/chain.rs:394-402 | a run never meets an unparsable work and publishes each work once |
| SettlementRun.RunWeightsEvidenced | services/settlement/src/chain.rs:454-455 | in a run with receipts every paid weight is capped by accepted blocks |
| SettlementRun.RunCredibilityMeans | services/settlement/src/chain.rs:406-455 | a run's credibilities in those terms at the chain's own rates and the run's epoch; neutral without receipts |
| SettlementRun.UnevidencedRowEarnsNothing | services/settlement/src/receipts.rs:231-264 | in a run with receipts, a row with no rate or no accepted block of its work is credited nothing |
| SettlementRun.CreditWithinBlocks | services/settlement/src/chain.rs:454-490 | a row's credit is bounded by the fee times twice its verified blocks, at the rate's scale over the user's raw total, plus one unit |
| RunBounds.PaidBelowCap | libs/zk-circuits/src/circuit.rs:248-252 | every weight paid in a run is below 2^112 |
| RunBounds.RunNeverOverflows | services/settlement/src/chain.rs:355-500 | with at most 4096 submissions and fees up to 65536, a run never overflows and succeeds iff something is credited |
| RunBounds.LoneSubmissionOverflows | sims/src/lib.rs:466-468 | a receiptless run that accepts a single-work submission whose fee times weight leaves 128 bits overflows |
| RunBounds.TopOpeningOverflows | sims/src/lib.rs:466-468 | an opening in range at the top factors with a fee of 65537 or more does that |
| HexText.FormatParses | libs/wallet-zk/src/lib.rs:69-110 | parsing the text of a 32-byte value gives it back |
| HexText.BareDigitsParse | libs/wallet-zk/src/lib.rs:94-109 | the same digits without the prefix parse to the same value |
| HexText.FormatIsLower | libs/wallet-zk/src/lib.rs:69-73 | the text form is already normalised |
| HexText.FormatOrder | libs/wallet-zk/src/lib.rs:59-73 | texts are ordered as the values they spell |
| Merkle.FoldLevel | services/settlement/src/merkle.rs:61-73 | one level folded, a lone last node carried |
| Merkle.Build | services/settlement/src/merkle.rs:52-77 | builds every level up to a single root |
| Merkle.TreeMeans | services/settlement/src/merkle.rs:52-77 | every level's node is the hash of its ordered children, a lone last one carried, up from the leaves |
| Merkle.Proof | services/settlement/src/merkle.rs:86-101 | the siblings from leaf to root, skipping carried levels |
| Merkle.Verify | services/settlement/src/merkle.rs:105-111 | accepts exactly the leaves that fold to the root |
| Merkle.EveryProofVerifies | services/settlement/src/merkle.rs:85-101 | for every nonempty leaf list and index the generated proof folds to the root |
| Merkle.ProofLength | services/settlement/src/merkle.rs:86-101 | a proof holds at most ceil(log2 n) siblings |
| Merkle.CeilLog2Least | services/settlement/src/merkle.rs:57-75 | the bound is the least power of two at or above n |
| Merkle.ProofBindsLeaf | services/settlement/src/merkle.rs:103-111 | barring collisions among the pairs hashed, one leaf per proof and root |
| Settlement.Finalize | services/settlement/src/settle.rs:159-223 | no credits, the first unparsable work, or the full routed settlement |
| Settlement.RouteAll | services/settlement/src/settle.rs:176-198 | routes every work in order or stops at the first bad id |
| Settlement.KeysRoutedOnce | services/settlement/src/settle.rs:176-195 | each credited key is routed to exactly one bucket, once |
| Settlement.PublishedIn | services/settlement/src/settle.rs:176-195 | a 32-byte work is in a published list iff some credited key that spells it is routed there |
| Settlement.EntriesMean | services/settlement/src/settle.rs:176-214 | a work and amount are in a published list iff a credited key that spells the work is owed that amount there; no direct entry, zero root |
| Settlement.EntriesInOrder | services/settlement/src/settle.rs:176-214 | direct entries stand in the text order of the keys they settle |
| Settlement.PublishedOnceIff | services/settlement/src/settle.rs:176-214 | over both published lists each work occurs once iff no two credited keys spell the same value |
| Settlement.BothBucketsPossible | services/settlement/src/settle.rs:177-191 | a concrete payout that publishes one work in both lists |
| Settlement.EntriesVerify | services/settlement/src/settle.rs:200-214 | every direct entry's proof verifies against the committed root |
| Settlement.SettlementConserves | services/settlement/src/settle.rs:159-223 | direct entries, escrow entries and the unallocated amount sum to the fees |
| Settlement.TotalsExactIff | services/settlement/src/settle.rs:187-210 | the committed totals account for the credits iff each bucket's routed amounts sum below 2^128 |
| Settlement.ModestFeesTotalExactly | services/settlement/src/settle.rs:187-210 | fees below 2^128 in all are accounted for by the committed totals |
| WrappedTotals.TotalsCanWrap | services/settlement/src/settle.rs:210-210 | two fees of 2^127 on distinct works settle, and the totals are zero |
| Settlement.Settle | services/settlement/src/settle.rs:92-103 | settling an opened dataset at the default curvature, with the exact error |
| Settlement.SettleRaw | services/settlement/src/settle.rs:119-130 | settling raw rows with per-work bandwidth, with the exact error |
| Settlement.SettleRawWithRowCredibility | services/settlement/src/settle.rs:139-148 | settling raw rows with per-row credibility: length, overflow, no credits, first bad work, or the settlement |
| DiscoveryIndex.Index.UpsertWork | services/discovery-hub/src/index.rs:88-121 | the exact refusal or the exact new maps, agreement kept; a refusal changes nothing |
| DiscoveryIndex.UpsertAcceptedIff | services/discovery-hub/src/index.rs:88-121 | accepted iff the fingerprint parses and no other work holds it or the content id, with the exact refusal; a work may register again |
| DiscoveryIndex.HistoriesAgree | services/discovery-hub/src/index.rs:53-62 | after every history both secondary maps are exactly the inverses of the works |
| DiscoveryIndex.LookupsAreScans | services/discovery-hub/src/index.rs:125-148 | both lookups return what a linear scan of the works would |
| DiscoveryIndex.LookupMeans | services/discovery-hub/src/index.rs:125-148 | a lookup tells the fields of the work that holds the key, and finds nothing iff none does |
| DiscoveryIndex.UpsertEffect | services/discovery-hub/src/index.rs:107-120 | the new fingerprint resolves, a given-up one does not, others are unchanged |
| DiscoveryIndex.UpsertContentEffect | services/discovery-hub/src/index.rs:107-120 | the same for content ids |
| DiscoveryIndex.Relevance | services/discovery-hub/src/index.rs:289-306 | the weighted token score in 32 bits |
| DiscoveryIndex.TokenWorth | services/discovery-hub/src/index.rs:289-306 | a token is worth three in the title, two in some tag and one in the description |
| DiscoveryIndex.ScoreExactIff | services/discovery-hub/src/index.rs:289-306 | the score is the weighted count iff that fits 32 bits, so for every query below 715 million tokens |
| DiscoveryIndex.Index.Search | services/discovery-hub/src/index.rs:188-223 | one page of the ranking and its total |
| DiscoveryIndex.PagesConcatenate | services/discovery-hub/src/index.rs:213-222 | consecutive pages concatenate to the ranking |
| DiscoveryIndex.SearchComplete | services/discovery-hub/src/index.rs:184-223 | after every history the ranking is strict, complete, and paged without loss or repeat |
| DiscoveryIndex.SearchOrder | services/discovery-hub/src/index.rs:206-212 | higher scores first, equal ones by work id |
| DiscoveryIndex.SearchResult | services/discovery-hub/src/index.rs:188-223 | every result is a registered work of the wanted kind, scored three, two and one per token and summarised by its own fields |
| DiscoveryIndex.SearchFinds | services/discovery-hub/src/index.rs:188-205 | every registered work of the wanted kind with a positive score is found |
| SessionStore.Store.Start | libs/wallet-zk/src/session.rs:86-90 | repoints the session and counts one play |
| SessionStore.Store.AddTime | libs/wallet-zk/src/session.rs:97-108 | accrues to the open session's work, or ignores the event |
| SessionStore.Store.Stop | libs/wallet-zk/src/session.rs:112-114 | forgets the session and says whether it was open |
| SessionStore.TimeGoesToLatestStart | libs/wallet-zk/src/session.rs:86-114 | in every run, time goes to the work of the session's latest start and to nothing after a stop |
| SessionStore.Store.Flush | libs/wallet-zk/src/session.rs:125-147 | emits whole minutes in work order, empties both accumulators, keeps sessions |
| SessionStore.Store.FromState | libs/wallet-zk/src/session.rs:66-69 | a rebuilt store holds exactly the snapshot |
| SessionStore.StateCounts | libs/wallet-zk/src/session.rs:86-108 | from any state, stored seconds and plays are the unbounded counts since the last flush with what the state brought, saturated |
| SessionStore.FlushEntries | libs/wallet-zk/src/session.rs:125-147 | from any state, output is strictly ordered with at least a minute each; plays are the starts since the last flush and any carried ones, zero iff there are neither |
| SessionStore.PlaysCanBeZero | libs/wallet-zk/src/session.rs:136-137 | a concrete run, and a concrete snapshot, whose flush reports a minute with no play |
| SessionStore.SecondsAccounted | libs/wallet-zk/src/session.rs:97-147 | from any state, seconds held and applied are the pending ones plus, per flush, sixty times the minutes and a loss below a minute |

## Left out

- HTTP, RPC, file and environment handling, snapshots and command-line tools: they hold no hard property.
- Cryptography itself (keccak, Poseidon rounds, Groth16, ECDSA recovery, canonical JSON): parameters here, with the hypotheses above.
- Aborts of a run on failing RPC calls, unparsable addresses or unreadable receipt files: the chain reads of `EventMode` and `SettlementRun` are total parameters, except a missing or too-wide tier fee.
- The shared lock around a node's ledger: each poll and each receipt request is one atomic step.
- Loss of a node's in-memory ledger on restart: a run here is one process lifetime.
- Disclosure-mode assembly (`services/settlement/src/chain.rs:223-311`): it trusts its openings and only feeds `Settlement.Settle`.
- Commitment of the root and escrow amounts on chain, and the withdrawal contracts.
- `nearest_fingerprint`, `trending` and `by_creator`: floating-point scoring and plain listings.
- DiscoveryIndex.PagesConcatenate: does not model machine overflow of the page offset, because offsets are naturals here.
- Credibility.SumByUser: visits the verified pairs in an arbitrary order rather than key order, because the sums do not depend on it.
- Settlement.Finalize: Merkle leaves are a hash parameter of the work and the amount, without the byte layout of the preimage.
