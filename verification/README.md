# phi-chain, verified

A Dafny model of the parts of Port-PHI/phi-chain where a mistake costs coin or trust: the coin-age ledger and its early-redemption penalty, the fixed fees and the daily micro-exemption, the credential and agreement registry with its genesis, selective disclosure, the WebAuthn and protobuf encodings, the one-human-one-vote tallies, and the validation of raw genesis records.

Pure code of the repository is modelled by functions, code that changes variables or stores step by step by methods and classes whose contracts tie them to those functions. The main results are statements about every queue, every message list, every byte string or every run.

| file | models |
|---|---|
| `CoinAge.dfy`, `CoinAgeTheorems.dfy`, `MergedLots.dfy`, `AgeTiers.dfy`, `FlooredPenalty.dfy` | the lot queue: spending, penalties by age, insertion, which lots merge, and when oldest-first is cheapest |
| `Ledger.dfy`, `CoinTransfers.dfy`, `CoinGenesis.dfy`, `QuotaGenesis.dfy` | the coin keeper over runs, transfers coin by coin, and the genesis |
| `Fees.dfy`, `FeeTables.dfy`, `Quota.dfy`, `Ante.dfy`, `FreeTransfers.dfy` | fees and their routing, quota keys and pruning, the fee decorator over runs, and who pays nothing |
| `ProtoCodec.dfy`, `WireFormat.dfy`, `Persistence.dfy`, `RawLedger.dfy` | the CoinLot/CoinAge wire format, the queues on the raw store, and whole runs on it |
| `WebAuthn.dfy`, `ProofEnvelope.dfy`, `Framing.dfy`, `Sorting.dfy` | the two length-framed envelopes |
| `Policy.dfy`, `PolicyCollisions.dfy`, `Credentials.dfy`, `CredentialsTheorems.dfy`, `CredentialsAcceptance.dfy`, `CredentialsProvenance.dfy`, `CredentialsGenesis.dfy`, `CredentialsRestart.dfy`, `PersonalAnchors.dfy`, `Disclosure.dfy` | templates, anchors, agreements, restarts, disclosure |
| `Eligibility.dfy`, `Membership.dfy` | the identity keeper's eligibility records: who a frozen basis counts, who starts and who stops passing |
| `Dec.dfy`, `Tally.dfy`, `OneHuman.dfy`, `RunningTally.dfy`, `PublicTally.dfy`, `LateWindow.dfy` | governance counting, with identities changing while a proposal is voted on |
| `StoreEntry.dfy` | raw genesis records |
| `Bytes.dfy`, `Seqs.dfy`, `Sets.dfy`, `Arith.dfy`, `MapSums.dfy` | byte order and big-endian numbers, sequence, size, product and sum lemmas, bank balances |

## Where the code differs from what is said about it

- x/coin/types/coin.pb.go:365-368 says a merge keeps the older timestamp. The code takes the amount-weighted mean, rounded up; `MergeIsTheLeastHonestTimestamp` says exactly which date that is.
- Oldest-first is the cheapest order for the exact bps-weighted charge (`FifoIsOptimal`), but not for the charge floored lot by lot (`FlooringBreaksOptimality`). Under validated rates it is always cheapest exactly when even fresh coin is free (`FlooredFifoIsOptimalIff`); at any rate it is when at most one lot is charged (`OneChargedLotIsOptimal`) or the redemption is too small to owe anything (`SmallRedemptionIsFree`), and elsewhere the difference stays below one uphi per lot (`FlooredFifoIsNearlyOptimal`).
- A surplus lot is dated now minus the age threshold. While that is negative, the exported coin genesis does not validate (`EarlySurplusBreaksExport`); nor does it after max_coin_age_lots was lowered below a stored queue (`LoweredCapBreaksExport`). `CoinGenesis.ExportValidatesIff` gives the exact condition, `CoinGenesis.RunExportsAndReimports` the runs that meet it.
- A template version is a uint32 that wraps (`VersionWrapBreaksAnchors`, `UpdateKeepsInvariantIff`).
- The owner length in a personal-anchor key is one byte, so keys can coincide (`PersonalKeyCollidesIff`). Between owners of 1 to 256 bytes they never do (`PersonalKeyIsInjective`), and the identity module accepts no longer DID (`ValidateDid`), so over every run an anchor is refused as existing exactly when that owner has already made it (`OnlyRepeatsAreRefused`). Only the credentials genesis, which does not check owners, can bring in one that blocks another (`ImportedOwnerBlocksAnother`).
- Lowering max_agreement_signers below a stored agreement makes the credentials export fail its own validation (`LoweredCapRefusesExport`); a run that never lowers it always restarts (`EveryReachableStateRestarts`).
- Credentials genesis validation lets through agreements that no run can produce (`RepeatedSignerPassesValidation`) and personal anchors that overwrite each other (`SharedKeyLosesAnAnchor`); `ImportMeetsInvariantIff` and `ExportUndoesImportIff` say exactly when neither happens.
- Policy preimages of ids that hold a NUL byte can coincide (`NulIdsCollide`); `IdsCollideIff` lists exactly the pairs of ids that can.
- x/credentials/types/credentials.pb.go:147-149 suggests that a template with message_count 0 admits predicate proofs. The proof parser requires at least one message, so it admits none (`NoClaimsNoProof`).
- x/governance/invariants.go:18 promises that the turnout stays within the once-frozen denominator. It does exactly as long as no controller outside the basis receives a standing DID older than the cutoff during the second of the freeze, or at any time when the basis carries no freeze time (`RunKeepsBasisIff`, `InvariantHoldsWithoutLateJoins`). A recovery executed in that second counts two voters against a denominator of one and trips the invariant (`FreezeSecondRecoveryTripsInvariant`). Looking ahead, `TripsIff` says exactly from which states some continuation trips it.
- A controller counted by a frozen basis that later receives an identity older than its own is stamped anew and can no longer vote on it (`StaysIff`).
- RecordVote stores the low byte of an option, and 0xFF is the ineligible mark (`RecordKeepsInvariantIff`). x/gov options never reach it.
- x/governance/tally.go:47 calls its input the latest vote of each controller; the count itself keeps the first vote a list holds from each (`TallyOneHumanOneVote`).
- SetIdentity does not refresh an empty previous controller. The derived records survive that exactly when the DID taken did not decide its record (`SetIdentityKeepsRegistryIff`); every message and the identity genesis demand a controller address, so no run meets the case (`SetIdentityKeepsRegistry`).
- Genesis rules that share a prefix make the answer depend on their order unless they agree (`RuleOrderIsIrrelevantIff`, `SharedPrefixOrderMatters`).

## Model

| member | source | states |
|---|---|---|
| CoinAge.ComputeTotal | x/coin/types/coin_age.go:13-19 | the loop adds up a queue's amounts |
| CoinAge.ComputePenalty | x/coin/types/coin_age.go:27-37 | the loop charges each lot its age tier's bps, floored lot by lot; `AgeTiers` says in seconds which tier that is |
| CoinAge.SpendOldestFirst | x/coin/types/coin_age.go:40-68 | the loop splits a queue into the consumed and remaining queues of the specification, for every amount including zero, negative and beyond the tracked total |
| CoinAge.BoundLots | x/coin/types/coin_age.go:90-102 | the loop merges the two oldest lots until the queue, its length read as a uint32, fits its cap; `MergedLots` says which lots those are |
| CoinAge.InsertLot | x/coin/types/coin_age.go:71-87 | the scan and insertion give the queue of the specification; a non-positive lot changes nothing |
| CoinAgeTheorems.SpendCutsTheCoins | x/coin/types/coin_age.go:40-68 | coin by coin, consumed followed by remaining is the queue followed by the untracked surplus dated at the age boundary |
| CoinAgeTheorems.SpendTakesTheOldestCoins | x/coin/types/coin_age.go:40-68 | a spend takes exactly the first coins of the queue, tops up with surplus coins at the boundary, and leaves the others in order |
| CoinAgeTheorems.SpendTotals | x/coin/types/coin_age.go:40-68 | consumed lots total the amount asked for, remaining lots what is left of the tracked total |
| CoinAgeTheorems.SpendKeepsDates | x/coin/types/coin_age.go:40-68 | remaining lots stay oldest-first, within the same dates and no more numerous |
| CoinAgeTheorems.SplitLeavesTheSameQueue | x/coin/keeper/keeper.go:107-115 | spending a then b leaves the queue that spending a+b leaves |
| CoinAgeTheorems.SplitRedemption | x/coin/keeper/keeper.go:118-124 | redeeming in two parts costs the same or exactly 1 uphi less than at once, for every queue and both amounts, surplus included |
| CoinAgeTheorems.SplitIntoMany | x/coin/keeper/keeper.go:118-124 | n parts leave the same queue and save at most n-1 uphi |
| CoinAgeTheorems.FifoIsOptimal | x/coin/types/coin_age.go:22-68 | on an oldest-first queue with old_bps at most young_bps, no allocation of the same amount has a smaller bps-weighted charge than oldest-first |
| CoinAgeTheorems.FlooringBreaksOptimality | x/coin/types/coin_age.go:27-37 | a concrete queue where another allocation has a smaller floored penalty |
| CoinAgeTheorems.FlooredFifoIsNearlyOptimal | x/coin/types/coin_age.go:27-37 | the floored oldest-first penalty exceeds that of any allocation by less than one uphi per lot |
| FlooredPenalty.FlooredFifoIsOptimalIff | x/coin/types/coin_age.go:27-68 | under validated rates with old coin no dearer, oldest-first has the least floored penalty for every queue and allocation exactly when the rate of coin acquired this second is zero |
| FlooredPenalty.PositiveRateHasACheaperChoice | x/coin/types/coin_age.go:27-68 | for every positive rate a queue of two fresh lots on which another allocation is strictly cheaper |
| FlooredPenalty.OneChargedLotIsOptimal | x/coin/types/coin_age.go:27-68 | with at most one lot at a positive rate oldest-first is cheapest among all allocations |
| FlooredPenalty.SmallRedemptionIsFree | x/coin/types/coin_age.go:27-68 | a redemption whose amount times the young rate is below 10000 owes nothing |
| FlooredPenalty.PenaltyGrows | x/coin/keeper/keeper.go:118-124 | redeeming more never costs less |
| CoinAgeTheorems.PenaltyBound | x/coin/types/coin_age.go:27-37 | a penalty is at most the sum of both rates applied to the queue's total |
| CoinAgeTheorems.RedemptionIsAlwaysOpen | x/coin/types/params.go:123-127 | under validated rates every positive redemption consumes its whole amount, and penalty plus a protocol fee of up to 10% is strictly less than it |
| CoinAgeTheorems.MomentIsTheSumOfCoins | x/coin/types/coin_age.go:104-117 | the sum of amount times date is the sum of the dates of all coins |
| CoinAgeTheorems.MergeMoment | x/coin/types/coin_age.go:104-117 | a merged date lies between the two, and the moment rises by 0 to total-1 |
| CoinAgeTheorems.MergeIsTheLeastHonestTimestamp | x/coin/types/coin_age.go:104-117 | a date is at or after the merged one exactly when using it for both lots would not lower the moment |
| CoinAgeTheorems.BoundedProperties | x/coin/types/coin_age.go:90-102 | bounding keeps order, dates and total, leaves a fitting queue alone, raises the moment by at most the total per merge, and fits the cap for every queue shorter than 2^32 |
| CoinAgeTheorems.PlacedOrder | x/coin/types/coin_age.go:71-87 | placing a lot keeps an oldest-first queue oldest-first |
| CoinAgeTheorems.PlacedTotals | x/coin/types/coin_age.go:71-87 | placing a lot adds exactly its amount and its moment |
| CoinAgeTheorems.InsertProperties | x/coin/types/coin_age.go:71-87 | insertion keeps order, dates and bound, adds exactly the lot's amount and never less than its moment |
| MergedLots.BoundingMergesTheOldest | x/coin/types/coin_age.go:90-102 | for every queue: the excess over the cap and one more of the oldest lots become one lot, folded oldest first, and every younger lot stays as it is |
| MergedLots.FoldedIsBetween | x/coin/types/coin_age.go:104-117 | the folded lot holds all the merged coin, is dated between the first and the last of them, and raises the moment by at most their total for each merge |
| MergedLots.BoundedIsTheCap | x/coin/types/coin_age.go:90-102 | a queue below 2^32 lots that is too long comes out exactly at its cap, only its merged prefix changed |
| AgeTiers.OneMoreLotCosts | x/coin/types/coin_age.go:22-37 | one more lot costs its amount at the old rate exactly when its age in seconds reaches the threshold, else at the young rate, rounded down |
| AgeTiers.RedemptionCostsByAge | x/coin/keeper/keeper.go:118-124 | lots that have reached the threshold pay the old rate, younger ones the young rate, and what the queue cannot cover the old rate, for every queue split at that age and every amount |
| AgeTiers.OldLotsComeFirst | x/coin/types/coin_age.go:40-68 | every oldest-first queue splits at that age |
| Ledger.Keeper.AddCoins | x/coin/keeper/keeper.go:95-104 | the holder's queue becomes the bounded insertion; bank and params are untouched |
| Ledger.Keeper.SpendOldestFirst | x/coin/keeper/keeper.go:107-115 | stores the remaining queue of the holder and returns the consumed one |
| Ledger.Keeper.EarlyRedeemPenalty | x/coin/keeper/keeper.go:118-124 | the holder's queue is spent and the penalty is the one of the consumed lots |
| Ledger.Keeper.Transfer | x/coin/keeper/msg_server.go:29-62 | succeeds exactly for a positive amount the sender's balance covers; then the bank moves it and the recipient inherits every consumed lot with its date; a failure changes nothing |
| Ledger.TransferMovesExactly | x/coin/keeper/msg_server.go:45-53 | the recipient gains exactly the amount, the sender loses exactly min(amount, tracked), a self-transfer leaves max(amount, tracked), nobody else's queue changes |
| CoinTransfers.TransferCarriesTheCoins | x/coin/keeper/msg_server.go:45-53 | when the recipient has room, it holds its own coins and exactly the sender's oldest coins, each with its date, completed by coins at the tier boundary; the sender keeps the others in order and nobody else's queue changes |
| CoinTransfers.SelfTransferKeepsTheCoins | x/coin/keeper/msg_server.go:45-53 | a self-transfer changes no coin's date and adds only the untracked rest |
| CoinTransfers.TransferKeepsTheMoment | x/coin/keeper/msg_server.go:45-53 | room or not: the dates of the recipient's coins add up to what is due and at most the recipient's total more for each merge |
| CoinTransfers.StepMovesDates | x/coin/keeper/keeper.go:95-124 | without a merge every operation changes the number of coins of each date by exactly what it brings in or redeems |
| CoinTransfers.RunConservesEveryDate | x/coin/keeper/msg_server.go:29-62 | over every run without a merge the coins of each single date are conserved across all holders |
| Ledger.StepKeepsInvariant | x/coin/keeper/keeper.go:95-124 | every operation keeps stored queues non-empty, oldest-first, within the bound and never dated in the future |
| Ledger.RunKeepsInvariant | x/coin/keeper/msg_server.go:29-62 | so does every run of insertions, transfers, redemptions, parameter updates and blocks |
| Ledger.RunStaysInInt64 | x/coin/types/coin_age.go:22-24 | over every run the date differences the code takes fit in int64 |
| Ledger.SpendSplitsTheMoment | x/coin/types/coin_age.go:40-68 | a spend splits the moment between consumed and remaining lots exactly, up to its surplus |
| Ledger.RunNeverManufacturesAge | x/coin/types/coin_age.go:90-117 | over every run the tracked coin of all holders is exactly what operations brought in, and the aggregate moment is never below what they brought: no run makes coin older |
| CoinGenesis.ValidateLots | x/coin/types/genesis.go:45-63 | accepts exactly lists whose uint32 length fits the cap, with empty or non-negative amounts, no negative date, oldest-first |
| CoinGenesis.ValidateHoldings | x/coin/types/genesis.go:34-64 | accepts exactly lists of valid, distinct addresses with valid lots |
| CoinGenesis.Validate | x/coin/types/genesis.go:30-72 | accepts exactly valid coin-age and fee params with an empty or proper company payout address, valid holdings and raw records that pass their rule |
| CoinGenesis.InitGenesis | x/coin/keeper/genesis.go:15-34 | refuses an invalid genesis; a valid one is stored completely, and the key check of the raw records never fires |
| CoinGenesis.ImportUndoesExport | x/coin/keeper/genesis.go:15-41 | importing any export of a state that meets the ledger invariant gives back the same queues |
| CoinGenesis.ExportValidatesIff | x/coin/types/genesis.go:30-72 | given addresses, fee params, a payout address and quota records that pass, an export validates exactly when every queue fits the current cap and no date is negative |
| CoinGenesis.RunExportsAndReimports | x/coin/keeper/genesis.go:15-59 | every run with non-negative dates that never lowers the cap ends in a state whose export validates and imports back |
| CoinGenesis.EarlySurplusBreaksExport | x/coin/types/genesis.go:53-55 | after one early transfer no export validates |
| CoinGenesis.LoweredCapBreaksExport | x/coin/types/genesis.go:45-48 | after two insertions and a lower cap no export validates |
| QuotaGenesis.ExportValidatesIff | x/coin/types/genesis.go:23-27 | exported quota records pass their rule exactly when each is eight bytes wide, strictly under the prefix and below the largest uint64 |
| QuotaGenesis.WriteEntries | x/coin/keeper/genesis.go:26-33 | writes the records verbatim, in order, and stops at a key outside the quota prefix |
| QuotaGenesis.AcceptableKeysAreGenesisKeys | x/coin/types/keys.go:67-70 | no key of a validated list is outside it |
| QuotaGenesis.ImportUndoesExport | x/coin/keeper/genesis.go:26-53 | importing an export restores every quota record, no other, and touches no other key |
| QuotaGenesis.RunKeepsCounters | x/coin/keeper/keeper.go:136-139 | every run keeps all quota records well formed |
| QuotaGenesis.RunExportsItsQuota | x/coin/keeper/genesis.go:37-59 | at every point of every run the quota export validates and imports back exactly |
| Fees.FeeFor | x/coin/types/params.go:158-170 | the fee of the first entry for a type, else the default fee, with the code's fallbacks for unreadable texts |
| Fees.SplitFor | x/coin/types/params.go:204-211 | the first split entry of a type, found exactly when one exists |
| Fees.ComputeFeeSplit | x/coin/keeper/fee.go:23-46 | the loop computes the message-wise sum of splits, legs in order |
| Fees.AddMessage | x/coin/keeper/fee.go:26-44 | one message adds its own split, and nothing when it owes no fee |
| Fees.AddRouted | x/coin/keeper/fee.go:28-44 | one message adds its fee to the total, both shares, and a leg for each positive share |
| Fees.SplitAppend | x/coin/keeper/fee.go:23-46 | the split of a concatenation is the sum of the splits |
| Fees.CompanyShareBounds | x/coin/types/params.go:214-217 | the company share is the floor of fee times bps and never exceeds the fee |
| Fees.SplitConserves | x/coin/keeper/fee.go:23-46 | under validated params, for every message list: company legs sum to the company part, validator legs to the validator part, the two parts to the total, and the total is the sum of the fees owed |
| FeeTables.MessagePays | x/coin/types/params.go:158-199 | a listed message type pays the fee of its first readable entry, any other the default fee, and an agreement the extra price for each signer above the free ones |
| FeeTables.FirstEntry | x/coin/types/params.go:158-170 | under validated params every listed type has such an entry |
| FeeTables.MessageIsRouted | x/coin/keeper/fee.go:26-44 | the entry of its own type, by position in the table, gives the company its rate rounded down and the validators the rest, one leg for each part that is not empty; without an entry all goes to the validators |
| FeeTables.TransactionIsRouted | x/coin/keeper/fee.go:23-46 | a transaction pays the sum of its messages' fees, the company gets the sum of its parts, the validators everything else |
| Quota.QuotaKeyInjective | x/coin/types/keys.go:52-57 | equal quota keys mean the same day and identity |
| Quota.QuotaKeyOrder | x/coin/types/keys.go:52-64 | byte order of quota keys is day order, and a key is below a day bound exactly when its day is earlier |
| Quota.StaleIsUnderPrefix | x/coin/types/keys.go:60-64 | nothing outside the quota prefix falls in the pruned range |
| Quota.IncrementCounts | x/coin/keeper/keeper.go:127-139 | an increment raises what its own counter reads by one and leaves every other key alone |
| Quota.LowestStaleIsUnique | x/coin/keeper/keeper.go:142-158 | which keys a prune removes is determined by the store |
| Quota.Keeper.IncrMicroUsed | x/coin/keeper/keeper.go:136-139 | the store with that one counter raised |
| Quota.Keeper.PruneMicroQuota | x/coin/keeper/keeper.go:142-158 | removes exactly the min(256, n) least of the n stale keys, or nothing while no day is old enough |
| Quota.Keeper.DeleteAll | x/coin/keeper/keeper.go:155-157 | removes exactly the collected keys |
| Quota.Iterate | x/coin/keeper/keeper.go:148-154 | the range iterator yields exactly the stale keys, strictly ascending |
| Quota.PruneIsSafe | x/coin/keeper/keeper.go:142-158 | a prune changes no value, no key of another prefix, no counter at or after the cutoff, and never removes a key while an older one stays |
| Quota.PruneCount | x/coin/keeper/keeper.go:142-158 | a prune removes min(256, n) of n stale keys |
| Quota.PrunedByDay | x/coin/keeper/keeper.go:142-158 | a counter is removed exactly when its day is more than seven days back and fewer than 256 quota keys sort before it |
| Ante.FixedFeeDecorator.AnteHandle | app/ante/fee.go:64-141 | accepts and updates, or rejects and leaves everything unchanged, exactly as the step function says, over exemption, fee grant, missing account and underfunding; an accepted transaction emits its fee and payer, then one event for each leg of the split |
| Ante.FixedFeeDecorator.ChargeFee | app/ante/fee.go:104-116 | refuses exactly when the account charged does not hold what it must pay; otherwise every account, the two module accounts included, changes by exactly its part of the fee and the supply stays |
| Ante.FixedFeeDecorator.ConsumeMicroExemption | x/coin/keeper/fee.go:88-95 | raises today's counter of the payer's identity, or nothing without one |
| Ante.AcceptedMovesExactlyTheFee | app/ante/fee.go:104-116 | an accepted transaction moves exactly the fees owed, or zero when exempt, from the account charged, whichever it is, to the two module accounts; supply and everyone else's balance are unchanged |
| FreeTransfers.FreeIff | x/coin/keeper/fee.go:60-86 | a transaction that owes a fee is charged none exactly when it is one transfer below the threshold between two identified humans and the stored counter of the payer's identity today is below the quota; otherwise it is charged what it owes |
| FreeTransfers.TxAcceptedIff | app/ante/fee.go:64-118 | accepted exactly when the collector is set, a granter who pays may and does grant it, the account charged exists and it holds the fee |
| FreeTransfers.AcceptedPays | app/ante/fee.go:88-118 | the granter of a fee that is not nothing, else the payer, loses exactly the fee, the two module accounts gain its parts, and nobody else's balance changes |
| FreeTransfers.AcceptedUses | app/ante/fee.go:136-139 | a finalized free transaction raises the counter of the payer's identity by one and changes no other key; any other leaves the store alone |
| FreeTransfers.FreeMovesAreBounded | x/coin/keeper/fee.go:60-95 | over every run, what one identity moves free of charge in a day is below the day's largest quota times the largest threshold in force |
| Ante.FixedFeeDecorator.EmitEvents | app/ante/fee.go:120-134 | the fee event, then the loop's event for each leg |
| Ante.EventsAccountForTheFee | app/ante/fee.go:126-134 | summed by stream, the events of a transaction give exactly the validators' and the company's share, and each is of a positive amount |
| Ante.StepKeepsQuota | x/coin/keeper/fee.go:60-95 | blocks, transactions, parameter updates and other execution keep the quota invariant |
| Ante.RunKeepsQuota | x/coin/keeper/fee.go:60-95 | at every point of every run each identity's counter today equals the exemptions granted to it today and never exceeds the largest quota in force today |
| Ante.EmptyStoreStartsARun | x/coin/keeper/keeper.go:127-133 | the invariant holds of a store without counters |
| Ante.BacklogDrains | x/coin/keeper/keeper.go:142-158 | while the cutoff stands, b blocks leave max(0, n - 256 b) of n stale keys, whatever transactions come between |
| ProtoCodec.SovIsVarintLength | x/coin/types/coin.pb.go:882-884 | the bit-length formula is the length of the varint, for every number |
| ProtoCodec.SizeAgeIsExact | x/coin/types/coin.pb.go:847-880 | Size is the length of the encoding |
| ProtoCodec.EncodeVarintCoin | x/coin/types/coin.pb.go:745-755 | writes the varint so that it ends where the buffer's tail begins, and moves nothing else of the tail |
| ProtoCodec.MarshalLot | x/coin/types/coin.pb.go:681-699 | the encoding of the lot ends up before the tail, and the count returned is its length |
| ProtoCodec.PutLots | x/coin/types/coin.pb.go:721-734 | the backwards loop leaves the lots in forward order |
| ProtoCodec.MarshalAge | x/coin/types/coin.pb.go:716-743 | fills a buffer of Size bytes completely with the encoding |
| ProtoCodec.Marshal | x/coin/types/coin.pb.go:701-709 | the encoding, Size bytes long |
| ProtoCodec.ReadVarintReads | x/coin/types/coin.pb.go:1488-1501 | the reader undoes every uint64 varint and stops at its end |
| ProtoCodec.DecodeEncodeLot | x/coin/types/coin.pb.go:1482-1582 | decoding an encoded lot gives it back, for every int64 date |
| ProtoCodec.DecodeEncodeAge | x/coin/types/coin.pb.go:1583-1698 | decoding an encoded record gives it back |
| ProtoCodec.EncodeAgeIsInjective | x/coin/types/coin.pb.go:716-743 | different records have different encodings |
| ProtoCodec.DecodeVarint | x/coin/types/coin.pb.go:1488-1501 | the index-based loop reads what the specification reads, with shifts truncated to 64 bits |
| ProtoCodec.DecodeSpan | x/coin/types/coin.pb.go:1514-1541 | a length-delimited field is the next bytes, or refused when the length is negative or runs past the end |
| ProtoCodec.SkipCoin | x/coin/types/coin.pb.go:1699-1777 | skips one field, groups included, and always moves forward within the input |
| ProtoCodec.UnmarshalLot | x/coin/types/coin.pb.go:1482-1582 | the loop decodes any byte string as the specification does: later fields win, unknown ones are skipped, malformed ones refused |
| ProtoCodec.UnmarshalAge | x/coin/types/coin.pb.go:1583-1698 | likewise for a whole record |
| WireFormat.VarintIsBase128 | x/coin/types/coin.pb.go:745-755 | a varint is the shortest list of base-128 digits of its number, lowest first, each but the last with its top bit set |
| WireFormat.RecordBytes | x/coin/types/coin.pb.go:674-743 | one record byte for byte |
| WireFormat.DecodingGoesOn | x/coin/types/coin.pb.go:1583-1698 | two decodable strings in a row decode one after the other |
| WireFormat.ConcatenationMerges | x/coin/types/coin.pb.go:1583-1698 | records in a row decode to one with all their lots in order and the last address given |
| WireFormat.UnknownLeavesNoTrace | x/coin/types/coin.pb.go:1681-1693 | a field of another number, of any wire type but a group, changes nothing |
| WireFormat.WrongTypeIsRefused | x/coin/types/coin.pb.go:1614-1652 | an address or lot field of another wire type is refused |
| WireFormat.TruncatedIsRefused | x/coin/types/coin.pb.go:1583-1698 | a field cut short anywhere is refused |
| Persistence.DecimalReadsBack | x/coin/types/coin_age.go:119-125 | an amount's decimal text reads back as the amount |
| Persistence.ReadAfterWrite | x/coin/keeper/keeper.go:60-78 | a queue written to the raw store reads back through the wire format, and no other address's queue changes |
| Persistence.RawStoreRefinesLedger | x/coin/keeper/keeper.go:60-78 | the raw store keeps representing the ledger's queues |
| Persistence.QuotaAndQueuesAreDisjoint | x/coin/types/keys.go:40-57 | writing queues never changes a counter, raising a counter never changes a queue |
| Persistence.PruneKeepsQueues | x/coin/keeper/keeper.go:142-158 | pruning changes no queue |
| RawLedger.StepStandsFor | x/coin/keeper/keeper.go:60-124 | every ledger operation done on decoded and re-encoded bytes keeps the raw store standing for the queues |
| RawLedger.RawRunRefinesLedger | x/coin/keeper/keeper.go:60-124 | over every run on the raw store that does not panic, the bytes read as the ledger run says, holder by holder, and every quota counter is left alone |
| RawLedger.OrdinaryRunRefinesLedger | x/coin/keeper/keeper.go:60-124 | no run panics whose block times are int64, whose addresses are below 2^32 bytes and in which every holder's tracked coin stays below 2^256; it ends in bytes that read as the ledger run says |
| RawLedger.GrandBoundsEachHolder | x/coin/keeper/keeper.go:60-78 | tracked coin below 2^256 over all holders together is enough |
| RawLedger.OrdinaryRecordsFit | x/coin/keeper/keeper.go:71-78 | a queue within the length limit, of int64 dates and 256-bit amounts, is always writable |
| Framing.ReadFieldReads | x/disclosure/types/proof.go:108-119 | a length-prefixed field is read back with the bytes after it untouched |
| Framing.ReadFieldInverts | x/disclosure/types/proof.go:108-119 | what was read is a length-prefixed field followed by the rest |
| WebAuthn.Marshal | app/ante/webauthn.go:33-43 | the loop writes the tag and the three framed fields |
| WebAuthn.EnvelopeBytes | app/ante/webauthn.go:33-43 | one envelope byte for byte |
| WebAuthn.Unmarshal | app/ante/webauthn.go:51-73 | the loop decodes as the specification does, refusing a missing tag, truncation and trailing bytes |
| WebAuthn.UnmarshalUndoesMarshalIff | app/ante/webauthn.go:33-73 | decoding an encoded envelope gives it back exactly when every field is shorter than 2^32 |
| WebAuthn.MarshalUndoesUnmarshal | app/ante/webauthn.go:33-73 | encoding a decoded envelope gives back the very bytes |
| WebAuthn.AcceptedIffEncoding | app/ante/webauthn.go:51-73 | bytes decode to an envelope exactly when they are its encoding |
| Sorting.SortAscending | x/disclosure/types/proof.go:86-92 | sorts in place: ascending, and a permutation |
| Sorting.AscendingIsUnique | x/disclosure/types/proof.go:86-92 | a strictly ascending list is determined by its set |
| ProofEnvelope.Reader.NextU32 | x/disclosure/types/proof.go:99-106 | the next four bytes as a number, advancing past them, or refusal |
| ProofEnvelope.Reader.NextBytes | x/disclosure/types/proof.go:108-119 | the next framed field, advancing past it, or refusal |
| ProofEnvelope.Reader.NextEntry | x/disclosure/types/proof.go:60-66 | the next index and claim value, advancing past both, or refusal |
| ProofEnvelope.ParseEntries | x/disclosure/types/proof.go:57-76 | accepts exactly entries that parse with distinct indices in range, returning the indices in order |
| ProofEnvelope.ParseDisclosedProof | x/disclosure/types/proof.go:35-84 | the count and the strictly ascending permutation of the revealed indices of an accepted envelope; anything else is refused |
| ProofEnvelope.EncodedIsAccepted | x/disclosure/types/proof.go:35-84 | every well-formed envelope is accepted |
| ProofEnvelope.ProofBytes | x/disclosure/types/proof.go:35-84 | one proof envelope byte for byte |
| ProofEnvelope.AcceptedIffEncoding | x/disclosure/types/proof.go:35-84 | bytes are accepted exactly when they are the encoding of a count in 1..64, a body and at most count distinct in-range entries |
| Policy.ValidateDisclosurePolicy | x/credentials/types/policy.go:23-46 | accepts exactly distinct in-range indices within the claim limit |
| Policy.IsDisclosable | x/credentials/types/policy.go:84-91 | membership |
| Policy.CanonicalIndices | x/credentials/types/policy.go:69-81 | the strictly ascending list of the distinct indices |
| Policy.CanonicalIsAscending | x/credentials/types/policy.go:69-81 | that list is strictly ascending and has the same set |
| Policy.WritePreimage | x/credentials/types/policy.go:49-67 | the bytes fed to the hash |
| Policy.PreimageBytes | x/credentials/types/policy.go:49-67 | one preimage byte for byte |
| Policy.PreimageDependsOnTheSet | x/credentials/types/policy.go:49-81 | order and repetition of indices do not matter |
| Policy.PreimageIsInjectivePerTemplate | x/credentials/types/policy.go:49-67 | for one id, equal preimages mean equal version, count and index set |
| Policy.PreimageIsInjectiveForNulFreeIds | x/credentials/types/policy.go:49-67 | for NUL-free ids, equal preimages mean equal id as well |
| Policy.NulIdsCollide | x/credentials/types/policy.go:49-67 | two valid policies of different templates with one preimage |
| PolicyCollisions.IdsCollideIff | x/credentials/types/policy.go:49-67 | two different ids can share a preimage exactly when one is the other with a NUL and three bytes behind it, or with a NUL, four bytes, a count of 3 to 64 and three NULs |
| Credentials.ValidateSigners | x/credentials/types/msgs.go:109-121 | accepts exactly non-empty lists of distinct non-empty DIDs |
| Credentials.Keeper.RegisterCredentialTemplate | x/credentials/keeper/msg_server.go:27-69 | a new active template at version 1 with the chain-derived policy hash, nothing else changed; every refusal is the one of the first failing check and changes nothing |
| Credentials.Keeper.UpdateCredentialTemplate | x/credentials/keeper/msg_server.go:72-110 | version up by one modulo 2^32 and the policy rehashed; owner, key, creation and status as they were; nothing else changed |
| Credentials.Keeper.DeprecateCredentialTemplate | x/credentials/keeper/msg_server.go:113-136 | only the status and the update time of one template that was not deprecated |
| Credentials.Keeper.AnchorCredential | x/credentials/keeper/msg_server.go:139-187 | a new active anchor at the current version of its template, nothing else changed |
| Credentials.Keeper.RevokeCredential | x/credentials/keeper/msg_server.go:190-213 | only the status of one anchor that was not revoked |
| Credentials.Keeper.CreateAgreement | x/credentials/keeper/msg_server.go:216-242 | a new pending agreement without signatures whose signers fit the cap |
| Credentials.Keeper.SignAgreement | x/credentials/keeper/msg_server.go:245-296 | one more signature of a required DID that had not signed, in time, on a pending agreement, completed exactly when the counts meet |
| Credentials.Keeper.CancelAgreement | x/credentials/keeper/msg_server.go:299-321 | only the status of a pending agreement, by its creator |
| Credentials.Keeper.AnchorPersonal | x/credentials/keeper/msg_server.go:324-351 | a new personal anchor under a key not yet taken |
| Credentials.Keeper.UpdateModuleParams | x/credentials/keeper/msg_server.go:354-364 | only the signer cap, by the authority, never to zero |
| CredentialsAcceptance.AcceptedIffUnopposed | x/credentials/keeper/msg_server.go:27-364 | each of the ten handlers accepts exactly the messages none of its objections is raised against, each told from the records, the documents and the message, and answers the others with the first objection raised, in the source's order |
| CredentialsAcceptance.SignAcceptedIff | x/credentials/keeper/msg_server.go:245-284 | a signature is accepted exactly when the agreement is pending and not past its deadline, if it has one, the DID is required and has not signed, its controller sends it while it is active, and its key verifies |
| CredentialsAcceptance.SignedByAllCompletes | x/credentials/keeper/msg_server.go:245-296 | whatever else is delivered in between, an agreement its creator does not cancel ends completed once a valid signature in time has been delivered for everybody missing |
| CredentialsTheorems.CountsMeetIffAllSigned | x/credentials/keeper/msg_server.go:276-280 | comparing counts of signatures and required signers decides whether everyone signed |
| CredentialsTheorems.SigningKeepsAgreementGood | x/credentials/keeper/msg_server.go:245-296 | a signature keeps signers distinct and required, within the deadline, and completes the agreement exactly when it is the last |
| CredentialsTheorems.StepForward | x/credentials/keeper/msg_server.go:27-364 | every message keeps the registry invariant and changes records only in the permitted ways, versions by at most one |
| CredentialsTheorems.UpdateKeepsInvariantIff | x/credentials/keeper/msg_server.go:90-99 | an update keeps the invariant exactly when the version does not wrap or no anchor needs it |
| CredentialsTheorems.VersionWrapBreaksAnchors | x/credentials/keeper/msg_server.go:90-99 | a concrete wrap that leaves an anchor ahead of its template |
| CredentialsTheorems.RunKeepsAndEvolves | x/credentials/keeper/msg_server.go:27-364 | over every run without a wrap: owner, key and creation fixed, versions never fall, the policy of a version never changes, hashes match, anchors refer to existing templates at versions already issued |
| CredentialsTheorems.ShortRunsNeverWrap | x/credentials/keeper/msg_server.go:90-99 | a run shorter than the remaining versions never wraps |
| CredentialsTheorems.RunFromEmpty | x/credentials/types/genesis.go:11-19 | every state reached from the empty genesis in fewer than 2^32 messages meets the invariant: an agreement is completed exactly when all required DIDs have signed |
| CredentialsTheorems.ClosedRecordsAreFrozen | x/credentials/keeper/msg_server.go:190-321 | completed or cancelled agreements, revoked anchors and deprecated templates never change again |
| CredentialsTheorems.PersonalKeyCollidesIff | x/credentials/types/keys.go:46-51 | two personal anchors share a key exactly when their owner lengths differ by a multiple of 256 and the concatenations agree; never below 256 bytes |
| PersonalAnchors.ValidateDid | x/identity/types/keys.go:62-84 | accepts exactly DIDs of at most 256 bytes with the did:phi: prefix and a non-empty id of URL-safe characters |
| PersonalAnchors.PersonalKeyIsInjective | x/credentials/types/keys.go:46-51 | between owners of 1 to 256 bytes two personal anchors share a key exactly when owner and hash are the same |
| PersonalAnchors.StepKeepsOwners | x/credentials/keeper/msg_server.go:324-351 | with only accepted DIDs registered, owners stay accepted DIDs, and an anchor exists after a message exactly when it did or the message made it |
| PersonalAnchors.OnlyRepeatsAreRefused | x/credentials/keeper/msg_server.go:324-351 | after every run over accepted DIDs a DID's controller is refused an anchor as existing exactly when that owner has already anchored that hash |
| PersonalAnchors.RefusedIff | x/credentials/keeper/msg_server.go:324-331 | whatever the owners, refused as existing exactly when a stored owner's length differs by a multiple of 256 and owner and hash concatenate to the same bytes |
| PersonalAnchors.ImportedOwnerBlocksAnother | x/credentials/types/genesis.go:95-105 | a validated genesis with an owner of 256 extra bytes, after which a registered DID is refused an anchor it never made |
| PersonalAnchors.AcceptedOwnersImportWhole | x/credentials/types/genesis.go:95-105 | a validated genesis whose owners are accepted DIDs imports every anchor and exports back to itself |
| CredentialsProvenance.StepIsAuthorised | x/credentials/keeper/msg_server.go:27-364 | a message changes a template, anchor, agreement, personal anchor or parameter only when its sender controls the active DID concerned, signed the hash where a signature is due, created the agreement it cancels, or is the authority |
| CredentialsProvenance.SignAuthorised | x/credentials/keeper/msg_server.go:245-296 | signing adds one signature, verified over the agreement hash with the key of the signer's own active DID |
| CredentialsProvenance.RunTraces | x/credentials/keeper/msg_server.go:27-364 | every signature, credential, revocation and personal anchor at the end of a run was there before or was rightly written by a message of the run |
| CredentialsProvenance.CompletionIsUnanimous | x/credentials/keeper/msg_server.go:276-280 | an agreement completed in a run from the empty state carries a verified signature, given in that run, of every required DID |
| CredentialsProvenance.CredentialsAreIssued | x/credentials/keeper/msg_server.go:139-213 | every credential of such a run was signed by its issuer for an active subject, and is revoked only if its issuer revoked it |
| CredentialsGenesis.SeenKeyIsInjective | x/credentials/types/genesis.go:95-105 | the duplicate check's key separates every two personal anchors |
| CredentialsGenesis.HexIsInjective | x/credentials/types/genesis.go:46-94 | the hex keys of the duplicate checks separate hashes |
| CredentialsGenesis.ValidateTemplates | x/credentials/types/genesis.go:28-45 | accepts exactly distinct, well-formed templates whose policy hash matches, and indexes them |
| CredentialsGenesis.ValidateAnchors | x/credentials/types/genesis.go:46-62 | accepts exactly distinct anchors of known templates at versions already issued |
| CredentialsGenesis.ValidateAgreements | x/credentials/types/genesis.go:63-94 | accepts exactly distinct agreements with signers within the cap and distinct signatures of required DIDs; status, deadline and repeated signers are not looked at |
| CredentialsGenesis.ValidatePersonals | x/credentials/types/genesis.go:95-105 | accepts exactly distinct well-formed personal anchors |
| CredentialsGenesis.Validate | x/credentials/types/genesis.go:22-107 | accepts exactly the valid genesis states |
| CredentialsGenesis.InitGenesis | x/credentials/keeper/genesis.go:12-32 | refuses an invalid genesis and otherwise stores every record under its key |
| CredentialsGenesis.ImportUndoesExport | x/credentials/keeper/genesis.go:12-60 | importing an export, in whatever order, gives back the state, with no condition on DID lengths |
| CredentialsGenesis.ExportValidatesIff | x/credentials/types/genesis.go:22-107 | the export of a reachable state validates exactly when no agreement exceeds the signer cap in force |
| CredentialsRestart.RunExportsAndReimports | x/credentials/keeper/genesis.go:12-60 | over every run without a version wrap whose accepted parameter updates never lower the signer cap, the export validates and imports back |
| CredentialsRestart.EveryReachableStateRestarts | x/credentials/types/genesis.go:11-107 | from the empty genesis, fewer than 2^32 messages and a cap never lowered suffice for that |
| CredentialsRestart.LoweredCapRefusesExport | x/credentials/types/genesis.go:63-94 | after creating an agreement for two and lowering the cap to one, every export is refused |
| CredentialsRestart.ImportMeetsInvariantIff | x/credentials/types/genesis.go:22-107 | a validated genesis imports to a state the run theorems start from exactly when its agreements have distinct signers, signatures within the deadline and a status that matches them |
| CredentialsRestart.RepeatedSignerPassesValidation | x/credentials/types/genesis.go:63-94 | a validated genesis that does not |
| CredentialsRestart.ExportUndoesImportIff | x/credentials/keeper/genesis.go:12-60 | exporting an imported genesis lists it again exactly when no two personal anchors share a key |
| CredentialsRestart.SharedKeyLosesAnAnchor | x/credentials/keeper/genesis.go:12-32 | a validated genesis whose two personal anchors import to one record |
| Disclosure.VerifyDisclosure | x/disclosure/keeper/grpc_query.go:29-102 | valid exactly for an active anchor, a keyed template, a matching pin, an accepted envelope of the template's count, only disclosable claims and a true proof; every refusal's reason is true and the first that applies |
| Disclosure.JudgeProof | x/disclosure/keeper/grpc_query.go:72-101 | the part of that decision that depends on the proof |
| Disclosure.FirstHidden | x/disclosure/keeper/grpc_query.go:84-89 | the first revealed index that may not be disclosed |
| Disclosure.NoClaimsNoProof | x/disclosure/keeper/grpc_query.go:78-81 | a template that declares no claims admits no valid proof |
| Disclosure.PinMatchesIffNotUpdated | x/disclosure/keeper/grpc_query.go:66-70 | over every run, a policy hash pinned earlier still matches exactly when the template was not updated since |
| Disclosure.PinnedPolicyNeverWidens | x/disclosure/keeper/grpc_query.go:66-70 | a pinned request answered valid was judged under the very policy that was pinned |
| Dec.MulByIntIsExact | vendor/cosmossdk.io/math/legacy_dec.go:317-324 | a whole number times a decimal is not rounded |
| Dec.RatioError | vendor/cosmossdk.io/math/legacy_dec.go:383-391 | the ratio of two whole numbers is at most half a unit of the 18th decimal too high and less than one too low |
| Dec.RatioMonotone | vendor/cosmossdk.io/math/legacy_dec.go:383-391 | a larger part never has a smaller ratio |
| Tally.DominantOption | x/governance/tally_live.go:91-111 | the option of the single choice with the largest positive weight, or abstain; a function of the multiset of choices |
| Tally.TopIsUnique | x/governance/tally_live.go:91-111 | at most one choice tops the others, and then its option is the answer |
| Tally.ScalePublicResults | x/governance/tally_live.go:113-124 | zero results without voters, eligible heads or stake; otherwise turnout and every count times the scale, unrounded, in whatever order the map is walked |
| Tally.SumScaled | x/governance/tally_live.go:119-121 | scaled results add up to the scaled sum of counts |
| Tally.PublicTallyConserves | x/governance/tally_live.go:113-124 | results add up to the power when counts add up to the turnout, shares of the head count are exact, the power is within one 18th-decimal unit per head of the exact proportion |
| Tally.TallyValidatorBallots | x/governance/tally_live.go:131-146 | refused exactly when a weight does not parse; otherwise every option gets its ballots' tokens times weights exactly, and the total is the bonded sum |
| Tally.AddBallot | x/governance/tally_live.go:134-144 | one ballot adds its tokens times each weight, or is refused |
| Tally.WholeBallotsCastAllTheirPower | x/governance/tally_live.go:131-146 | when every ballot's weights sum to one the results sum to the total power |
| Tally.SumBonded | x/governance/tally_live.go:148-154 | the sum of the bonded tokens |
| Eligibility.Keeper.OldestStanding | x/identity/keeper/keeper.go:255-267 | the scan finds the earliest creation time among a controller's DIDs that are not revoked |
| Eligibility.Keeper.RefreshControllerEligibility | x/identity/keeper/keeper.go:252-296 | record, mirror and total follow that time; the stamp is renewed exactly when the record is gained or bettered |
| Eligibility.Keeper.SetIdentity | x/identity/keeper/keeper.go:88-104 | the document and its index entry are written, the new controller is refreshed, and so is the previous one unless it is empty |
| Eligibility.Keeper.CountNewerCapped | x/identity/keeper/keeper.go:220-235 | the reverse scan counts the newer controllers up to its ceiling, and reports exactly when it was cut short |
| Eligibility.Keeper.CountEligibleControllersAt | x/identity/keeper/keeper.go:194-211 | the total less the scanned tail |
| Eligibility.Keeper.IsEligibleControllerSince | x/identity/keeper/keeper.go:306-316 | membership in a basis: old enough and, unless the basis has no freeze time, not bettered after it |
| Eligibility.AgeKeyOrder | x/identity/types/keys.go:169-188 | byte order of the age index is date order |
| Eligibility.SetIdentityKeepsRegistryIff | x/identity/keeper/keeper.go:88-104 | whatever document is written, index, records, mirror and total stay in agreement with the documents exactly unless the write takes from the empty controller the DID that decided its record |
| Eligibility.SetIdentityKeepsRegistry | x/identity/keeper/invariants.go:141-209 | whatever document with a controller address is written, they stay in agreement |
| Eligibility.CountIsMembers | x/identity/keeper/keeper.go:194-211 | the count is the number of controllers old enough and, of those newer than the cutoff, what exceeds 5,000,000 |
| Eligibility.JoinsIff | x/identity/keeper/keeper.go:252-316 | a controller that fails a basis's membership test passes it after a write exactly when the write gives it a standing DID older than the cutoff and the basis has no freeze time or is not from before the present second |
| Membership.EligibleAtIff | x/identity/keeper/keeper.go:252-304 | a controller passes the age test exactly when it controls a standing identity created at or before the cutoff |
| Membership.StaysIff | x/identity/keeper/keeper.go:252-316 | a controller that passes a basis's membership test still passes after a write exactly when it holds a standing identity old enough and the write did not better its record after the freeze |
| OneHuman.TallyOneHumanOneVote | x/governance/tally.go:63-88 | each count is the number of eligible controllers whose first listed vote is for that option; together they never exceed the eligible set, which never exceeds the identity keeper's count |
| OneHuman.CountVotes | x/governance/tally.go:67-87 | the loop counts each eligible voter once |
| OneHuman.CountedVotesAreVoters | x/governance/tally.go:63-88 | the heads counted are exactly the eligible whose first vote is for one of the four options |
| OneHuman.PassIsReal | x/governance/tally.go:91-116 | an approval's true yes share is above the threshold; true turnout and veto share are within rounding of their limits |
| OneHuman.MoreYesStillPasses | x/governance/tally.go:91-116 | heads moving from no or veto to yes never undo an approval |
| OneHuman.PassIsMajority | x/governance/tally.go:91-116 | at a threshold of one half or more an approval has a true majority |
| OneHuman.OnlyOneSideCarries | x/governance/tally.go:91-116 | then yes and no cannot both carry |
| RunningTally.Keeper.RecordVote | x/governance/keeper/tally_state.go:105-129 | the state and answer of the record function: retraction, first count, ineligible mark |
| RunningTally.RecordKeepsInvariantIff | x/governance/keeper/tally_state.go:105-129 | recording keeps every count equal to its voters, and their sum equal to the turnout and the number of voters, exactly unless a counted option's low byte is the ineligible mark |
| RunningTally.VoteHooks.FreezeEligibilityOnce | x/governance/hooks.go:95-114 | a basis once taken is never replaced; a new one holds the count at the cutoff, the cutoff and the block time |
| RunningTally.VoteHooks.RecordBallot | x/governance/hooks.go:65-85 | accepts exactly validators on the technical route and controllers that pass the membership test on the public one, and records the dominant option |
| RunningTally.NextKeepsBasisIff | x/governance/hooks.go:65-114 | a block, a deposit, a ballot or an identity write keeps counted and countable voters within the frozen basis exactly when it is not a late join: a controller outside the basis given a standing DID older than the cutoff, in the second of the freeze or against a basis without a freeze time |
| RunningTally.RunKeepsBasisIff | x/governance/invariants.go:18-62 | over every interleaving of blocks, identity writes, deposits and ballots, counted and countable voters stay within the basis at every point exactly when no late join occurs |
| RunningTally.LateJoinIsCounted | x/governance/hooks.go:78-84 | after a late join the next ballot of that controller counts somebody the basis does not |
| RunningTally.RunIsExact | x/governance/keeper/tally_state.go:105-129 | over every run, late joins or not, each count is its voters, and sum, turnout and records agree |
| RunningTally.RunCountsLatestBallots | x/governance/keeper/tally_state.go:105-129 | at every point of every run the counts are those of each voter's latest counted ballot, and the turnout is the number of such voters |
| PublicTally.RunningTallyEqualsRecount | x/governance/tally.go:63-88 | at every point of a run where the basis holds, the tally kept ballot by ballot equals the per-head recount of the latest ballots over the basis |
| PublicTally.TallyPublicLive | x/governance/tally_live.go:43-61 | reads the running tally against the frozen denominator, or the eligible total without one |
| PublicTally.PublicResultsAddUp | x/governance/tally_live.go:43-61 | at every point of every run the results sum to the power and hold each option's exact share of the voters; while the basis holds, the turnout is within the denominator and the power below bonded stake plus one 18th-decimal unit per head |
| PublicTally.TurnoutInvariantBroken | x/governance/invariants.go:19-62 | the check trips exactly when turnout, counts, records and denominator disagree |
| PublicTally.ConsistentIffWithinDenominator | x/governance/invariants.go:19-62 | over every run the check can trip only by the turnout passing the denominator |
| PublicTally.InvariantHoldsWithoutLateJoins | x/governance/invariants.go:19-62 | a run without a late join never trips it |
| PublicTally.LateVoteTripsFullBasis | x/governance/invariants.go:42-46 | once everybody the denominator counts has voted, one late voter trips it |
| PublicTally.FreezeSecondRecoveryTripsInvariant | x/identity/keeper/msg_server_recovery.go:304-308 | a recovery executed in the second of the freeze: turnout two against a denominator of one |
| LateWindow.WriteAdmits | x/identity/keeper/keeper.go:88-104 | a write lets at most the receiving controller pass the membership test of a frozen basis, and lets it exactly when the identity stands, is old enough and the basis can still be joined |
| LateWindow.ShutNeverTrips | x/governance/invariants.go:19-62 | while those counted and those who pass are within the denominator, a shut window stays shut and no continuation of identity messages, ballots, deposits and blocks trips the check |
| LateWindow.OpenWindowTrips | x/governance/hooks.go:78-84 | from an open window a continuation that trips it: registrations, recoveries of each identity at most once a second, and ballots, for every denominator |
| LateWindow.TripsIff | x/governance/invariants.go:18-62 | some continuation trips the check if and only if those counted and those who pass already exceed the denominator, or the basis can still be joined and either registrations are old enough, or it has no freeze time and an identity old enough stands, or with every identity left to recover this second they would exceed it |
| LateWindow.RunsAreCounting | x/governance/invariants.go:18-62 | every run from an untouched proposal reaches the states these statements are about; without a late join those who pass are within the denominator |
| StoreEntry.FindRule | internal/storeentry/storeentry.go:64-71 | the first rule the key lies strictly under |
| StoreEntry.OrderedIsSorted | internal/storeentry/storeentry.go:31-35 | the stable order is longest-first and a permutation |
| StoreEntry.MatchPicksLongest | internal/storeentry/storeentry.go:31-71 | the rule that judges a key has the longest matching prefix, first listed among equals, and none is found exactly when none matches |
| StoreEntry.Validate | internal/storeentry/storeentry.go:30-62 | accepts exactly lists of distinct keys whose values fit and satisfy their rule; otherwise complains truly about the first entry at fault |
| StoreEntry.EntryOrderIsIrrelevant | internal/storeentry/storeentry.go:37-61 | the answer does not depend on the order of entries |
| StoreEntry.RuleOrderIsIrrelevantIff | internal/storeentry/storeentry.go:29-35 | the answers do not depend on the order of rules exactly when rules of one prefix agree on every value that fits |
| StoreEntry.SharedPrefixOrderMatters | internal/storeentry/storeentry.go:29-35 | two rules of one prefix whose order decides whether an entry passes |
| StoreEntry.DistinctPrefixesAreOrderFree | internal/storeentry/storeentry.go:29-35 | in particular they do not when all prefixes differ |

## Left out

- Amounts are naturals or integers in the ledger, texts read as empty, malformed or a number in the fee tables and the genesis, and decimal digits on the wire; the base prefixes NewIntFromString would also read, and the range panics of math.Int and LegacyDec beyond the one `RawLedger` names, are not modelled.
- Cryptography: the signature and BBS+ verifiers are arbitrary functions of key, message and proof, WebAuthn assertions are not verified, SHA-256 is an arbitrary function of the preimage, and only the pinning theorems assume that one preimage has no collision.
- Addresses and DIDs are byte strings; bech32 parsing, events other than those of the fee decorator, logging and gas are not modelled.
- Error texts: the wire decoders and the genesis validators answer only that an input is refused, except where a reason is part of the answer (disclosure, raw genesis records, credential handlers).
- Identity: registration, rotation, suspension, revocation and recovery are modelled by the one write they share, SetIdentity with any document that has a controller; their own authorisation, uniqueness markers, guardians and the recovery protocol are not. The uint64 total of eligible controllers is unbounded, and controllers are taken to hold no NUL byte, which bech32 texts never do.
- RunningTally.Keeper.RecordVote: one proposal's records; the proposal number in the store keys is dropped, and so are queueing, pruning and the export of tally state.
- PublicTally.SumCounts: adds in unbounded integers; in every reachable state the sum is the turnout, which is below 2^64.
- OneHuman.PassIsReal: head counts are added in unbounded integers; each is at most the eligible total.
- Tally.TallyValidatorBallots: weight texts are taken as parsed or unparsable, the lookup of ballots in x/gov is not modelled, and options are the four x/gov stores.
- CoinAgeTheorems.FlooredFifoIsNearlyOptimal: bounds the difference for every queue; the exact condition is given per set of rates, and two sufficient ones per queue.
- ProtoCodec.UnmarshalAge: inputs shorter than 2^63 bytes; nil slices and empty slices are the same.
- Quota.Iterate: the store iterator is modelled by its result, the keys of a range in byte order.
- Ante.FixedFeeDecorator.AnteHandle: the next decorator is not modelled.
- LateWindow.OpenWindowTrips: recovery requests are not part of the state; a recovery may execute for any active identity that was neither registered nor recovered in the same second, as the recovery delay of at least one second and the end of an identity's other requests allow.
- RawLedger.RawRunRefinesLedger: quota increments and pruning between operations are covered one at a time in `Persistence`.
- WithdrawRevenue, MaxGasDecorator, query servers other than VerifyDisclosure, module wiring, CLI and REST are left out: they would only add easy members.
- x/institutions, x/voting and the rest of x/identity are large modules of their own and are not modelled; of x/identity only what the frozen basis rests on is. The other protobuf messages have the shape of CoinLot and CoinAge.
- Nothing here was executed; the statements are about the model.
