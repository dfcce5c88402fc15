# Leafsii in Dafny

A verified model of the parts of Leafsii in which correctness is hardest to see: the stability pool and
protocol core, the in-memory relational store, the cross-chain bridge ledger, the key-value store with its
failover wrapper, and two places where the same thing is computed in two ways. `dafny verify dfyconfig.toml`
checks all of it.

| part | files |
|---|---|
| Stability pool and core: scaled shares, shrink factor and reward index as a fast form of a per-user ledger; solvency; deferred against direct redemption | `StabilityPool`, `UserSums`, `ProtocolCore`, `ProtocolWorld`, `ProtocolInvariants`, `ProtocolSafety`, `ProtocolBalance`, `PriceLimits`, `ProtocolCalls`, `NaiveLedger`, `DeferredPayment`, `ProtocolObjects` |
| Relational store: uniqueness, references, snapshot transactions, filters, stable sort, pages | `Records`, `RelationalStore`, `StoreIntegrity`, `StoreLaws`, `StoreTransactions`, `MemoryDatabase`, `QueryBuilder`, `SortMeaning`, `Filters`, `Queries`, `QueryMeaning` |
| Bridge: checkpoints, balances, deposits and redeems, rounding | `BridgeLedger`, `BridgeAmounts`, `BridgeFlows`, `BridgeReplies`, `BridgeObjects` |
| Key-value store: four typed maps as one map of cells, eviction, counters, lists; failover | `KvSpec`, `KvEviction`, `KvTypes`, `KvLaws`, `MemoryStore`, `Failover`, `FailoverReturn`, `FailoverClose` |
| Candles in Go and TypeScript; the token amount printer and parser | `Candles`, `CandleMeaning`, `Decimals`, `TokenAmounts`, `AmountText` |

Code that changes state in place is a class whose methods are proved against step functions; the properties
are lemmas about those functions over all states and all runs. What each call answers and leaves behind is also
stated apart from those functions, in the caller's terms (`StoreLaws`, `SortMeaning`, `QueryMeaning`,
`ProtocolCalls`, `PriceLimits`, `BridgeReplies`, `KvLaws`, `CandleMeaning`, `AmountText`).

## What the model brought to light

Where a property does not hold of the code, the model keeps the code, shows an input, and proves exactly when
the property holds.

- A withdrawal may exceed the deposit by EPS, so a user without any deposit can take EPS fTokens out and end
  with negative shares (`WithdrawLeavesSharesIff`, `NewcomerOverdraws`). Runs with the pool identities are
  therefore those whose withdrawals stay within the deposit.
- An L3 call in a thinly backed state promises more SUI than the reserve holds (`UncoveredL3BreaksSolvency`);
  `L3SolventIff` gives the exact cover needed. Harvest raises the obligation without a reserve inflow and needs
  the same amount of slack (`StepSolventIff`, `UnpairedHarvestBreaksSolvency`). An L3 call below ratio 1 lowers
  the ratio (`L3RatioIff`, `L3LowersRatioBelowPar`).
- Deferring the payment differs from redeeming directly when the L3 calls leave the state insolvent, or when
  somebody's payout is so small that a claim settles it away unpaid (`DeferredEqualsDirect`, `DustIsLost`).
- The first oracle price is not checked: a negative one is accepted and mints negative fTokens
  (`OracleKeepsIff`, `NegativeFirstPriceAccepted`). The runs of the pool identities exclude it. A price stamped 0
  is accepted and lifts the limits for the next one (`PriceAcceptedIff`, `ZeroStampLiftsLimits`).
- check_invariant leaves promised SUI out. No call issues xTokens, and without them Px is never refreshed, so an L3
  call opens a gap of what it burns until the claims come in, and a claim of harvested SUI opens one the other way
  (`StepGap`, `L3KeepsInvariantIff`, `ClaimKeepsInvariantIff`, `BurnOpensGapClaimCloses`,
  `ClaimAfterHarvestOpensGap`). Net of promises the balance is conserved between prices (`RunKeepsNetGap`), and the
  check holds exactly when what is unpaid is within its tolerance (`RunInvariantIff`).
- The core imports a copy of `sp_obligation_sui` (pseudocode_stable.py:59); the model has the one shared value
  the comments describe. Deposit and withdraw settle and drop what was owed; that sum is kept as bookkeeping.
- Create tells the uniqueness check to skip the id "", so a row stored under the empty id admits duplicates
  (`EmptyIdAdmitsDuplicate`). An Update that changes "id" breaks the table and any reference to the row
  (`UpdateKeepsIntegrityIff`, `UpdateKeepsRefsElsewhereIff`, `UpdateOfIdOrphansChild`). Delete does not look at
  references inside its own table (`DeleteKeepsSelfRefsIff`, `DeleteOrphansChild`).
- Update does not look at types: it stores values in columns that do not admit them (`UpdateKeepsTypedIff`,
  `UpdateAdmitsMistyped`).
- A transaction function that commits or rolls back itself escapes the driver's rollback (`TransactionOutcome`,
  `CommitSurvivesFailure`).
- Values of different kinds compare as equal, so a comparison need not be transitive; the result of a sort is
  sorted exactly when it is, ties broken by position (`OrderedIsStableSort`, `MixedKindsStayUnsorted`).
- A condition with a lower and an upper bound checks the lower one only (`RangeQueriesAgreeIff`,
  `RangeReturnsFive`), and a value of another kind meets every inclusive bound (`OtherKindsMeetInclusiveBounds`).
- A redeem refused by the debit has already published a smaller total (`LateRefusalIff`, `RunTracksHoldings`), and
  later redeems by owners who hold their shares are refused because of it (`RedeemServedIff`,
  `StrangerLocksOutHolder`).
  Amounts that do not fit 64 bits mint nothing (`ToUintKeepsIff`, `HugeAmountMintsNothing`).
- Set without a TTL keeps the key's old deadline, Del counts expired keys, and IncrBy on a live non-string key
  leaves the key in two maps (`SetThenGetIff`, `DeletedCountIff`, `StepKeepsOneMapIff`,
  `CounterOnHash`).
- A demotion between a promotion's switch to the primary and its stop of the probe leaves the store on its
  fallback for good (`RunReturnsIff`, `ImpoliteDemotionStrands`). Two stores of different concrete types, such as
  Redis with memory (pkg/kv/factory.go:166-173), panic at the first switch (`MixedNeverFailsOver`).
- Before 1970 the two candle alignments differ (`AlignmentsAgreeIff`, `AlignmentsDifferAtMinusOne`).

## Model

| member | source | states |
|---|---|---|
| `ProtocolInvariants.ControllerEffect` | walrus-leafsii/docs/rebalance_pool.py:59-98 | a burn of b takes exactly b out of the pool, at most halves the scale, spreads exactly the indexed SUI over the shares, and happens exactly when the guards let it |
| `ProtocolInvariants.StepKeepsInv` | walrus-leafsii/docs/rebalance_pool.py:86-172 | every call, withdrawals within the deposit and a first price not below zero (join, mint, redeem, oracle, deposit, withdraw, L3, harvest, claim) keeps: users' scaled shares sum to the total, pending SUI plus what settlement dropped is the obligation, and supply is free tokens plus pool |
| `ProtocolInvariants.RunKeepsInv` | walrus-leafsii/docs/rebalance_pool.py:34-37 | the same over every run of such calls by any number of users; together with GenesisInv, every reachable state |
| `ProtocolInvariants.GenesisInv` | walrus-leafsii/docs/rebalance_pool.py:34-37 | the initial state satisfies those identities |
| `ProtocolInvariants.PendingWithinObligation` | walrus-leafsii/docs/rebalance_pool.py:136-153 | no user's pending SUI exceeds the obligation, so the clamp after a claim never acts |
| `ProtocolInvariants.SharesNonNeg` | walrus-leafsii/docs/rebalance_pool.py:49-50 | the pool never holds a negative amount nor more than the fToken supply |
| `ProtocolInvariants.L3Effect` | walrus-leafsii/docs/pseudocode_stable.py:173-203 | an L3 call burns exactly its quote from both supply and pool, indexes its worth in SUI, and leaves reserve and price alone |
| `ProtocolInvariants.L3Controller` | walrus-leafsii/docs/pseudocode_stable.py:188-195 | the pool never cuts an L3 request: the core's own cap is already the pool's |
| `ProtocolSafety.StepSolventIff` | walrus-leafsii/docs/pseudocode_stable.py:248-250 | a call keeps the reserve at or above the obligation exactly when it is covered on entry: always for mint, redeem, oracle and claim, under a stated condition for L3 and for an unpaired harvest |
| `ProtocolSafety.L3SolventIff` | walrus-leafsii/docs/pseudocode_stable.py:162-203 | the exact collateral an L3 call needs on entry |
| `ProtocolSafety.QuoteIsNeedOrCap` | walrus-leafsii/docs/pseudocode_stable.py:162-189 | a burning L3 call burns the smaller of what the target needs and half the pool |
| `ProtocolSafety.HalfCollateralCovers` | walrus-leafsii/docs/pseudocode_stable.py:73-82 | net collateral worth half of the supply is enough for any L3 call |
| `ProtocolSafety.UncoveredL3BreaksSolvency` | walrus-leafsii/docs/pseudocode_stable.py:173-237 | below that an L3 call can promise more SUI than the reserve holds, and the claim is then rejected (concrete state) |
| `ProtocolSafety.CoveredRunSolvent` | walrus-leafsii/docs/pseudocode_stable.py:227-237 | after any covered run the state is solvent and every claim by a known user is paid in full |
| `ProtocolSafety.L3RatioIff` | walrus-leafsii/docs/pseudocode_stable.py:80-82 | an L3 call that burns does not lower the collateral ratio exactly when that was at least 1 (or 0) on entry, and from 1 upwards never lifts it above the target |
| `ProtocolSafety.ScaleAfterBurns` | walrus-leafsii/docs/rebalance_pool.py:76-95 | after n burns the scale is at least 2^-n of what it was, so division by it stays defined |
| `ProtocolSafety.WithdrawLeavesSharesIff` | walrus-leafsii/docs/rebalance_pool.py:121-134 | a withdrawal leaves non-negative shares exactly when it does not use the EPS tolerance |
| `ProtocolSafety.ToleranceOverdraws` | walrus-leafsii/docs/rebalance_pool.py:127-134 | a user without deposit can withdraw EPS and ends with negative shares |
| `ProtocolSafety.NewcomerOverdraws` | walrus-leafsii/docs/rebalance_pool.py:121-134 | such a user is reachable: anyone who has just joined |
| `ProtocolSafety.UnpairedHarvestBreaksSolvency` | walrus-leafsii/docs/rebalance_pool.py:158-172 | concrete state in which a harvest promises more SUI than the reserve holds |
| `ProtocolSafety.L3LowersRatioBelowPar` | walrus-leafsii/docs/pseudocode_stable.py:173-203 | concrete state below ratio 1 in which the L3 call lowers the ratio |
| `ProtocolBalance.OracleKeepsIff` | walrus-leafsii/docs/pseudocode_stable.py:95-115 | an accepted price keeps the pool identities exactly when it is not a negative first price |
| `ProtocolBalance.NegativeFirstPriceAccepted` | walrus-leafsii/docs/pseudocode_stable.py:101-111 | any negative first price is accepted and the next mint issues negative fTokens |
| `ProtocolBalance.NewProtocolTakesAnyFirstPrice` | walrus-leafsii/docs/pseudocode_stable.py:45-50 | the new protocol with its first user is such a state |
| `ProtocolBalance.RefreshClosesGapIff` | walrus-leafsii/docs/pseudocode_stable.py:84-90 | with xTokens, refreshing Px balances reserve value against both tokens exactly when the reserve is worth the fTokens; without them it changes nothing |
| `ProtocolBalance.RunKeepsNx` | walrus-leafsii/docs/pseudocode_stable.py:45-90 | no call issues or burns an xToken, so a new protocol is always in the second case |
| `ProtocolBalance.StepGap` | walrus-leafsii/docs/pseudocode_stable.py:84-246 | what every call does to that balance in every state: with xTokens the calls that refresh Px close it as far as the reserve reaches; otherwise mint and redeem keep it, a price moves it by the revaluation of the reserve, an L3 call adds its burn and a claim takes off what it pays |
| `ProtocolBalance.RunGap` | walrus-leafsii/docs/pseudocode_stable.py:84-246 | without xTokens Px is never refreshed, so the gap after any run is the sum of all those moves |
| `ProtocolBalance.ClaimKeepsInvariantIff` | walrus-leafsii/docs/pseudocode_stable.py:242-246 | from a balanced state a claim keeps check_invariant exactly when it is refused or its claimable amount is worth no more than the tolerance |
| `ProtocolBalance.L3KeepsInvariantIff` | walrus-leafsii/docs/pseudocode_stable.py:173-246 | from a balanced state an L3 call keeps check_invariant exactly when its quote is within the tolerance or, with xTokens, when the reserve does not fall short of the remaining fTokens by more |
| `ProtocolBalance.StepNetGap` | walrus-leafsii/docs/pseudocode_stable.py:242-250 | counting promised SUI as paid, only a price and a harvest without SUI inflow move the balance |
| `ProtocolBalance.RunKeepsNetGap` | walrus-leafsii/docs/pseudocode_stable.py:131-246 | so it is conserved over every run between two prices, whoever mints, redeems, burns, deposits, withdraws and claims |
| `ProtocolBalance.RunInvariantIff` | walrus-leafsii/docs/pseudocode_stable.py:242-246 | over such a run from a balanced net reserve, check_invariant, which leaves promises out, holds exactly when what is promised and unpaid is worth no more than the tolerance |
| `ProtocolBalance.OneDepositorReachable` | walrus-leafsii/docs/pseudocode_stable.py:95-141 | four calls lead from the new protocol to 100 SUI at $1 with 100 deposited fTokens |
| `ProtocolBalance.BurnOpensGapClaimCloses` | walrus-leafsii/docs/pseudocode_stable.py:173-246 | there an L3 call opens a gap of 50 and the following claim closes it |
| `ProtocolBalance.ClaimAfterHarvestOpensGap` | walrus-leafsii/docs/pseudocode_stable.py:227-246 | there a harvest keeps the gap closed and the following claim opens it |
| `PriceLimits.PriceAcceptedIff` | walrus-leafsii/docs/pseudocode_stable.py:95-115 | the first price is free; a later one is accepted exactly when it is at most an hour late and between 0.8 and 1.2 times the price before (or, below 10^-12, times 10^-12), and then it is the price |
| `PriceLimits.PriceWithinSteps` | walrus-leafsii/docs/pseudocode_stable.py:95-115 | over every run, n accepted prices after one of p that counts stay between p * 0.8^n and p * 1.2^n, as long as they count and none is stamped 0 |
| `PriceLimits.ZeroStampLiftsLimits` | walrus-leafsii/docs/pseudocode_stable.py:95-115 | a price stamped 0 is accepted and the next one, whatever it is, is taken for the first |
| `ProtocolCalls.MintAnswers` | walrus-leafsii/docs/pseudocode_stable.py:131-141 | a mint takes any positive deposit of a known user and issues its dollar value, to him and to the supply |
| `ProtocolCalls.RedeemAnswers` | walrus-leafsii/docs/pseudocode_stable.py:143-157 | a redeem is accepted exactly for fTokens the user has free and the reserve after all promises is worth, and pays what they are worth |
| `ProtocolCalls.ClaimAnswers` | walrus-leafsii/docs/rebalance_pool.py:136-153 | a claim settles up to 10^-12 SUI unpaid, is refused beyond the reserve and that tolerance, and pays all else in full |
| `ProtocolCalls.HarvestAnswers` | walrus-leafsii/docs/rebalance_pool.py:158-172 | a harvest pays a hundredth to its caller and owes every depositor his part of the rest |
| `ProtocolCalls.L3Answers` | walrus-leafsii/docs/pseudocode_stable.py:162-203 | an L3 call is refused without a price or target, does nothing where too little is at stake, and otherwise burns what brings the supply left to the target at the net reserve held, or half the pool if that is less |
| `ProtocolCalls.RatioMeans` | walrus-leafsii/docs/pseudocode_stable.py:73-82 | the collateral ratio times the supply is what the reserve after all promises is worth |
| `NaiveLedger.PoolMoveDistributes` | walrus-leafsii/docs/rebalance_pool.py:86-95 | one change of scale and index is the pro rata change of every account |
| `NaiveLedger.TotalIsTotalF` | walrus-leafsii/docs/rebalance_pool.py:49-50 | the pool's one multiplication is the sum over all users' deposits |
| `NaiveLedger.StepRefines` | walrus-leafsii/docs/rebalance_pool.py:59-172 | one call on the pool is one call on books that store every account, walk all of them and decide acceptance and amounts themselves: same books after it, same answer |
| `NaiveLedger.OutcomesAreTheLedgers` | walrus-leafsii/docs/pseudocode_stable.py:95-203 | the answer to every call (accepted or not, every amount, both results of an L3 call) is the one those books compute from their own sums |
| `NaiveLedger.RunRefines` | walrus-leafsii/docs/rebalance_pool.py:59-172 | every run with withdrawals within the deposits is the run the books make on their own, answer by answer |
| `NaiveLedger.AggregatesAreThePools` | walrus-leafsii/docs/rebalance_pool.py:34-50 | total and obligation of the pool are the sums over all accounts |
| `DeferredPayment.L3RunIsRedeemRun` | walrus-leafsii/docs/pseudocode_stable.py:143-203 | from a solvent state, redeeming the amounts a run of L3 calls burned is accepted throughout exactly when that run ends solvent, and then supply and net reserve agree |
| `DeferredPayment.ClaimsPay` | walrus-leafsii/docs/rebalance_pool.py:136-153 | in a solvent state claims by any users in any order are all honoured, keep the net reserve, and drop something exactly when a claimant has dust |
| `DeferredPayment.DeferredEqualsDirect` | walrus-leafsii/docs/pseudocode_stable.py:84-203 | L3 calls followed by everyone's claims leave the core, after the next Px update, as direct redemptions would, exactly when the L3 calls left the state solvent and nobody with dust |
| `DeferredPayment.DustIsLost` | walrus-leafsii/docs/rebalance_pool.py:145-147 | concrete state in which a small depositor's payout is dust and the two ways differ |
| `ProtocolObjects.RebalancePool.ControllerRebalance` | walrus-leafsii/docs/rebalance_pool.py:59-98 | new pool fields and returned pair are those of the step function |
| `ProtocolObjects.RebalancePool.SettleUser` | walrus-leafsii/docs/rebalance_pool.py:103-107 | returns the non-negative accrual and moves the snapshot |
| `ProtocolObjects.RebalancePool.Deposit` | walrus-leafsii/docs/rebalance_pool.py:109-119 | accepts or refuses, and changes user and pool, as the step function says |
| `ProtocolObjects.RebalancePool.Withdraw` | walrus-leafsii/docs/rebalance_pool.py:121-134 | the same for withdrawals, with the EPS tolerance |
| `ProtocolObjects.RebalancePool.Claim` | walrus-leafsii/docs/rebalance_pool.py:136-153 | pays through the core, lowers the obligation, or aborts with nothing changed but what the abort restores |
| `ProtocolObjects.RebalancePool.IndexHarvest` | walrus-leafsii/docs/rebalance_pool.py:158-172 | raises index and obligation by the harvest less the bounty |
| `ProtocolObjects.StableCore.RefreshPx` | walrus-leafsii/docs/pseudocode_stable.py:84-90 | Px from the invariant, kept as it is without xTokens |
| `ProtocolObjects.StableCore.UpdateFromOracle` | walrus-leafsii/docs/pseudocode_stable.py:95-115 | accepts exactly fresh prices within the step limit |
| `ProtocolObjects.StableCore.MintFToken` | walrus-leafsii/docs/pseudocode_stable.py:131-141 | reserve, supply and Px after a mint |
| `ProtocolObjects.StableCore.RedeemFToken` | walrus-leafsii/docs/pseudocode_stable.py:143-155 | reserve, supply and Px after a redemption, or a refusal |
| `ProtocolObjects.StableCore.ProtocolRebalanceL3` | walrus-leafsii/docs/pseudocode_stable.py:173-203 | core and pool after an L3 call, or the raised error |
| `ProtocolObjects.StableCore.ClaimPaySui` | walrus-leafsii/docs/pseudocode_stable.py:227-237 | reserve after a payment, or the rejection |
| `StoreIntegrity.CreateKeepsIntegrityIff` | webservice/backend/internal/db/backends/memory/repository.go:166-232 | an accepted Create keeps uniqueness and references exactly when the new row does not clash with a row stored under the empty id, which the validator skips |
| `StoreIntegrity.EmptyIdAdmitsDuplicate` | webservice/backend/internal/db/backends/memory/repository.go:375-446 | concrete table in which that admits a duplicate of a unique field |
| `StoreIntegrity.UpdateKeepsIntegrityIff` | webservice/backend/internal/db/backends/memory/repository.go:234-279 | an accepted Update keeps integrity exactly when it leaves "id" alone |
| `StoreIntegrity.UpdateKeepsRefsElsewhereIff` | webservice/backend/internal/db/backends/memory/repository.go:234-279 | after an accepted Update every other table's references still resolve exactly when it leaves "id" alone or no other table refers to the row |
| `StoreIntegrity.UpdateOfIdOrphansChild` | webservice/backend/internal/db/backends/memory/repository.go:234-279 | concrete tables in which an Update of the id is accepted and leaves a child row's reference unresolved |
| `StoreIntegrity.UpdateOfIdAccepted` | webservice/backend/internal/db/backends/memory/repository.go:234-279 | concrete table in which an Update of the id is accepted and breaks it |
| `StoreIntegrity.UpsertKeepsIntegrityIff` | webservice/backend/internal/db/backends/memory/repository.go:281-318 | an accepted Upsert keeps integrity under the condition of the Create or Update it turns into |
| `StoreIntegrity.DeleteKeepsIntegrity` | webservice/backend/internal/db/backends/memory/repository.go:320-341 | an accepted Delete keeps integrity and removes its row |
| `StoreIntegrity.DeleteKeepsSelfRefsIff` | webservice/backend/internal/db/backends/memory/repository.go:481-502 | references within one table survive a Delete exactly when no other row refers to the deleted one |
| `StoreIntegrity.DeleteOrphansChild` | webservice/backend/internal/db/backends/memory/repository.go:481-502 | concrete table in which a Delete leaves a child without its parent |
| `StoreIntegrity.RefusalKeepsIntegrity` | webservice/backend/internal/db/backends/memory/repository.go:166-232 | a refused call leaves every row as it was |
| `StoreIntegrity.RefsSurvive` | webservice/backend/internal/db/backends/memory/repository.go:448-479 | a change of one table keeps every reference whose target it keeps |
| `StoreIntegrity.OneTableChanges` | webservice/backend/internal/db/backends/memory/repository.go:375-502 | a write to one table cannot break the constraints of another |
| `StoreTransactions.TransactionOutcome` | webservice/backend/internal/db/backends/memory/database.go:63-82 | the tables after any transaction script: a failure or a panic without an explicit commit restores exactly the prior tables; after an explicit commit neither restores anything; after an explicit rollback later writes stand |
| `StoreTransactions.CommitSurvivesFailure` | webservice/backend/internal/db/backends/memory/database.go:63-82 | concrete script whose explicit commit lets its write stand although the transaction then fails |
| `StoreTransactions.TransactionKeepsIntegrity` | webservice/backend/internal/db/backends/memory/transaction.go:18-71 | every transaction of careful writes, however it ends, leaves the database consistent |
| `StoreTransactions.CallsKeepIntegrity` | webservice/backend/internal/db/backends/memory/transaction.go:18-71 | so does every point inside it, with the snapshot still the prior tables |
| `StoreLaws.CreateAnswers` | webservice/backend/internal/db/backends/memory/repository.go:166-232 | the answer to Create by its first objection, in terms of the cells given and stored: a column left out, null or of the wrong type, an id that is no string or taken, a duplicate, a foreign key without its row; and the row stored, cell by cell |
| `StoreLaws.UpdateAnswers` | webservice/backend/internal/db/backends/memory/repository.go:234-279 | the same for Update: the old cells, the given ones over them, the time of the change |
| `StoreLaws.DeleteAnswers` | webservice/backend/internal/db/backends/memory/repository.go:320-341 | Delete is accepted exactly for a row whose id no cell of another table holds, and then only that row is gone |
| `StoreLaws.CreateStoresTyped` | webservice/backend/internal/db/query/builder.go:258-291 | every row Create stores has a value of its column's type, a permitted null or the default in every column |
| `StoreLaws.UpdateKeepsTypedIff` | webservice/backend/internal/db/backends/memory/repository.go:234-279 | an accepted Update of such a row leaves it so exactly when every cell given is one Create would admit |
| `StoreLaws.UpdateAdmitsMistyped` | webservice/backend/internal/db/backends/memory/repository.go:234-279 | concrete table in which Update stores a string in an integer column and Create refuses it |
| `StoreLaws.UpsertedIsFound` | webservice/backend/internal/db/backends/memory/repository.go:281-318 | the row an accepted Upsert creates has all the wanted cells, so the next one finds it |
| `MemoryDatabase.Database.Transaction` | webservice/backend/internal/db/backends/memory/database.go:63-82 | tables and returned error of the driver, for every script, failure and panic |
| `MemoryDatabase.Transaction.constructor` | webservice/backend/internal/db/backends/memory/transaction.go:18-41 | the snapshot equals the tables, copied row by row |
| `MemoryDatabase.Transaction.Commit` | webservice/backend/internal/db/backends/memory/transaction.go:43-54 | commits once, refuses afterwards |
| `MemoryDatabase.Transaction.Rollback` | webservice/backend/internal/db/backends/memory/transaction.go:56-71 | restores the snapshot once, refuses afterwards |
| `MemoryDatabase.Repository.ValidateUniqueFields` | webservice/backend/internal/db/backends/memory/repository.go:375-397 | accepts exactly when no other row shares a non-null unique field |
| `MemoryDatabase.Repository.ValidateUniqueIndexes` | webservice/backend/internal/db/backends/memory/repository.go:398-446 | accepts exactly when no other row shares a unique-index tuple |
| `MemoryDatabase.Repository.ValidateUniqueConstraints` | webservice/backend/internal/db/backends/memory/repository.go:375-446 | both together |
| `MemoryDatabase.Repository.ValidateForeignKeys` | webservice/backend/internal/db/backends/memory/repository.go:448-479 | accepts exactly when every non-null reference resolves |
| `MemoryDatabase.Repository.ValidateOnDelete` | webservice/backend/internal/db/backends/memory/repository.go:481-502 | accepts exactly when no other table holds a reference to the row |
| `MemoryDatabase.Repository.Create` | webservice/backend/internal/db/backends/memory/repository.go:166-232 | tables and reply of the Create step |
| `MemoryDatabase.Repository.Update` | webservice/backend/internal/db/backends/memory/repository.go:234-279 | tables and reply of the Update step |
| `MemoryDatabase.Repository.Upsert` | webservice/backend/internal/db/backends/memory/repository.go:281-318 | tables and reply of the Upsert step for the row the scan met first |
| `MemoryDatabase.Repository.Delete` | webservice/backend/internal/db/backends/memory/repository.go:320-341 | tables and reply of the Delete step |
| `MemoryDatabase.Repository.FindMany` | webservice/backend/internal/db/backends/memory/repository.go:78-163 | the page of a query over the table's rows in some order: rows, total, page number and size |
| `MemoryDatabase.Repository.FindOne` | webservice/backend/internal/db/backends/memory/repository.go:56-76 | the first row of that page for limit 1, or nothing |
| `MemoryDatabase.FirstIsAMatch` | webservice/backend/internal/db/backends/memory/repository.go:281-304 | what Upsert looks up is a row with all wanted cells, and nothing only if there is none |
| `QueryBuilder.OrderedIsStableSort` | webservice/backend/internal/db/query/builder.go:193-212 | the sort returns a stable rearrangement; it is sorted by the whole ordering exactly when the comparison with ties broken by position is transitive on the input, in particular when each ordered column holds one kind of value |
| `QueryBuilder.ApplySort` | webservice/backend/internal/db/query/builder.go:193-212 | the bubble sort on a copy computes that function; without an ordering it returns its input |
| `QueryBuilder.BubblePass` | webservice/backend/internal/db/query/builder.go:204-209 | one inner loop is one pass of that function, in place |
| `QueryBuilder.ShouldSwap` | webservice/backend/internal/db/query/builder.go:214-234 | the loop over the ordering swaps exactly when the first record compares greater |
| `QueryBuilder.SortedIsConsistent` | webservice/backend/internal/db/query/builder.go:193-234 | any stable sorted rearrangement needs that transitivity |
| `QueryBuilder.OneKindIsConsistent` | webservice/backend/internal/db/query/builder.go:155-191 | columns of one kind each always have it |
| `QueryBuilder.RecordsTransitive` | webservice/backend/internal/db/query/builder.go:155-191 | the lexicographic comparison is transitive on records of the same kinds |
| `QueryBuilder.CompareAntisymmetric` | webservice/backend/internal/db/query/builder.go:155-191 | comparison is antisymmetric, mixed kinds included |
| `QueryBuilder.MixedKindsStayUnsorted` | webservice/backend/internal/db/query/builder.go:155-212 | three records with mixed kinds in the ordered column no stable rearrangement of which is sorted, the sort's result included |
| `QueryBuilder.StableSortUnique` | webservice/backend/internal/db/query/builder.go:193-234 | permutation, stability and order leave exactly one possible result |
| `SortMeaning.OrderedByColumns` | webservice/backend/internal/db/query/builder.go:193-234 | the sorted result cell by cell, by the order of numbers and the alphabet: each column ascending, or descending if asked, among rows alike in the columns before it, and rows alike in all as they came |
| `SortMeaning.StringsByAlphabet` | webservice/backend/internal/db/query/builder.go:184-188 | the comparison of strings is the alphabet's: a prefix first, else the first character that differs |
| `SortMeaning.CellsByOrder` | webservice/backend/internal/db/query/builder.go:155-190 | the comparison of two cells of one type is the order of numbers or of the alphabet |
| `SortMeaning.DescendingPutsLargerFirst` | webservice/backend/internal/db/query/builder.go:224-225 | ages 25 and 30 sorted descending come as 30 and 25 |
| `Filters.MatchesFilters` | webservice/backend/internal/db/query/builder.go:22-56 | the loops over AND groups, OR groups and conditions decide all, some and all of them |
| `Filters.RangeInOneCondition` | webservice/backend/internal/db/query/builder.go:58-153 | a range written as one condition holds of every value above the lower end |
| `Filters.RangeInTwoConditions` | webservice/backend/internal/db/query/builder.go:22-56 | written as two conditions it is the range |
| `Filters.OtherKindsMeetInclusiveBounds` | webservice/backend/internal/db/query/builder.go:97-109 | a value of another kind meets every inclusive bound and no strict one |
| `Queries.KeptSameIff` | webservice/backend/internal/db/query/builder.go:10-56 | two filters return the same rows of a table exactly when they agree on every row |
| `Queries.RangeQueriesAgreeIff` | webservice/backend/internal/db/query/builder.go:58-153 | a range query written as one condition returns the rows of the one written as two exactly when no row lies above the lower end and at or above the higher |
| `Queries.RangeReturnsFive` | webservice/backend/internal/db/query/builder.go:58-153 | the range from 1 to 3 in one condition returns a row with 5 |
| `Queries.FindRows` | webservice/backend/internal/db/backends/memory/repository.go:101-163 | filter, sort, page and select, with the total of the filtered rows, the page number and its size |
| `QueryMeaning.EqualityTests` | webservice/backend/internal/db/query/builder.go:84-122 | which rows equality, inequality, membership and non-membership return: only rows that have the column |
| `QueryMeaning.NullTests` | webservice/backend/internal/db/query/builder.go:61-77 | which rows the null tests and a plain value return, columns left out included |
| `QueryMeaning.BoundTests` | webservice/backend/internal/db/query/builder.go:92-104 | which rows the four bounds return, by the order of numbers and of the alphabet |
| `QueryMeaning.LikeTests` | webservice/backend/internal/db/query/builder.go:124-150 | %part% returns the strings that include part, in any case if asked to, and not like everything else |
| `QueryMeaning.OnlyTheFirstTestCounts` | webservice/backend/internal/db/query/builder.go:71-150 | a condition with several tests set returns what its first one alone returns |
| `QueryMeaning.GroupsMean` | webservice/backend/internal/db/query/builder.go:22-56 | an AND group returns what all its filters return, an OR group what any does, and the parts of a filter intersect |
| `QueryMeaning.PageHolds` | webservice/backend/internal/db/backends/memory/repository.go:101-163 | what a page holds: the number of matching rows, its number and size, and the rows from its offset on, as many as the limit allows, cut to the selected columns |
| `QueryMeaning.PageRefusedIff` | webservice/backend/internal/db/query/builder.go:235-255 | a query panics exactly when its offset is negative, or its limit is and there are rows to slice |
| `Queries.PagesConcatenate` | webservice/backend/internal/db/query/builder.go:236-255 | the pages of a query at offsets 0, L, 2L, ... on the same rows concatenate to its whole filtered, sorted and selected result |
| `Queries.ResultMeans` | webservice/backend/internal/db/backends/memory/repository.go:78-163 | that result holds exactly the matching rows, stably sorted |
| `BridgeLedger.StepKeepsInv` | webservice/backend/internal/crosschain/service.go:147-258 | every locked call keeps: shares non-negative, value = shares * index, balances in step with the latest checkpoint of their asset, update ids increasing along each list and shared by none |
| `BridgeLedger.RunKeepsInv` | webservice/backend/internal/crosschain/service.go:147-258 | the same in every order the calls take the lock |
| `BridgeLedger.SeedInv` | webservice/backend/internal/crosschain/service.go:106-136 | the seed state satisfies it |
| `BridgeLedger.HistoryOnlyGrows` | webservice/backend/internal/crosschain/service.go:227-258 | a run only appends to a checkpoint list |
| `BridgeLedger.SubmittedBalances` | webservice/backend/internal/crosschain/service.go:247-255 | a submitted checkpoint becomes the latest of its asset, and all balances of the asset follow it |
| `BridgeLedger.SettledTotal` | webservice/backend/internal/crosschain/service.go:173-179 | changing one balance moves the asset's total by exactly that change |
| `BridgeFlows.ServeUntracked` | webservice/backend/internal/crosschain/bridge_worker.go:477-621 | one deposit or redeem moves the difference between shares held and shares tracked only if it is a redeem refused after its checkpoint went out, and then by its burn |
| `BridgeFlows.RunUntracked` | webservice/backend/internal/crosschain/bridge_worker.go:477-621 | over any requests that difference is exactly the burns so lost |
| `BridgeFlows.RunTracksHoldings` | webservice/backend/internal/crosschain/bridge_worker.go:477-621 | the tracked total stays between 0 and the shares held, and equals them exactly when no redeem was refused late |
| `BridgeFlows.SeedRunTracksHoldings` | webservice/backend/internal/crosschain/service.go:106-136 | the same for every run from the seed state and every asset |
| `BridgeFlows.ServeKeepsInv` | webservice/backend/internal/crosschain/bridge_worker.go:241-392 | every request keeps the ledger invariant and non-negative totals |
| `BridgeFlows.RedeemServedIff` | webservice/backend/internal/crosschain/bridge_worker.go:477-551 | a well-formed redeem goes through exactly when its owner holds the shares and the latest checkpoint still tracks as many; while nothing was lost, exactly when its owner holds them |
| `BridgeFlows.StrangerLocksOutHolder` | webservice/backend/internal/crosschain/bridge_worker.go:502-548 | from the seed, a refused redeem by someone who holds nothing makes the holder of everything be refused |
| `BridgeFlows.LateRefusalIff` | webservice/backend/internal/crosschain/bridge_worker.go:502-548 | exactly which redeems are refused only after their checkpoint |
| `BridgeReplies.DepositThenRedeem` | webservice/backend/internal/crosschain/bridge_worker.go:241-323 | a deposit followed by redeeming the base units of both amounts it answered with is never refused for lack of shares and pays back between D - (10^-9 + e)(1 + 1/p) and D + e(1 + 1/p) |
| `BridgeReplies.MintedAmounts` | webservice/backend/internal/crosschain/bridge_worker.go:325-392 | a deposit answers with half its dollar value in fTokens, as much in xTokens, up to rounding, and exactly the shares by which balance and tracked total grew, under the next receipt and update ids |
| `BridgeReplies.DepositAnswers` | webservice/backend/internal/crosschain/bridge_worker.go:208-239 | the answer to a deposit by its first objection; only one worth less than 10^-16 dollars is refused by the credit |
| `BridgeReplies.PaidAmounts` | webservice/backend/internal/crosschain/bridge_worker.go:241-323 | a redeem pays fTokens at the price and xTokens one for one, and takes what it burned off balance and total |
| `BridgeReplies.RedeemAnswers` | webservice/backend/internal/crosschain/bridge_worker.go:241-323 | the answer to a redeem by its first objection |
| `BridgeReplies.CheckpointFollows` | webservice/backend/internal/crosschain/bridge_worker.go:477-621 | every request past its first checks appends one checkpoint: next id, next block, the same index (1 for none or 0), its own hash or the one before |
| `BridgeReplies.RequestsKeepIndex` | webservice/backend/internal/crosschain/bridge_worker.go:477-621 | over any requests the index at which an asset is valued never changes |
| `BridgeReplies.FailedHandlerStands` | webservice/backend/internal/crosschain/bridge_worker.go:371-389 | a failing handler changes the answer and undoes nothing |
| `BridgeReplies.BalanceCalls` | webservice/backend/internal/crosschain/service.go:147-213 | a direct credit or debit moves one balance by its shares, and nothing else; refused ones move nothing |
| `BridgeReplies.SubmitCall` | webservice/backend/internal/crosschain/service.go:227-258 | a direct checkpoint of a named asset becomes its latest under the next id and moves no shares |
| `BridgeAmounts.PaidBackBounds` | webservice/backend/internal/crosschain/bridge_worker.go:441-473 | the rounding bound on the two payouts |
| `BridgeAmounts.ToUintKeepsIff` | webservice/backend/internal/crosschain/bridge_worker.go:462-473 | conversion to base units loses less than one unit exactly when the amount fits 64 bits; otherwise everything is lost |
| `BridgeAmounts.HugeAmountMintsNothing` | webservice/backend/internal/crosschain/bridge_worker.go:462-473 | concrete amount of which nothing is left |
| `BridgeAmounts.DivError` | webservice/backend/internal/crosschain/bridge_worker.go:449-456 | decimal division is off by at most half a unit in its last place |
| `BridgeAmounts.HalfBounds` | webservice/backend/internal/crosschain/bridge_worker.go:449-458 | the fToken half is worth half the deposit up to rounding |
| `BridgeObjects.Service.constructor` | webservice/backend/internal/crosschain/service.go:59-137 | the seed ledger |
| `BridgeObjects.Service.LatestCheckpoint` | webservice/backend/internal/crosschain/service.go:215-225 | the last checkpoint of the list, if any |
| `BridgeObjects.Service.CreditDeposit` | webservice/backend/internal/crosschain/service.go:147-182 | new ledger and returned balance of a credit, or a refusal that changes nothing |
| `BridgeObjects.Service.DebitWithdrawal` | webservice/backend/internal/crosschain/service.go:184-213 | new ledger and returned balance of a debit, or a refusal |
| `BridgeObjects.Service.SubmitCheckpoint` | webservice/backend/internal/crosschain/service.go:227-258 | appends the checkpoint under the next id and revalues the asset's balances |
| `BridgeObjects.Service.RevalueBalances` | webservice/backend/internal/crosschain/service.go:247-255 | the loop moves every balance of the asset and no other |
| `BridgeObjects.Service.GetBalance` | webservice/backend/internal/crosschain/service.go:260-293 | the stored balance, or zero shares at the latest checkpoint's index and id |
| `BridgeObjects.BridgeWorker.HandleDeposit` | webservice/backend/internal/crosschain/bridge_worker.go:325-392 | ledger, counter and reply of the deposit step |
| `BridgeObjects.BridgeWorker.HandleRedeem` | webservice/backend/internal/crosschain/bridge_worker.go:241-323 | ledger, counter and reply of the redeem step |
| `KvEviction.SweepInvisibleIff` | webservice/backend/pkg/kv/memory/store.go:64-76 | a sweep just before a call changes neither its reply nor the reply of any read (TTL aside) from then on exactly when no expired entry is in the way of a call that ignores deadlines; those reads are never affected themselves |
| `KvEviction.ReadsAfterSweep` | webservice/backend/pkg/kv/memory/store.go:119-139 | every read returns the same after a sweep at any earlier time |
| `KvEviction.ReadsAfterLazyEviction` | webservice/backend/pkg/kv/memory/store.go:119-139 | and after a lazy eviction of any key at any earlier time |
| `KvEviction.ReadsDoNotDisturb` | webservice/backend/pkg/kv/memory/store.go:119-139 | in any run of reads, with sweeps anywhere, every read answers from the state before the run |
| `KvEviction.StepTrimmed` | webservice/backend/pkg/kv/memory/store.go:64-139 | two states, one with some expired entries removed, serve an undisturbed call alike |
| `KvEviction.JanitorInvisible` | webservice/backend/pkg/kv/memory/store.go:48-76 | whenever the janitor sweeps, every call of an undisturbed run replies the same |
| `KvEviction.SetThenGetIff` | webservice/backend/pkg/kv/memory/store.go:105-139 | Set without a TTL keeps an old deadline: the value is readable later exactly when that has not passed |
| `KvEviction.DeletedCountIff` | webservice/backend/pkg/kv/memory/store.go:155-176 | Del counts expired keys too: the counts with and without a sweep agree exactly when no swept key is asked for |
| `KvEviction.IncrementsAdd` | webservice/backend/pkg/kv/memory/store.go:264-290 | two increments are one by the sum, wrap-around included, when the first finds a number or nothing |
| `KvTypes.StepKeepsContainersIff` | webservice/backend/pkg/kv/memory/store.go:339-600 | an empty container appears exactly through SAdd, LPush or RPush without arguments on a missing key |
| `KvTypes.RunKeepsContainersIff` | webservice/backend/pkg/kv/memory/store.go:95-117 | over every run, with sweeps anywhere: no state has an empty container exactly when no such call is made |
| `KvTypes.StepKeepsOneMapIff` | webservice/backend/pkg/kv/memory/store.go:264-286 | a key comes to live in two maps exactly through a counter call on a live container |
| `KvTypes.CounterOnHash` | webservice/backend/pkg/kv/memory/store.go:264-286 | a hash counted up answers as a string and as a hash from then on |
| `KvTypes.RunKeepsOneMapIff` | webservice/backend/pkg/kv/memory/store.go:95-117 | over every run: each key lives in one map in every state exactly when no such call is made |
| `KvTypes.RangeIsTheSlice` | webservice/backend/pkg/kv/memory/store.go:602-653 | LRange returns, in order, exactly the positions between start and stop, negative ones counted from the end |
| `KvTypes.RangesJoin` | webservice/backend/pkg/kv/memory/store.go:602-653 | reading a list in two parts gives the whole list |
| `KvTypes.ReversedAt` | webservice/backend/pkg/kv/memory/store.go:523-526 | LPush prepends its arguments reversed |
| `KvTypes.ReversedConcat` | webservice/backend/pkg/kv/memory/store.go:523-526 | pushing in two calls or in one gives the same list |
| `KvTypes.PopUndoesPushIff` | webservice/backend/pkg/kv/memory/store.go:509-573 | a pop takes back a push exactly when the key held nothing or a non-empty list |
| `Decimals.ParseFormat` | webservice/backend/pkg/kv/memory/store.go:274-283 | reading back a printed 64-bit counter gives the same number |
| `Decimals.WrapAdd` | webservice/backend/pkg/kv/memory/store.go:282-282 | wrapping an intermediate sum does not change the final one |
| `Decimals.WrapMeans` | webservice/backend/pkg/kv/memory/store.go:282-282 | wrapping moves a sum into the 64-bit range by whole multiples of 2^64 |
| `Decimals.ParseIntSigned` | webservice/backend/pkg/kv/memory/store.go:274-281 | digits, with a sign or without, are read as that number when it fits 64 bits |
| `Decimals.ParseIntElse` | webservice/backend/pkg/kv/memory/store.go:274-281 | and nothing else is read as one |
| `KvLaws.OtherKeysUntouched` | webservice/backend/pkg/kv/memory/store.go:95-101 | whatever a call does, calls on other keys answer as if it had not been made |
| `KvLaws.SetReadsBack` | webservice/backend/pkg/kv/memory/store.go:105-139 | what Set stored is what Get returns, until its TTL or, without one, the old deadline |
| `KvLaws.MSetReadsBack` | webservice/backend/pkg/kv/memory/store.go:678-697 | MSet reads back as Set of each pair |
| `KvLaws.MGetIsGets` | webservice/backend/pkg/kv/memory/store.go:657-676 | MGet returns for each key what Get does |
| `KvLaws.IncrReadsBack` | webservice/backend/pkg/kv/memory/store.go:264-286 | the count of an increment is what Get returns afterwards; a missing key counts from zero; an error changes nothing |
| `KvLaws.IncrAnswers` | webservice/backend/pkg/kv/memory/store.go:264-286 | counting up a text: an error unless it is a 64-bit number, and a sum that wraps around |
| `KvLaws.HSetReadsBack` | webservice/backend/pkg/kv/memory/store.go:294-337 | the field set reads back as the value, every other field as before, until the deadline |
| `KvLaws.HDelReadsBack` | webservice/backend/pkg/kv/memory/store.go:339-368 | the fields deleted are gone, the others read as before, and the count is that of those that were there |
| `KvLaws.HGetAllIsHGets` | webservice/backend/pkg/kv/memory/store.go:370-395 | HGetAll returns exactly the fields HGet finds |
| `KvLaws.SAddReadsBack` | webservice/backend/pkg/kv/memory/store.go:399-423 | the members added are in, the others as before, and the count is that of the new ones |
| `KvLaws.SRemReadsBack` | webservice/backend/pkg/kv/memory/store.go:425-455 | the members removed are out, the others as before, and the count is that of those that were in |
| `KvLaws.SMembersIsMembers` | webservice/backend/pkg/kv/memory/store.go:457-505 | SMembers returns exactly the members SIsMember confirms |
| `KvLaws.PushesReadBack` | webservice/backend/pkg/kv/memory/store.go:509-547 | RPush appends, LPush puts its values before the list, the last one first, and both answer with the new length |
| `KvLaws.PopsReadBack` | webservice/backend/pkg/kv/memory/store.go:549-600 | a pop answers with the end it takes and leaves the rest |
| `KvLaws.LRangeIsTheSlice` | webservice/backend/pkg/kv/memory/store.go:602-653 | LRange returns, in order, the positions between start and stop of the whole list |
| `KvLaws.ListingsNotFoundIff` | webservice/backend/pkg/kv/memory/store.go:370-653 | in a store without empty containers HGetAll, SMembers and LRange answer NotFound exactly when there is nothing to list |
| `KvLaws.ExistsCounts` | webservice/backend/pkg/kv/memory/store.go:178-200 | Exists counts, repetitions included, the keys that hold something and are in time |
| `KvLaws.DelCounts` | webservice/backend/pkg/kv/memory/store.go:155-176 | Del answers with the number of different keys that were stored, and afterwards none of them is |
| `KvLaws.ExpireThenTTL` | webservice/backend/pkg/kv/memory/store.go:202-260 | Expire answers whether the key is there; TTL then counts down from the time given and the key is gone after it, or has no deadline |
| `MemoryStore.Store.EvictExpired` | webservice/backend/pkg/kv/memory/store.go:64-76 | the janitor's loop removes exactly the expired keys, from all maps |
| `MemoryStore.Store.DeleteKey` | webservice/backend/pkg/kv/memory/store.go:95-101 | removes the key from all four maps and keeps its deadline |
| `MemoryStore.Store.Set` | webservice/backend/pkg/kv/memory/store.go:105-117 | replaces a value of any type; the four maps stand for the single map of cells after the specified step |
| `MemoryStore.Store.Get` | webservice/backend/pkg/kv/memory/store.go:119-139 | lazy eviction, then the string; the four maps stand for the single map of cells after the specified step |
| `MemoryStore.Store.Del` | webservice/backend/pkg/kv/memory/store.go:155-176 | the loop deletes all keys and counts each key that was there once; the four maps stand for the single map of cells after the specified step |
| `MemoryStore.Store.Exists` | webservice/backend/pkg/kv/memory/store.go:178-200 | counts keys that are there and not expired, repetitions included; the four maps stand for the single map of cells after the specified step |
| `MemoryStore.Store.Expire` | webservice/backend/pkg/kv/memory/store.go:202-229 | sets or removes the deadline of a live key; the four maps stand for the single map of cells after the specified step |
| `MemoryStore.Store.TTL` | webservice/backend/pkg/kv/memory/store.go:231-260 | remaining time, 0 once past, -1 without deadline; the four maps stand for the single map of cells after the specified step |
| `MemoryStore.Store.IncrBy` | webservice/backend/pkg/kv/memory/store.go:264-286 | the counter step, which leaves a container at the key where it is; the four maps stand for the single map of cells after the specified step |
| `MemoryStore.Store.HSet` | webservice/backend/pkg/kv/memory/store.go:294-310 | sets a field, replacing any other type; the four maps stand for the single map of cells after the specified step |
| `MemoryStore.Store.HGet` | webservice/backend/pkg/kv/memory/store.go:312-337 | a field of a live hash; the four maps stand for the single map of cells after the specified step |
| `MemoryStore.Store.HDel` | webservice/backend/pkg/kv/memory/store.go:339-368 | removes fields, counts them, and drops an emptied hash; the four maps stand for the single map of cells after the specified step |
| `MemoryStore.Store.HGetAll` | webservice/backend/pkg/kv/memory/store.go:370-395 | a copy of all fields; the four maps stand for the single map of cells after the specified step |
| `MemoryStore.Store.SAdd` | webservice/backend/pkg/kv/memory/store.go:399-423 | adds members and counts new ones; the four maps stand for the single map of cells after the specified step |
| `MemoryStore.Store.SRem` | webservice/backend/pkg/kv/memory/store.go:425-455 | removes members, counts them, and drops an emptied set; the four maps stand for the single map of cells after the specified step |
| `MemoryStore.Store.SMembers` | webservice/backend/pkg/kv/memory/store.go:457-482 | all members; the four maps stand for the single map of cells after the specified step |
| `MemoryStore.Store.SIsMember` | webservice/backend/pkg/kv/memory/store.go:484-505 | membership in a live set; the four maps stand for the single map of cells after the specified step |
| `MemoryStore.Store.LPush` | webservice/backend/pkg/kv/memory/store.go:509-529 | prepends one by one; the four maps stand for the single map of cells after the specified step |
| `MemoryStore.Store.RPush` | webservice/backend/pkg/kv/memory/store.go:531-547 | appends; the four maps stand for the single map of cells after the specified step |
| `MemoryStore.Store.LPop` | webservice/backend/pkg/kv/memory/store.go:549-573 | takes the head and drops an emptied list; the four maps stand for the single map of cells after the specified step |
| `MemoryStore.Store.RPop` | webservice/backend/pkg/kv/memory/store.go:575-600 | takes the last and drops an emptied list; the four maps stand for the single map of cells after the specified step |
| `MemoryStore.Store.LRange` | webservice/backend/pkg/kv/memory/store.go:602-653 | the clamped slice; the four maps stand for the single map of cells after the specified step |
| `MemoryStore.Store.MGet` | webservice/backend/pkg/kv/memory/store.go:657-676 | each key's live string; the four maps stand for the single map of cells after the specified step |
| `MemoryStore.Store.MSet` | webservice/backend/pkg/kv/memory/store.go:678-697 | sets all pairs with one TTL; the four maps stand for the single map of cells after the specified step |
| `Failover.RunDisciplined` | webservice/backend/pkg/kv/failover.go:127-195 | in every interleaving at most one probe loop is live and no stop channel is closed twice |
| `Failover.RunRecoversIff` | webservice/backend/pkg/kv/failover.go:77-195 | in every run of two stores of one type, whenever no demotion is half done: an open store has a way back exactly when no demotion so far fell between a promotion's switch and its stop |
| `Failover.DemotionRecoversIff` | webservice/backend/pkg/kv/failover.go:77-115 | the same for one demotion that nothing comes between |
| `Failover.PoliteRunRecovers` | webservice/backend/pkg/kv/failover.go:77-195 | in runs without such a demotion an open store on its fallback is probing or about to be promoted |
| `Failover.NewStoresOnTrack` | webservice/backend/pkg/kv/failover.go:33-69 | both constructors start such runs, except that starting on a fallback of another concrete type panics |
| `Failover.MixedNeverFailsOver` | webservice/backend/pkg/kv/failover.go:77-93 | two stores of different concrete types never leave the primary: every demotion panics |
| `FailoverReturn.RunReturnsIff` | webservice/backend/pkg/kv/failover.go:77-195 | in every run of two stores of one type: whenever an open store is on its fallback and no demotion is half done, some further steps bring it back to its primary exactly when no demotion so far fell into that window |
| `FailoverReturn.DoomedStays` | webservice/backend/pkg/kv/failover.go:77-195 | after one that did, no steps lead back |
| `FailoverReturn.RecheckNeverActs` | webservice/backend/pkg/kv/failover.go:95-115 | in such runs a promotion handler that holds a signal always finds the fallback active: its look at it never decides |
| `FailoverClose.ClosingEnds` | webservice/backend/pkg/kv/failover.go:95-195 | once the store is closed, however its goroutines stand, steps that end something bring every loop and handler to its end and free the mutex: none waits for another forever |
| `FailoverClose.CloseStopsProbing` | webservice/backend/pkg/kv/failover.go:147-163 | the stop in Close tells the current probe loop to stop, once, and holds the mutex exactly until it has |
| `FailoverReturn.NewStoresManned` | webservice/backend/pkg/kv/failover.go:33-69 | both constructors start the promotion handlers such runs need |
| `Failover.StrandedForever` | webservice/backend/pkg/kv/failover.go:77-195 | a store on its fallback with nothing under way never comes back |
| `Failover.ImpoliteDemotionStrands` | webservice/backend/pkg/kv/failover.go:106-111 | a demotion in that window can leave the store so |
| `Failover.WindowIsReachable` | webservice/backend/pkg/kv/failover.go:77-115 | and the window is reachable |
| `Candles.AlignmentsAgreeIff` | webservice/backend/internal/prices/provider.go:94-99 | the two alignments name the same bucket exactly for times from 1970 on, or on a bucket boundary |
| `Candles.AlignmentsDifferAtMinusOne` | webservice/backend/internal/prices/provider.go:94-99 | one millisecond before 1970 they differ by a whole bucket, for every interval |
| `Candles.NestedFloor` | webservice/backend/internal/prices/provider.go:94-99 | rounding to seconds and then to the bucket is rounding once |
| `CandleMeaning.BucketSpans` | webservice/frontend/src/utils/candles.ts:74-126 | a bucket holds the times from its start, a multiple of the interval's length, up to the next one |
| `CandleMeaning.CandleDescribesTicks` | webservice/frontend/src/utils/candles.ts:74-126 | after every tick both sides' candle opens at the first tick within it and closes at the last, and its high and low are reached by ticks within it and bound them all |
| `CandleMeaning.PreviousIsTheOneBefore` | webservice/frontend/src/utils/candles.ts:74-126 | the browser hands over a candle exactly when a tick opens a bucket right after one that has seen ticks: the fold of that bucket, which it then forgets |
| `Candles.ExtremesMean` | webservice/backend/internal/jobs/price_publisher.go:235-240 | the fold's high and low are prices of the bucket and bound all of them |
| `Candles.BrowserKeeps` | webservice/frontend/src/utils/candles.ts:74-126 | after any ticks each kept candle is the fold of its bucket, and the current bucket of every series is kept |
| `Candles.BackendKeeps` | webservice/backend/internal/jobs/price_publisher.go:213-246 | after any ticks each series' candle is the fold of its current bucket |
| `Candles.BothAreTheFold` | webservice/frontend/src/utils/candles.ts:74-126 | after every tick, any symbols and intervals interleaved, both sides hold the same candle, the first/max/min/last fold; a candle is new exactly for a bucket's first tick |
| `Candles.BrowserAggregator.ProcessTick` | webservice/frontend/src/utils/candles.ts:74-126 | candles and result of the browser step |
| `Candles.BackendAggregator.AddTick` | webservice/backend/internal/jobs/price_publisher.go:213-246 | candle of the backend step |
| `TokenAmounts.ParseOfFormat` | webservice/frontend/src/lib/utils.ts:39-84 | parsing the printed amount without commas gives the amount rounded down to a multiple of the last printed place, the amount itself when maxFraction covers the decimals |
| `TokenAmounts.ExactIff` | webservice/frontend/src/lib/utils.ts:39-84 | nothing is lost exactly when the places beyond maxFraction are zero |
| `TokenAmounts.ParsePlain` | webservice/frontend/src/components/CrossChain/CrossChainDeposit.tsx:49-58 | the parser reads digits, point, digits as that number of smallest units |
| `TokenAmounts.ShapedFraction` | webservice/frontend/src/lib/utils.ts:68-80 | trimming, padding and cutting keep the first places and zero the others |
| `AmountText.PrintedText` | webservice/frontend/src/lib/utils.ts:39-84 | what is printed: the whole amount in groups of three without a leading zero, then, if any places are shown, a point and between minFraction and maxFraction of them; a zero ends the places beyond minFraction only where they were cut |
| `AmountText.CommasEveryThree` | webservice/frontend/src/lib/utils.ts:57-57 | counted from the right exactly every fourth character is a comma, and the text does not start with one |
| `AmountText.DigitsMean` | webservice/frontend/src/lib/utils.ts:57-57 | counted from the right, digit i of a number is that of the tens to the power i, and only 0 starts with a zero |
| `AmountText.SpelledIsAmount` | webservice/frontend/src/components/CrossChain/CrossChainDeposit.tsx:49-58 | digits, perhaps a point and more digits, and any space around them are read as that number of smallest units |
| `AmountText.AmountIsSpelled` | webservice/frontend/src/components/CrossChain/CrossChainDeposit.tsx:49-58 | nothing else is |
| `AmountText.AmountRequiredIff` | webservice/frontend/src/components/CrossChain/CrossChainDeposit.tsx:49-58 | exactly a text of nothing but spaces lacks an amount |
| `TokenAmounts.GroupedBack` | webservice/frontend/src/lib/utils.ts:57-57 | removing the thousands separators gives back the digits |

## Left out

- Floating point: pool, core, prices and bridge decimals are real numbers, so the EPS guards are modelled and binary rounding is not; decimal division rounds to 16 places as in the source.
- Exceptions of the pool and core are aborted transactions: nothing of a rejected call remains.
- Integer wrap-around of uint64 counters and block numbers, and overflow of deadlines; counters of the key-value store do wrap.
- Fees, `current_level` and the emergency recapitalization, whose collateral source is a placeholder returning 0; minting of xTokens, which the core does not have.
- Aliasing: rows, balances, candles and nested containers are values in maps, so what a caller does later to a returned reference is not captured.
- Locks are one step per call; the gap in the key-value reads between releasing the read lock and taking the write lock, and interleaved bridge redeems, are not modelled. The failover protocol is modelled step by step.
- Case-insensitive patterns fold ASCII letters only, and a query's Include list, which the source ignores, is not modelled.
- Foreign keys to columns other than "id" are enforced by the repository methods but are not part of `Integrity`.
- Upsert inside a transaction script is the Create or the Update it turns into.
- Clocks, generated ids, fetched prices, iteration order of Go maps, handler failures and Walrus publishing are inputs or choices; hashes, blob ids, receipts' text, vouchers and logging are left out.
- Joined string keys of the bridge are tuples: names are taken to contain no colon.
- Mutating the ledger by direct `SubmitCheckpoint`, `CreditDeposit` or `DebitWithdrawal` calls is part of the ledger invariant but not of the tracked-total property, which is about the bridge worker.
- MemoryStore.Store.SMembers: returns the set of members, not the arbitrary order in which the source lists them.
- TokenAmounts.ParseOfFormat: negative amounts are not modelled, nor decimals above 22, where the power of ten computed in floating point is no longer exact.
- Candles.BothAreTheFold: timestamp division in the browser is exact integer division, and candle volume, always 0, is not modelled.
- What happens to a caller after a panic, beyond the deferred unlock and rollback, is not modelled.
- Failover.RunDisciplined: calls on the stores themselves are reduced to the demotions they may cause, and Close is called once.
- HTTP handlers, WebSocket and pub/sub delivery, Sui clients, quotes, the calc package, single-flight and React components.
