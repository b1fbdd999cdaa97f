# Verification of the bill-splitting backend

Dafny models of the services of the backend that hold algorithms or state over many steps, with
proofs of what they guarantee. `dafny verify dfyconfig.toml` checks everything.

A service that updates records is a class whose methods are proved against functions on values;
properties of whole runs are lemmas about these functions. What the functions themselves do is told a
second time, in terms of the fields of the rows and requests alone, by the lemmas whose names end in
`Exactly` and those beside them. A protocol whose steps interleave is a state machine over its steps.

| file | what it models |
|---|---|
| DebtGraph, DebtGraphTheorems | The netting of debts per asset and the greedy settlement. Main results: balances are kept, as little as possible is moved, and at most N - 1 edges are emitted. |
| DebtCache | The stored simplifications and their invalidation. A ghost set holds the wallets whose debts changed since they were last invalidated; a record without such a wallet equals a fresh computation. |
| ExchangeRates | The order-book loop, as a greedy continuous knapsack with its optimality. |
| OcrWorkerPool | The worker pool and the scans that borrow from it. |
| HistoricalRates | The concurrency limiter and the batch lookup over it. |
| RecurringSplits | Calendar arithmetic in UTC (section 21.4.1 of ECMA-262) and the occurrences it generates. |
| Reputation | Reputation records as the replay of an event log. |
| PaymentReconciliation | Settlement of one payment by the background jobs and an administrator. |
| Governance | Voting, finalization, timelock, execution and veto. |
| ExportJobs | Queue attempts, cancellation, retry and expiry of an export, interleaved at every database access. |
| SplitSearch | Cursor-paged search with its fallback mode. |
| SplitStore, PaymentProcessor, Disputes, SplitSafety | Payment submissions and disputes over shared tables, and what holds over every interleaving of the two. |
| Sums, Options, Time | Sums and filters over sequences; optional values; the length of a day. |

## Where the code does not do what one might expect

Each of these fails for the input that the first lemma gives, and the second says for exactly which
inputs it does not.

- A user's first reputation event: the new record has no counters, so incrementing them gives no
  number and the record cannot be stored, after its event was (`FirstEventFails`,
  `DisputeUndercounts`; `ReputationHoldsExactly`, `RecordHoldsExactly`). A payment that would complete
  the share of such a user is rolled back (`CompletingPaymentRollsBackExactly`).
- Walks in the search by amount lose rows, because the cursor compares dates (`RowIsLost`;
  `CompleteExactlyForCreatedAt`).
- `finalizeProposal` has no guard on the status, so a veto can be undone (`VetoCanBeUndone`;
  `VerdictStandsUntilFinalized`).
- With two disputes a split can be unfrozen while one is undecided (`SecondResolveUnfreezes`,
  `AppealDoesNotBlock`; `AgreementBreaksExactly`).
- A payment whose transaction does not appear can wait for ever: a check that finds nothing leaves it
  reconciling, where stale detection does not look, and the cap on attempts acts on errors only
  (`UnseenKeepsReconciling`; `ReviewedExactly`, and `UnseenReviewedExactly` for the runs without
  errors).
- A manual generation ahead of time, a pause and a resume repeat an occurrence
  (`EarlyGenerationRepeats`; `ResumeKeepsOrder` for one resume, `IncreasesExactly` for whole runs).

Limits and remarks:

- Debts finer than a cent would be settled wrongly (`UngrainedSelfEdge`). The columns hold cents, and
  the results about debts ask for them.
- A comment in the debt graph speaks of seven decimals; the code rounds to six, and six are modelled.
- After a check that finds no transaction the result says SUBMITTED while the row says RECONCILING.
- The cache relies on `invalidateForWallets` being called after payments. Nothing in the repository
  calls it, so the freshness proved for `Calculate` is conditional on callers that do. The method
  `DebtsChange` is the environment of the cache and stands for no code.

## Model

| member | source | states |
|---|---|---|
| `DebtGraph.SimplifyAsset` | backend/src/debt-simplification/debt-graph.service.ts:136-186 | The balance map, the filter and the settling loop emit exactly the edges of the recursive settlement, on which the theorems below are proved. |
| `DebtGraph.SettleNets` | backend/src/debt-simplification/debt-graph.service.ts:155-183 | The `while (true)` loop ends, because every round but the last removes a wallet, and emits the edges of the recursive settlement. |
| `DebtGraph.PayAndReceive` | backend/src/debt-simplification/debt-graph.service.ts:175-180 | The two updates and the two splices leave the payer credited, the payee debited and exactly the settled ends removed. |
| `DebtGraph.Simplify` | backend/src/debt-simplification/debt-graph.service.ts:87-131 | Grouping by asset and settling each group gives the settled groups in order of first mention, with both transaction counts and the savings. |
| `DebtGraph.SavingsAreRounded` | backend/src/debt-simplification/debt-graph.service.ts:114-130 | The savings are the saved share of transactions, rounded to hundredths of a percent and between 0 and 100. |
| `DebtGraph.SettleGroups` | backend/src/debt-simplification/debt-graph.service.ts:109-112 | The loop over the groups concatenates their settlements in order. |
| `DebtGraphTheorems.SimplifyKeepsNets` | backend/src/debt-simplification/debt-graph.service.ts:99-176 | For every list of debts in cents, every asset and every wallet, incoming minus outgoing is the same after simplification as before, across the grouping and with self-debts. |
| `DebtGraphTheorems.SimplifyDirects` | backend/src/debt-simplification/debt-graph.service.ts:155-173 | Every emitted edge is positive and runs from a net debtor of the raw debts to a net creditor, in the same asset. |
| `DebtGraphTheorems.NoWalletPaysAndReceives` | backend/src/debt-simplification/debt-graph.service.ts:155-173 | No wallet both pays and receives in one asset. |
| `DebtGraphTheorems.SimplifyMovesLeast` | backend/src/debt-simplification/debt-graph.service.ts:136-185 | The total moved per asset is the sum of the positive balances, and no other list of non-negative debts with the same balances moves less. |
| `DebtGraphTheorems.SimplifyEdgeBound` | backend/src/debt-simplification/debt-graph.service.ts:76-86 | With N wallets that do not come out even in an asset at most N - 1 edges are emitted, and none if N is 0. |
| `DebtGraphTheorems.SimplifiedPerAsset` | backend/src/debt-simplification/debt-graph.service.ts:99-112 | The edges of an asset are the settlement of exactly the debts of that asset. |
| `DebtGraphTheorems.GroupsInOrder` | backend/src/debt-simplification/debt-graph.service.ts:99-112 | Assets are settled in the order in which the debts first mention them. |
| `DebtGraphTheorems.BalancesNet` | backend/src/debt-simplification/debt-graph.service.ts:138-143 | The balance map holds each wallet's incoming minus outgoing, and its entries cancel out. |
| `DebtGraphTheorems.NetsExactly` | backend/src/debt-simplification/debt-graph.service.ts:145-148 | Exactly the balances of more than 0.0001 in either direction enter the loop. |
| `DebtGraphTheorems.NetsSettleable` | backend/src/debt-simplification/debt-graph.service.ts:145-148 | What enters the loop has one entry per wallet, no zero entry, and sums to zero. |
| `DebtGraphTheorems.RoundNet` | backend/src/debt-simplification/debt-graph.service.ts:166-180 | One round moves a positive amount from the first wallet of the sorted list to the last and changes no other balance. |
| `DebtGraphTheorems.RoundSettleable` | backend/src/debt-simplification/debt-graph.service.ts:175-182 | After a round the remaining balances are open and cancel out again, the list is shorter, and never exactly one wallet is left. |
| `DebtGraphTheorems.SettlesLargest` | backend/src/debt-simplification/debt-graph.service.ts:155-183 | Each edge settles the largest debt still open against the largest credit, as far as both go. |
| `DebtGraphTheorems.SettleKeepsNet` | backend/src/debt-simplification/debt-graph.service.ts:155-183 | The edges that the loop emits give every wallet the balance it started with. |
| `DebtGraphTheorems.SettleMovesCredit` | backend/src/debt-simplification/debt-graph.service.ts:155-183 | The loop moves exactly the credit it starts with, in at most one edge fewer than there are wallets. |
| `DebtGraphTheorems.SettleDirects` | backend/src/debt-simplification/debt-graph.service.ts:155-173 | Every edge of the loop is positive and joins a wallet of negative balance to one of positive balance. |
| `DebtGraphTheorems.CreditMustMove` | backend/src/debt-simplification/debt-graph.service.ts:155-183 | Any non-negative debts that leave the given balances move at least the sum of the credits. |
| `DebtGraphTheorems.UngrainedSelfEdge` | backend/src/debt-simplification/debt-graph.service.ts:145-176 | Below a cent the epsilon filter breaks the result: two debts of 0.00008 become one negative edge from a wallet to itself. |
| `DebtCache.LoadRawDebts` | backend/src/debt-simplification/debt-graph.service.ts:37-73 | The query and the loop yield the outstanding debts among the given wallets, in table order. |
| `DebtCache.LoadedTotals` | backend/src/debt-simplification/debt-graph.service.ts:37-73 | For every debtor, creditor and asset, the debts loaded add up to what is open on exactly the rows that are unpaid and undeleted, on a split that is neither completed, frozen nor deleted, with more than 0.0001 open, between a participant and a creator who are both among the wallets. |
| `DebtCache.LoadedExactly` | backend/src/debt-simplification/debt-graph.service.ts:53-70 | A debt is loaded if and only if such a row exists, from its participant to the creator of its split, over what is open. |
| `DebtCache.RawDebtsUnaffected` | backend/src/debt-simplification/debt-graph.service.ts:37-73 | Changes to debts owed by other wallets do not change the raw debts of a set of wallets. |
| `DebtCache.SortIdsCanonical` | backend/src/debt-simplification/debt-simplification.service.ts:24-25 | Two id lists have the same cache key if and only if they are permutations of each other. |
| `DebtCache.DebtSimplificationService.FindValidCache` | backend/src/debt-simplification/debt-simplification.service.ts:183-202 | Returns an unexpired record with the exact key, or none exists; with unique keys it is the only record with the key, so that the order by calculation time does not matter. |
| `DebtCache.DebtSimplificationService.Calculate` | backend/src/debt-simplification/debt-simplification.service.ts:24-35 | Returns an unexpired record for the sorted ids, equal to a fresh simplification unless one of these wallets has changed debts that were not invalidated; records keep unique keys. |
| `DebtCache.DebtSimplificationService.Recalculate` | backend/src/debt-simplification/debt-simplification.service.ts:40-78 | Stores the fresh simplification, expiring after 24 hours, in place of the record of that key, and leaves exactly the records of other keys beside it. |
| `DebtCache.DebtSimplificationService.InvalidateCacheForUsers` | backend/src/debt-simplification/debt-simplification.service.ts:204-223 | Deletes exactly the records with the key. |
| `DebtCache.DebtSimplificationService.InvalidateForWallets` | backend/src/debt-simplification/debt-simplification.service.ts:142-157 | Deletes exactly the records that cover one of the wallets, after which none of these wallets is stale. |
| `DebtCache.DebtSimplificationService.InvalidateForGroup` | backend/src/debt-simplification/debt-simplification.service.ts:162-165 | Deletes exactly the records of the group. |
| `DebtCache.DebtSimplificationService.CleanExpiredCache` | backend/src/debt-simplification/debt-simplification.service.ts:170-179 | Deletes exactly the records that expired before now and returns how many they were. |
| `ExchangeRates.FillFromBook` | backend/src/multi-currency/exchange-rate-tracker.service.ts:110-131 | The loop receives the value of the greedy allocation, and filled plus remaining is the source amount. |
| `ExchangeRates.GetBestExchangeRate` | backend/src/multi-currency/exchange-rate-tracker.service.ts:88-155 | Same asset: one to one. Too little liquidity or nothing received: the path query. Otherwise rate times source amount is what was received, the rate lies between the prices touched, a sorted book gives the best rate, and the amount is less slippage. |
| `ExchangeRates.FillIsOptimal` | backend/src/multi-currency/exchange-rate-tracker.service.ts:115-131 | With falling prices, if the amount can be allocated at all, it is filled and no allocation of it receives more than the loop. |
| `ExchangeRates.TakenIsAllocation` | backend/src/multi-currency/exchange-rate-tracker.service.ts:115-131 | What the loop takes of each bid is between nothing and all of it. |
| `ExchangeRates.TakenInOrder` | backend/src/multi-currency/exchange-rate-tracker.service.ts:115-131 | A bid is touched only when every bid before it in the book is used up. |
| `ExchangeRates.LeftOverMeansSpent` | backend/src/multi-currency/exchange-rate-tracker.service.ts:115-131 | Something of a bid is left only when the whole amount is spent. |
| `ExchangeRates.MarginalValue` | backend/src/multi-currency/exchange-rate-tracker.service.ts:115-131 | Spending d more on bids priced at most p receives at most d * p more. |
| `ExchangeRates.FilledBelow` | backend/src/multi-currency/exchange-rate-tracker.service.ts:115-131 | If an amount can be filled, so can every smaller one. |
| `ExchangeRates.RateBetweenPrices` | backend/src/multi-currency/exchange-rate-tracker.service.ts:115-131 | What is received lies between the filled amount at the worst and at the best price touched. |
| `ExchangeRates.QuoteWithinPrices` | backend/src/multi-currency/exchange-rate-tracker.service.ts:142-155 | So the rate of a quote from the book lies between the worst and the best price touched. |
| `ExchangeRates.QuoteIsBest` | backend/src/multi-currency/exchange-rate-tracker.service.ts:142-155 | From a book sorted by falling price, no allocation of the source amount brings more than the quoted rate does. |
| `OcrWorkerPool.Pool.Initialize` | backend/src/ocr/ocr-worker.pool.ts:32-57 | The first call makes all created workers idle, two unless a size is given; later calls change nothing. |
| `OcrWorkerPool.Pool.Acquire` | backend/src/ocr/ocr-worker.pool.ts:63-70 | The caller gets the worker that was returned last, or joins the end of the queue. |
| `OcrWorkerPool.Pool.Release` | backend/src/ocr/ocr-worker.pool.ts:76-83 | The worker goes to the longest waiting caller, or back to the idle ones. |
| `OcrWorkerPool.InitialInv` | backend/src/ocr/ocr-worker.pool.ts:52-54 | A fresh pool of distinct workers satisfies the pool invariant. |
| `OcrWorkerPool.AcquireExclusive` | backend/src/ocr/ocr-worker.pool.ts:63-70 | An acquire never gives out a worker that is held or leaves one idle twice, and queues only when none is idle. |
| `OcrWorkerPool.AcquireCovers` | backend/src/ocr/ocr-worker.pool.ts:63-70 | An acquire loses no worker: idle and held workers are still the pool. |
| `OcrWorkerPool.ReleaseExclusive` | backend/src/ocr/ocr-worker.pool.ts:76-83 | A release never makes a worker idle and held, or held twice. |
| `OcrWorkerPool.ReleaseCovers` | backend/src/ocr/ocr-worker.pool.ts:76-83 | A release loses no worker. |
| `OcrWorkerPool.ServedInOrder` | backend/src/ocr/ocr-worker.pool.ts:63-83 | Whoever was served from the queue, followed by whoever still waits, is the order of asking. |
| `OcrWorkerPool.ReleasesServe` | backend/src/ocr/ocr-worker.pool.ts:76-83 | Every release serves a waiting scan as long as there is one. |
| `OcrWorkerPool.WaiterGetsWorker` | backend/src/ocr/ocr-worker.pool.ts:63-83 | A scan at position k of the queue has its worker after k + 1 releases, whoever else comes. |
| `OcrWorkerPool.PoolSafety` | backend/src/ocr/ocr.service.ts:46-83 | Over every run of scans: each worker is idle or held by one scan, idle plus held is the pool size, at most that many recognitions run, and scans wait only while no worker is idle. |
| `HistoricalRates.Limiter.Submit` | backend/src/compliance/historical-rates.service.ts:282-287 | A lookup starts if a slot is free and queues at the end otherwise. |
| `HistoricalRates.Limiter.Settle` | backend/src/compliance/historical-rates.service.ts:232-246 | A settled lookup records its price or null and frees its slot. |
| `HistoricalRates.Limiter.Next` | backend/src/compliance/historical-rates.service.ts:261-266 | A freed slot goes to the lookup that was queued first. |
| `HistoricalRates.SubmitDates` | backend/src/compliance/historical-rates.service.ts:217-247 | The dates are deduplicated by day and every distinct day is submitted once to a limiter of 2. |
| `HistoricalRates.DistinctDays` | backend/src/compliance/historical-rates.service.ts:217-226 | The submitted days are the days of the dates, each once. |
| `HistoricalRates.SubmitAllInv` | backend/src/compliance/historical-rates.service.ts:232-247 | Submitting the batch establishes the limiter invariant. |
| `HistoricalRates.SettleInv` | backend/src/compliance/historical-rates.service.ts:261-287 | A settlement keeps it: active lookups are at most the bound, the queue is empty unless all slots are taken, and lookups start in order of submission. |
| `HistoricalRates.LimiterSafety` | backend/src/compliance/historical-rates.service.ts:257-289 | So does every run of settlements in any order. |
| `HistoricalRates.BatchPrices` | backend/src/compliance/historical-rates.service.ts:232-246 | The result has, for every day, the price or null that its lookup settled with. |
| `HistoricalRates.DayOfExactly` | backend/src/compliance/historical-rates.service.ts:201-204 | The day of a timestamp is the one in whose 24 hours from midnight UTC it lies. |
| `HistoricalRates.RunLength` | backend/src/compliance/historical-rates.service.ts:249-250 | Every settlement leaves exactly one lookup fewer to settle. |
| `HistoricalRates.BatchResult` | backend/src/compliance/historical-rates.service.ts:211-251 | Under every completion order at most two lookups run, the batch is done exactly after one settlement per distinct day, and then every such day was looked up once and the result has entries for these days and no others. |
| `RecurringSplits.MonthLength` | backend/src/recurring-splits/recurring-splits.service.ts:388-407 | First days of successive months differ by the length of the month, across leap years and centuries. |
| `RecurringSplits.FormulaCounts` | backend/src/recurring-splits/recurring-splits.service.ts:388-407 | The closed formula of ECMA-262 counts the days of the months since 1970, in both directions. |
| `RecurringSplits.MakeDayIsFormula` | backend/src/recurring-splits/recurring-splits.service.ts:388-407 | The day of a month and date, by which dates are stepped, is the one that the closed formula of ECMA-262 gives. |
| `RecurringSplits.MakeDayRoundTrip` | backend/src/recurring-splits/recurring-splits.service.ts:388-407 | Month and date of a day made from a month and an existing date are that month and date. |
| `RecurringSplits.MakeDayOfParts` | backend/src/recurring-splits/recurring-splits.service.ts:388-407 | Every day is rebuilt from its month and date. |
| `RecurringSplits.MonthlyStep` | backend/src/recurring-splits/recurring-splits.service.ts:401-403 | A monthly step advances by exactly the number of days of the month it leaves. |
| `RecurringSplits.NextIsLater` | backend/src/recurring-splits/recurring-splits.service.ts:388-407 | Every step advances by at least a week. |
| `RecurringSplits.WeeklyGenerations` | backend/src/recurring-splits/recurring-splits.service.ts:395-400 | n weekly or biweekly steps advance by 7n or 14n days. |
| `RecurringSplits.MonthlyGenerations` | backend/src/recurring-splits/recurring-splits.service.ts:401-403 | From a date up to the 28th, n monthly steps land on the same date and time n months later. |
| `RecurringSplits.CreateRecurringSplit` | backend/src/recurring-splits/recurring-splits.service.ts:55-96 | Refused without a template or with an end date that is not ahead; otherwise active and due one period from now. |
| `RecurringSplits.RecurringSplit.GenerateSplitFromTemplate` | backend/src/recurring-splits/recurring-splits.service.ts:241-322 | An active split that has not ended consumes its occurrence and copies what each participant of the template owes, with nothing paid; an ended one is deactivated; a missing template changes nothing. |
| `RecurringSplits.RecurringSplit.PauseRecurringSplit` | backend/src/recurring-splits/recurring-splits.service.ts:152-165 | Pauses an active split and refuses a paused one. |
| `RecurringSplits.RecurringSplit.ResumeRecurringSplit` | backend/src/recurring-splits/recurring-splits.service.ts:170-189 | Reactivates a paused split one period from now and refuses an active one. |
| `RecurringSplits.GenerateExactly` | backend/src/recurring-splits/recurring-splits.service.ts:241-338 | A generation consumes the next occurrence of an active split whose end date, if any, lies ahead, and steps 7 or 14 days or the length of the month on; it deactivates a split that has ended; and the scheduler asks for it exactly when the occurrence is due. |
| `RecurringSplits.PauseAndResumeExactly` | backend/src/recurring-splits/recurring-splits.service.ts:152-189 | A pause only deactivates; a resume of a paused split restarts one step from now, and of an active one changes nothing. |
| `RecurringSplits.ConsumesIterates` | backend/src/recurring-splits/recurring-splits.service.ts:241-322 | Between two resumes, through pauses and skipped generations, the occurrences consumed are the iterates of the calendar step from the first one on, and the next occurrence follows them. |
| `RecurringSplits.GenerationDates` | backend/src/recurring-splits/recurring-splits.service.ts:241-322 | So generation i falls 7i or 14i days after the first, or, from a date up to the 28th, on the same date i months later. |
| `RecurringSplits.ConsumedIncreases` | backend/src/recurring-splits/recurring-splits.service.ts:310-316 | Occurrences consumed in any run strictly increase if every resume restarts after the last one consumed. |
| `RecurringSplits.ScheduledConsumesOnce` | backend/src/recurring-splits/recurring-splits.service.ts:241-338 | Under the scheduler, through any pauses and resumes, they do: no occurrence is consumed twice. |
| `RecurringSplits.ResumeKeepsOrder` | backend/src/recurring-splits/recurring-splits.service.ts:179-184 | A resume is safe, in that all runs up to the next resume keep increasing, if and only if one period from now lies after the last consumed occurrence. |
| `RecurringSplits.IncreasesExactly` | backend/src/recurring-splits/recurring-splits.service.ts:170-322 | Over any run, manual generations included, the occurrences consumed strictly increase if and only if every resume that a generation follows before the next resume restarts after the last one consumed. |
| `RecurringSplits.EarlyGenerationRepeats` | backend/src/recurring-splits/recurring-splits.service.ts:179-184 | A manual generation ahead of time followed by a pause and a resume consumes one occurrence twice. |
| `Reputation.ReputationService.RecordEvent` | backend/src/reputation/reputation.service.ts:17-77 | A repeated event changes nothing and returns the stored record. Otherwise the event is appended and the updated record stored, or, if a counter was unset and has become no number, storing fails: the event stays without a record, or is rolled back with the caller. |
| `Reputation.ReputationService.Exists` | backend/src/reputation/reputation.service.ts:33-48 | Tells whether the log has an event of the user and split, of the given type if one is given. |
| `Reputation.RecordExactly` | backend/src/reputation/reputation.service.ts:17-77 | A call that takes effect appends exactly its own event and touches no other user's record; a repetition does nothing. |
| `Reputation.UpdatedAgrees` | backend/src/reputation/reputation.service.ts:50-71 | A stored record updated by one event can be stored and is the replay of the longer log: clamped score, history, participation and outcome counters. |
| `Reputation.RecordAgrees` | backend/src/reputation/reputation.service.ts:40-75 | Whoever calls, a stored record that is the replay of its log is so afterwards. |
| `Reputation.RecordHoldsExactly` | backend/src/reputation/reputation.service.ts:40-76 | A call that is no repetition leaves a record that is the replay of the log if and only if the user had a stored record. |
| `Reputation.FirstEventFails` | backend/src/reputation/reputation.service.ts:41-76 | For a user without record and events, no event type can be stored: its event is left alone in the log, or rolled back. |
| `Reputation.ReputationHoldsExactly` | backend/src/reputation/reputation.service.ts:17-77 | Over all runs a user's record stays the replay of the log if and only if the user had a stored record to begin with or all of the user's calls run in transactions of their callers. |
| `Reputation.ReputationFollowsLog` | backend/src/reputation/reputation.service.ts:17-77 | After any calls for any users, every user who had a stored record has one that is the replay of the log; no event is recorded twice and all stored scores are between 0 and 100. |
| `Reputation.RepeatedCallIsIgnored` | backend/src/reputation/reputation.service.ts:32-38 | A call whose event was recorded at any time before changes nothing when it is repeated. |
| `Reputation.DisputeUndercounts` | backend/src/reputation/reputation.service.ts:42-58 | For a new user, filing a dispute logs an event and stores nothing; winning it then stores a record with no split counted and one of two events in its history. |
| `Reputation.ScoreIsBalance` | backend/src/reputation/score-calculator.service.ts:6-21 | While 50 plus 5 per payment on time, minus 3 per late one, minus 10 per unpaid split, plus 2 per dispute won and minus 8 per dispute lost stays from 0 to 100, it is the score. |
| `Reputation.ScoreStep` | backend/src/reputation/reputation.service.ts:54-54 | One event moves the score by its weight, or as far as 0 or 100. |
| `PaymentReconciliation.PaymentReconciliationService.ReconcilePayment` | backend/src/payments/payment-reconciliation.service.ts:163-280 | A settled or reviewed payment is reported as it is. Any other is checked once more: a valid transaction confirms it, a failed one fails it, none leaves it reconciling and reported as submitted, and an error submits it again or, with the attempts spent, sends it to review. |
| `PaymentReconciliation.PaymentReconciliationService.DetectStalePayment` | backend/src/payments/payment-reconciliation.service.ts:129-153 | A submitted payment last checked before the threshold goes to review; others do not change. |
| `PaymentReconciliation.PaymentReconciliationService.ResolvePaymentFromReview` | backend/src/payments/payment-reconciliation.service.ts:425-473 | Only a payment in review is resolved, to confirmed, failed, or submitted with no attempts. |
| `PaymentReconciliation.SettledExactly` | backend/src/payments/payment-reconciliation.service.ts:194-242 | Over every run without an administrator, a payment not yet settled or in review ends confirmed, with the amount found on chain, if and only if the first settling check before a review found a valid transaction, and failed if and only if it found a failed one. |
| `PaymentReconciliation.ResolvedExactly` | backend/src/payments/payment-reconciliation.service.ts:438-470 | Confirming a payment in review confirms it, failing it fails it, and a retry submits it with no attempts; other payments are not touched. |
| `PaymentReconciliation.SettledForever` | backend/src/payments/payment-reconciliation.service.ts:176-192 | No run of steps changes a confirmed or failed payment. |
| `PaymentReconciliation.ReviewNeedsAdmin` | backend/src/payments/payment-reconciliation.service.ts:176-192 | Without an administrator no run changes a payment in review. |
| `PaymentReconciliation.ErrorsAreBounded` | backend/src/payments/payment-reconciliation.service.ts:249-269 | Between retries by an administrator, errors return a payment to submitted at most max - 1 times. |
| `PaymentReconciliation.PersistentErrorsEndInReview` | backend/src/payments/payment-reconciliation.service.ts:249-264 | A payment whose attempts are all spent on errors is in review. |
| `PaymentReconciliation.MarkedNeedsAdmin` | backend/src/payments/payment-reconciliation.service.ts:355-362 | A payment marked for review stays exactly as marked through every run without an administrator, and any decision takes it out. |
| `PaymentReconciliation.UnseenReviewedExactly` | backend/src/payments/payment-reconciliation.service.ts:207-218 | While its transaction does not appear, a payment is sent to review if and only if it was submitted and stale detection finds it stale before the first check. |
| `PaymentReconciliation.UnseenKeepsReconciling` | backend/src/payments/payment-reconciliation.service.ts:207-218 | After the first check it stays reconciling, with every check counted as an attempt. |
| `PaymentReconciliation.ReviewedExactly` | backend/src/payments/payment-reconciliation.service.ts:129-280 | Over every run without an administrator, a payment not yet settled or in review ends in review if and only if, before any check settles it, either a check raises an error with the attempts, every check counted, spent, or stale detection looks after the last check raised an error longer ago than the threshold, or before any check and the payment is stale. |
| `Governance.GovernanceService.CreateProposal` | backend/src/governance/governance.service.ts:31-78 | A proposer at the threshold gets a pending proposal with its window, quorum and unexecuted actions; others get nothing. |
| `Governance.GovernanceService.CastVote` | backend/src/governance/governance.service.ts:80-143 | The refusals in order, and otherwise the vote, its tally and the status. |
| `Governance.GovernanceService.CastVoteWithType` | backend/src/governance/governance.service.ts:145-185 | The same with three vote types and without a check of the status. |
| `Governance.GovernanceService.FinalizeProposal` | backend/src/governance/governance.service.ts:271-307 | After the end of voting: queued with a timelock if quorum and majority are met, defeated otherwise, whatever the status was. |
| `Governance.GovernanceService.ExecuteProposal` | backend/src/governance/governance.service.ts:187-238 | Finalizes an active proposal and executes a queued one whose timelock is over, marking every action. |
| `Governance.GovernanceService.VetoProposal` | backend/src/governance/governance.service.ts:240-269 | A listed address vetoes anything that is not executed. |
| `Governance.CreatedExactly` | backend/src/governance/governance.service.ts:42-70 | A new proposal opens in a minute for the voting period, with its own or the configured quorum and nothing cast, decided or executed. |
| `Governance.CastVoteExactly` | backend/src/governance/governance.service.ts:80-135 | A simple vote counts once per voter, in the window, on a pending or active proposal, with its whole power and for the side it names. |
| `Governance.CastVoteWithTypeExactly` | backend/src/governance/governance.service.ts:145-185 | A typed vote counts once per voter, in the window, whatever the status, for its type. |
| `Governance.FinalizeExactly` | backend/src/governance/governance.service.ts:271-301 | From the end of voting on, a proposal is queued with its timelock if and only if the votes cast reach the quorum of the total power and those for exceed those against; otherwise it is defeated. |
| `Governance.ExecuteExactly` | backend/src/governance/governance.service.ts:187-232 | An execution is accepted if and only if voting is over and the proposal is queued with its timelock over, or active and carried with its timelock over; it is dated and marks every action. |
| `Governance.VetoExactly` | backend/src/governance/governance.service.ts:240-262 | A veto is accepted if and only if the address is listed and the proposal is not executed, whose status alone it changes. |
| `Governance.StepTallied` | backend/src/governance/governance.service.ts:80-185 | Every call keeps the tallies equal to the stored votes. |
| `Governance.TalliesMatchVotes` | backend/src/governance/governance.service.ts:80-185 | Over all runs the tallies are the summed power of the stored votes of each type, with at most one vote per voter. |
| `Governance.ExecutionIsJustified` | backend/src/governance/governance.service.ts:187-301 | In every run, an executed proposal was queued by a finalization at some time at or after the end of voting whose tally met quorum and majority, and was executed no earlier than that time plus the timelock. |
| `Governance.ExecutionRestsOnVotes` | backend/src/governance/governance.service.ts:187-301 | In that finalization the summed power of the stored votes of each type met quorum and majority. |
| `Governance.VerdictStandsUntilFinalized` | backend/src/governance/governance.service.ts:271-301 | A veto or an execution stands throughout a run if and only if nobody finalizes the proposal again. |
| `Governance.VetoCanBeUndone` | backend/src/governance/governance.service.ts:271-301 | A vetoed proposal with a carried vote can be finalized and executed. |
| `Governance.EndTimeFixed` | backend/src/governance/governance.service.ts:80-307 | No run moves the end of voting. |
| `Governance.CreatedProposal` | backend/src/governance/governance.service.ts:31-78 | All of this holds for every run of a newly created proposal. |
| `ExportJobs.CancellationIsClassified` | backend/src/export/export.service.ts:548-578 | Whatever a failed check throws is classified as a cancellation. |
| `ExportJobs.ContainsExactly` | backend/src/export/export.service.ts:572-578 | A message contains a word if and only if the word occurs at some place in it. |
| `ExportJobs.ClassifiedExactly` | backend/src/export/export.service.ts:572-578 | A failure is a cancellation if its message contains that word, else one of generation, of upload or of data, in this order, with their progress. |
| `ExportJobs.CheckExactly` | backend/src/export/export.service.ts:548-553 | A check fails if and only if the row says cancelled or requested; an attempt starts by overwriting the row. |
| `ExportJobs.AdvanceExactly` | backend/src/export/export.service.ts:220-263 | Reports and results write their status and lead to the next stage; an error of the work leads to the failure step, one before the try block or of the failure write ends the attempt. |
| `ExportJobs.RequestsExactly` | backend/src/export/export.service.ts:64-111 | Pending and processing jobs can be cancelled, failed, cancelled and expired ones retried, and completed ones expire or lose their file. |
| `ExportJobs.RetryClearsRequest` | backend/src/export/export.service.ts:64-93 | A retry makes the job pending, clears the request and queues it, or fails it if queueing fails. |
| `ExportJobs.CompletedEndsExactly` | backend/src/export/export.service.ts:131-150 | A completed job whose file expired ends expired, one whose file is lost failed. |
| `ExportJobs.CaughtAttemptNeverCompletes` | backend/src/export/export.service.ts:220-263 | Under every interleaving, an attempt that has not passed its third check when the request is set, or that starts later, does not complete until a retry clears the request. |
| `ExportJobs.CancelledJobNeverCompletes` | backend/src/export/export.service.ts:220-263 | If no attempt is past its third check, the job itself never becomes completed either. |
| `ExportJobs.OverwrittenCancelIsRestored` | backend/src/export/export.service.ts:229-261 | In every interleaving in which no error from outside strikes it, an attempt that overwrites the cancelled status with a report below stage 3 has written it again itself and stopped after at most four of its steps. |
| `ExportJobs.OverwriterWritesFailure` | backend/src/export/export.service.ts:229-261 | Under every interleaving such an attempt stops only in its failure step, which writes the status of a failure unless the database refuses the write, and that is cancelled unless an error from outside struck the attempt. |
| `ExportJobs.StagePasses` | backend/src/export/export.service.ts:229-241 | Without a request, an undisturbed stage reports, works and passes its next check. |
| `ExportJobs.ReportingAttemptCompletes` | backend/src/export/export.service.ts:228-241 | Without a request, an attempt that reports completes the job if it is left alone. |
| `ExportJobs.SafeExactlyWhenRequested` | backend/src/export/export.service.ts:548-553 | No attempt that starts later can complete if and only if the request is set. |
| `ExportJobs.AttemptSafeExactlyWhenCaught` | backend/src/export/export.service.ts:228-263 | An attempt that is under way cannot complete under any interleaving if and only if the request is set and the attempt has not passed its third check. |
| `ExportJobs.CancelSetsRequest` | backend/src/export/export.service.ts:95-111 | An accepted cancellation that runs to its end sets the request unless it takes a pending job off the queue. |
| `SplitSearch.SearchService.InitializeFeatures` | backend/src/search/search.service.ts:78-110 | Each probe that succeeds switches its feature on, for good. |
| `SplitSearch.SearchService.FetchRows` | backend/src/search/search.service.ts:161-211 | The rows of the primary search, or of the trigram search if there are none and it is available, one more than fits on a page. |
| `SplitSearch.SearchService.SearchSplits` | backend/src/search/search.service.ts:141-235 | Every row shown is in the table, passes the filters and, with a search text, matches the full text, the trigrams or the pattern, whichever applies, and the total is the number of rows that do; with a text rows fall in score; at most 20, or the limit asked for up to 100, are shown. |
| `SplitSearch.PageOfSlice` | backend/src/search/search.service.ts:217-234 | From the rows of a list from k on, cut one past a page, the page is the next slice; there is more and a cursor exactly if the slice does not reach the end, and the cursor is that of its last row. |
| `SplitSearch.PageRows` | backend/src/search/search.service.ts:141-235 | What a page shows and counts, told by the request and the table: falling back happens exactly when the text search finds nothing beyond the cursor. |
| `SplitSearch.RankedRows` | backend/src/search/search.service.ts:504-507 | A ranked page is a permutation that falls in score and keeps the order of rows of one score. |
| `SplitSearch.RankedPermutes` | backend/src/search/search.service.ts:504-507 | Ranking permutes the page. |
| `SplitSearch.SelectSorts` | backend/src/search/search.service.ts:399-424 | A query returns exactly the matching rows, sorted. |
| `SplitSearch.SelectFrom` | backend/src/search/search.service.ts:378-397 | With a cursor that follows the order, the rows beyond the cursor of row k - 1 are the rows from k on. |
| `SplitSearch.ModeIsKept` | backend/src/search/search.service.ts:175-211 | Every page of a walk falls back if and only if the first one does. |
| `SplitSearch.PageAt` | backend/src/search/search.service.ts:141-235 | The page that starts at row k is the next slice of the sorted matches, with the total of all matches. |
| `SplitSearch.WalkVisitsEachOnce` | backend/src/search/search.service.ts:141-235 | Following the cursors visits each matching split exactly once, in order; every page reports the number of rows visited and the mode of the first. |
| `SplitSearch.WalkFinds` | backend/src/search/search.service.ts:141-235 | A walk shows every row that passes the filters and the search that applies exactly once and by date, falling unless it was asked for rising, and every page tells how many there are. |
| `SplitSearch.WalkEnds` | backend/src/search/search.service.ts:224-227 | Every walk ends. |
| `SplitSearch.RowIsLost` | backend/src/search/search.service.ts:378-424 | Where the order and the cursor disagree about two rows, a walk over them loses one. |
| `SplitSearch.CompleteExactlyForCreatedAt` | backend/src/search/search.service.ts:378-424 | Walks are complete on every table if and only if the sort is one whose cursor follows the order: not for the amount sorts and not for an unknown sort ending in `_asc`. |
| `PaymentProcessor.PaymentProcessorService.ProcessPaymentSubmission` | backend/src/payments/payment-processor.service.ts:139-359 | The refusals in order, each leaving the database as it was, and otherwise the posting, unless the reputation call that a completed payment makes before the commit fails, which rolls everything back. |
| `PaymentProcessor.PaymentProcessorService.PostPayment` | backend/src/payments/payment-processor.service.ts:281-359 | Payment row, participant, split totals and the paid-in-full event are exactly those of the posting. |
| `PaymentProcessor.PaymentProcessorService.FindParticipant` | backend/src/payments/payment-processor.service.ts:203-213 | The first row with the participant and split ids. |
| `PaymentProcessor.PaymentProcessorService.UpdateSplitAmountPaid` | backend/src/payments/payment-processor.service.ts:508-547 | The split's amount paid becomes the sum over its participants and its status follows from it. |
| `PaymentProcessor.RefusedExactly` | backend/src/payments/payment-processor.service.ts:157-260 | Each refusal has exactly its own reason, in this order: seen before, transaction not valid, no such participant, no such split, split frozen, blocked as fraud; a refused submission changes nothing. |
| `PaymentProcessor.AcceptedPayment` | backend/src/payments/payment-processor.service.ts:304-356 | An accepted submission appends one payment with what was submitted and received, partial if and only if that is less than the participant owes, and credits that participant's row. |
| `PaymentProcessor.AcceptedSplit` | backend/src/payments/payment-processor.service.ts:107-133 | Beside that it sets the total and status of the split alone, and reports a participant who has just paid in full, on time up to the due date, else the expiry date, else 30 days after creation. |
| `Disputes.DisputesService.FileDispute` | backend/src/disputes/disputes.service.ts:73-184 | Files an open dispute and freezes the split unless an open, collecting or reviewed dispute of it exists. |
| `Disputes.DisputesService.AddEvidence` | backend/src/disputes/disputes.service.ts:199-288 | Appends evidence while it is allowed, moving an open dispute to evidence collection. |
| `Disputes.DisputesService.MoveToEvidenceCollection` | backend/src/disputes/disputes.service.ts:306-337 | The transition with its audit entry, or a refusal. |
| `Disputes.DisputesService.SubmitForReview` | backend/src/disputes/disputes.service.ts:343-378 | The transition with its audit entry, or a refusal. |
| `Disputes.DisputesService.ResolveDispute` | backend/src/disputes/disputes.service.ts:385-451 | Resolves, records the verdict and unfreezes, or refuses. |
| `Disputes.DisputesService.RejectDispute` | backend/src/disputes/disputes.service.ts:512-555 | Rejects, records the verdict and unfreezes, or refuses. |
| `Disputes.DisputesService.AppealDispute` | backend/src/disputes/disputes.service.ts:590-651 | Within 30 days the party that raised the dispute appeals it, which freezes the split again. |
| `Disputes.DisputesService.RequestMoreEvidence` | backend/src/disputes/disputes.service.ts:691-735 | Only adds to the trail, while evidence is collected or reviewed. |
| `Disputes.FileExactly` | backend/src/disputes/disputes.service.ts:73-142 | A dispute is filed, and its split frozen, if and only if the split exists and none of its disputes is open, collecting evidence or under review; the row and its trail are stated. |
| `Disputes.AddEvidenceExactly` | backend/src/disputes/disputes.service.ts:199-266 | Evidence is appended if and only if the dispute is open or collecting, which it is then; nothing else of it changes but the trail. |
| `Disputes.ProgressExactly` | backend/src/disputes/disputes.service.ts:306-735 | From which statuses evidence collection, review and a request for more evidence are possible, and that they change the status and add one entry. |
| `Disputes.ResolveExactly` | backend/src/disputes/disputes.service.ts:385-451 | A resolution is accepted if and only if the dispute is under review or resolved and its split exists; it is dated and unfreezes the split. |
| `Disputes.RejectExactly` | backend/src/disputes/disputes.service.ts:512-553 | A rejection is accepted if and only if the dispute is under review or rejected; it is dated and unfreezes the split. |
| `Disputes.AppealExactly` | backend/src/disputes/disputes.service.ts:590-651 | An appeal is accepted if and only if the dispute is decided or appealed, by who raised it, within 30 full days of the verdict; it freezes the split. |
| `Disputes.AuditedIsFaithful` | backend/src/disputes/disputes.service.ts:801-819 | An audited change whose action stands for its status keeps the trail faithful. |
| `Disputes.FiledIsFaithful` | backend/src/disputes/disputes.service.ts:112-166 | A dispute starts with a faithful trail. |
| `Disputes.StepIsFaithful` | backend/src/disputes/disputes.service.ts:73-735 | Every call keeps every trail faithful: replaying it gives the status, the dispute's freeze flag is set exactly while it is undecided, and verdicts follow review. |
| `Disputes.StepExtends` | backend/src/disputes/disputes.service.ts:73-735 | No call loses a dispute or an entry of a trail. |
| `Disputes.DecidedWasReviewed` | backend/src/disputes/dispute.state-machine.ts:12-47 | The trail of a resolved or rejected dispute contains evidence collection, after it a submission for review, and after that the verdict. |
| `SplitSafety.TrailsStayFaithful` | backend/src/disputes/disputes.service.ts:73-735 | In every state reached by payments and dispute calls all trails are faithful. |
| `SplitSafety.TrailsOnlyGrow` | backend/src/disputes/disputes.service.ts:801-819 | Over every run each trail is kept as a prefix. |
| `SplitSafety.LedgerConserved` | backend/src/payments/payment-processor.service.ts:281-333 | Over every run a participant's amount paid changes by exactly the sum of the payments recorded for it. |
| `SplitSafety.PaymentsCountOnce` | backend/src/payments/payment-processor.service.ts:157-190 | No transaction hash and no idempotency key is ever counted twice. |
| `SplitSafety.ResubmissionIsDuplicate` | backend/src/payments/payment-processor.service.ts:157-190 | After an accepted submission, at any later time, the same key or transaction is a duplicate and changes nothing. |
| `SplitSafety.TotalsAfter` | backend/src/payments/payment-processor.service.ts:508-547 | After an accepted submission the split's total is the sum over its participants and its status agrees with it. |
| `SplitSafety.TotalsFollowPayments` | backend/src/payments/payment-processor.service.ts:508-547 | After every run that holds for every split, unless it did not hold before and no payment to the split came in; once it holds it stays. |
| `SplitSafety.SplitConserved` | backend/src/payments/payment-processor.service.ts:281-333 | What the participants of a split have paid in all grows by exactly the payments recorded for the split. |
| `SplitSafety.RowsFollowPayments` | backend/src/payments/payment-processor.service.ts:315-333 | After every run a participant's row is untouched or its status agrees with what was paid. |
| `SplitSafety.PaidInFullReportedOnce` | backend/src/payments/payment-processor.service.ts:314-357 | With amounts that are not negative, paying in full is reported at most once per participant, and only when it is so. |
| `SplitSafety.CompletingPaymentRollsBackExactly` | backend/src/payments/payment-processor.service.ts:361-399 | An unrefused payment that completes a share is rolled back, with its reputation event, if and only if the user has no stored reputation, unless the same outcome for the split was logged before. |
| `SplitSafety.FreezeAfterStep` | backend/src/disputes/disputes.service.ts:132-142 | A call changes the freeze of a split by a filing, an appeal or a verdict on one of its disputes, and nothing else of the split. |
| `SplitSafety.FreezeHasCause` | backend/src/disputes/disputes.service.ts:73-651 | Over every run a frozen split has a dispute that is neither resolved nor rejected. |
| `SplitSafety.FrozenUntilVerdict` | backend/src/payments/payment-processor.service.ts:226-232 | Until a verdict on one of its disputes a frozen split stays frozen, and its totals, payments and participants do not change. |
| `SplitSafety.NoPaymentDuringDispute` | backend/src/payments/payment-processor.service.ts:226-232 | From an accepted filing or appeal until the first verdict no submission to the split is accepted. |
| `SplitSafety.AgreementBreaksExactly` | backend/src/disputes/disputes.service.ts:419-445 | A step ends the agreement of the freeze with the existence of an undecided dispute if and only if it is a verdict that the state machine allows on a dispute of the split while another one of it is undecided. |
| `SplitSafety.OneDisputeFreezeAgrees` | backend/src/disputes/disputes.service.ts:111-142 | A split that never had a second dispute is frozen exactly while its dispute is undecided. |
| `SplitSafety.VerdictIsAccepted` | backend/src/disputes/disputes.service.ts:385-445 | A resolve or reject is accepted if and only if the state machine allows it and, for a resolve, the split exists. |
| `SplitSafety.SecondResolveUnfreezes` | backend/src/disputes/dispute.state-machine.ts:38-47 | With two disputes, resolving the first a second time unfreezes the split while the second is open. |
| `SplitSafety.AppealDoesNotBlock` | backend/src/disputes/disputes.service.ts:94-103 | An appealed dispute does not stop a new one, after which two are undecided. |

## Left out

- Floating point: debts are exact integers in millionths and payments in cents; exchange rates and amounts of the order book are exact reals. On debts in cents the epsilon tests are then exact and rounding to six decimals is the identity.
- Lists that JavaScript mutates in place are sequences held in variables and fields; aliasing between them is not modelled. An entity of the debt graph that the code updates through an array element is a value in a sequence.
- DebtCache.DebtSimplificationService.Calculate: is one atomic step, so two overlapping calculations of the same key, or a change of debts between loading and storing, are not covered.
- DebtCache.LoadRawDebts: takes the rows in a fixed order. The query has none, so a fresh simplification is determined up to the order in which the database returns the rows.
- DebtCache.DebtSimplificationService.Recalculate: does not build payment links or store the transaction counts. Group ids are uuids, so the empty string, which the code reads as no group, is not modelled.
- ExchangeRates.GetBestExchangeRate: does not model the path query it falls back to, nor parsing of the book.
- OcrWorkerPool.Pool.Initialize: does not cover overlapping initializations or a failing library; the shutdown of the pool, after which the code gives no guarantee to scans under way, is not modelled.
- HistoricalRates.BatchResult: takes each lookup as an arbitrary price or failure; the stored rates, the retries and the backoff behind it are not modelled.
- RecurringSplits.ScheduledConsumesOnce: takes a generation as one atomic step. The code saves the new split and its participants before the next occurrence, without a transaction, so an overlapping generation or a failed save in between can repeat an occurrence; neither is modelled.
- RecurringSplits.RecurringSplit.GenerateSplitFromTemplate: leaves out descriptions and events, and updates of the frequency or end date of an existing recurring split. Local time zones with daylight saving are not modelled.
- Reputation.ReputationService.RecordEvent: decimal columns are numbers, as their entities declare them; a driver that returns them as text is not modelled. Of a failing transaction only the rollback is modelled. Badges and the leaderboard are left out.
- PaymentReconciliation.PaymentReconciliationService.ReconcilePayment: models one payment row; that a failed payment also sets its participant to pending, and the batches of the background jobs, are left out.
- Governance.TalliesMatchVotes: takes votes and actions as written by their own saves. The code also saves proposals whose vote and action lists were loaded earlier, with cascading relations; what the database layer then does to newer votes or executed flags is not modelled.
- Governance.GovernanceService.CastVote: voting power is a parameter; the fields of a vote or proposal that no decision reads are left out.
- ExportJobs: the job row is a value that interleaved steps rewrite, not an object with methods, because a method would be one atomic step. The behaviour of the queue is a parameter of the steps; a failing write of an API call is a call that does not go on, and whether a file's deletion succeeded before an expiry is not told; report contents, e-mail and storage are left out.
- SplitSearch.SearchService.SearchSplits: text matching and scoring are arbitrary functions of a split, highlights are left out, and the cursor is a pair instead of its base64 text; a cursor that cannot be decoded counts as none. Timestamps are milliseconds, as in the entity; a database that keeps finer ones is not modelled.
- PaymentProcessor.PaymentProcessorService.ProcessPaymentSubmission: covers direct payments; currency conversion can save a row of its own outside the transaction. Whether the reputation call fails is a parameter. The generated key is an injective function of its inputs, standing for a hash. Notifications, webhooks and retries of failed payments are left out.
- Disputes.DisputesService.ResolveDispute: is one atomic step; the best-effort write of a chain transaction hash after the commit, which stores the row again, is not.
- Disputes.DisputesService.FileDispute: is one atomic step together with the chain freeze, whose success is a parameter.
- SplitSafety.LedgerConserved: ranges over submissions and dispute calls; soft deletion of rows, edits of splits and the amount that reconciliation writes into a payment are not steps of these runs.
- SplitSafety.PaidInFullReportedOnce: asks for amounts that are not negative, as the network reports them.
- Controllers, guards, validation of requests, migrations, the frontend, analytics, notifications and the remaining services: input and output, or single flags and counters.
