# Verified model of the invoice-financing contracts and backend protocols

A Dafny 4.11 model of an invoice-financing system: the Soroban contracts (price oracle, shared
access control, financing pool, settlement ledger, invoice token) and the backend protocols
around them (rate limiter, idempotent requests, settlement sync, webhook queue, circuit breaker,
export formats). It states what the system is for as theorems about every input, every run or
every interleaving, and proves them. Check it with `dafny verify dfyconfig.toml`.

## How the model is built

* **One module per component.** Each contract entry point and each service operation has a
  specification function on values (`Execute`, `Script`, `Step`, `After`). Code that works by
  changing state is a class with those fields (`OracleAggregator`, `RateLimiterService`,
  `AccessControlStore`, `Pool`, ...); its methods, loops included, are proved to have exactly the
  specified effect and result. `Run` folds the specification over a sequence of calls or steps,
  and the main results are lemmas about `Run`.
* **Contract calls roll back.** A call ends in `Ok`, in a contract error (`Err`) or in a panic
  (`Trap`); the last two leave the state as it was (`Prelude.Committed`). `require_auth` is
  membership of the caller in the set of addresses that signed the call.
* **Concurrency is interleaving.** Idempotent requests, the settlement poller, webhook workers
  and circuit-breaker calls are small-step machines whose runs contain crashes, lost commits,
  store outages, cache evictions and steps of other services. What one undisturbed call does is
  the class method; `Idempotency.IdempotencyInterceptor.Intercept` and
  `SettlementSyncRuns.CycleIsARun` connect it with the machine.
* **Integers.** i128 arithmetic is checked arithmetic with its bounds (`Prelude.I128`); the u32
  saturating add of the timelock is written out; division truncates toward zero.
* **Parameters.** Clocks, ledger numbers, signatures, random suffixes, RPC answers, the outcome
  of handlers and deliveries, and every infrastructure failure are inputs over which the theorems
  quantify.

* **State and answers are functions of the log.** For every contract a `...History` module
  computes each stored value and each answer from the list of accepted calls alone
  (`StateIsTheLog`, `AnswersFollowTheLog`), the other contracts leaving their access-control part
  to that block; the services have the same for what they return (`RateLimiterCalls`,
  `IdempotencyReplay`, `SettlementSyncExact`, `WebhookHistory`).

Files: `Prelude` (results, addresses, i128); `Median`, `Oracle` and `OracleHistory`; `RateLimiter`
and `RateLimiterCalls`; `AccessControl`, `AccessControlRuns` and `AccessControlHistory`;
`Idempotency` and `IdempotencyReplay`; `SettlementSync`, `SettlementSyncExact`,
`SettlementSyncRuns`, `SettlementCursor` and `SettlementCursorExact`; `WebhookQueue` and
`WebhookHistory`; `CheckedMath`, `MapSum`, `FinancingPool` and `FinancingPoolHistory`;
`SettlementLedger` and `SettlementLedgerHistory`; `InvoiceToken` and `InvoiceTokenHistory`;
`DecimalAmount` and `DecimalParsing`; `Csv`; `CircuitBreaker`.

## What the proofs found

Where code and documentation disagree, the model follows the code.

* **Settlement cursor.** `backend/README.md:29-31` says the cursor only advances past
  fully-processed ledgers, so that a failing event is retried. Two things break this.
  First, `safeLedger` reaches a ledger with its *first* event of any kind, so distinct ledgers
  for settlement events are not enough: an unrelated event earlier in the ledger makes a failing
  settlement be left behind (`SettlementCursorExact.UnrelatedEventSkips`). With a stored cursor
  the claim holds for exactly the chains in which every settlement event is, or comes after, an
  event for its invoice that opens its ledger (`SettlementCursorExact.SeededCursorExact`); per
  cycle the condition is `SettlementSync.SkippedIffLedgerShared`.
  Second, `settlement-sync.service.ts:95-97` starts at the network tip whenever no positive cursor
  is stored, so a first cycle that dies or gives up before storing one loses what it had
  fetched, even a settlement alone in its ledger (`SettlementCursorExact.DiedBeforeFirstCursor`).
  Without such a restart the condition is the same from the first start on
  (`SettlementCursorExact.StartedCursorExact`, and over all starts
  `SettlementCursorExact.CursorNeverSkips`); with restarts only chains whose settlements all lie
  in the newest ledger are safe (`SettlementCursorExact.RestartsExact`). The comment at
  `backend/src/settlement/settlement-sync.service.ts:32-36` describes a shared transaction for
  cursor and invoice; `syncOnce` does not use it.
* **Funding write.** `backend/src/financing-pool/financing-pool.service.ts` reads PENDING (48-51),
  funds on the chain (78-98) and then writes FUNDED by id without looking at the status again
  (105-116). That is safe exactly as long as the chain accepts at most one funding of an invoice
  (`SettlementSyncRuns.RepaidOnceExactly`), which the pool contract guarantees per invoice id
  (`FinancingPool.FundedAtMostOnce`); the backend itself does not. With two accepted fundings
  the later write can undo REPAID, and the invoice gets a second settlement audit row
  (`SettlementSyncRuns.DoubleFundingRepaysTwice`).
* **Retry-after.** The reported seconds are one millisecond short when the reset lies a whole
  positive number of seconds ahead (`RateLimiter.RetryAfterIsEnough`, with a run in
  `RateLimiter.RetryComesTooSoon`): the window is closed at both ends.
* **Null responses.** A replay of a null response is null from Redis and `{}` from the database
  (`Idempotency.ReplaysAgree`, with a run in `Idempotency.NullReplaysDiffer`).
* **Late webhook attempts.** `finalize` updates by id alone: an attempt that outlives the stuck
  limit can overwrite a row that another worker delivered, and only such an attempt can
  (`WebhookQueue.RewritesIffLate`; from an empty queue `WebhookQueue.DeliveredRowReopened`).
* **Nonce deadline.** No entry point stores a due date, so settlement stops for good 2592000
  seconds after the epoch (`SettlementLedger.DeployedDeadline`); on a live network that moment
  has passed. The due dates are therefore a parameter of the ledger model: its results hold for
  every choice of them, and the deployed contract is the choice `NO_DUE_DATES`.
* **Fee rate.** Nothing bounds the stored fee rate. Both halves of the documented settlement invariant 15
  (monotonic principal, gated terminal status) hold if and only if no rate above 10000 may be set
  (`SettlementLedger.StatusCapExact`, `SettlementLedger.PrincipalCapExact`); every larger rate
  has a run that breaks them (`SettlementLedger.RateAboveTotalBreaks`).
* **Fee withdrawals.** Nothing rejects a negative amount. The documented settlement
  invariant 16 (fee solvency) holds for the signed sum (`SettlementLedger.FeesSolvent`), but
  a negative withdrawal refills the fees, so payouts can exceed what was charged
  (`SettlementLedger.NegativeWithdrawalPays`); they stay covered if and only if no withdrawal may
  be negative (`SettlementLedger.PayoutsCoveredExactly`).
* **Reconfiguring a price feed.** `configure_asset_pair` replaces the submitter list by an empty
  one, so the next quote is None, while the old votes stay on file and count again when their
  submitters are authorized anew (`Oracle.ReconfigureSilences`, `Oracle.ReauthorizedVotesReturn`).
* **Fresh means one fresh vote.** Staleness looks at the newest vote only; votes of any age
  decide the price next to it (`Oracle.FreshIfAnyVoteIs`, `Oracle.OnlyNewestVoteAges`).
* **Empty last cell.** A one-column export whose last cell is empty ends in CRLF, which a CSV
  reader may take as the ending break and drop that record (`Csv.EndedRoundTrip`).
* **Half is not enough.** With an even number of prices the contract takes the upper median, so
  half of the submitters decide the price (`Median.HalfIsNotEnough`).
* **Signers as superusers.** `require_role` admits every signer, while `has_role` reports no
  operational role for a signer without a grant (`AccessControlRuns.RoleGuardExact`).

## Model

| member | source | states |
|---|---|---|
| Median.BubbleSort | contracts/oracle/src/lib.rs:284-300 | The nested-loop bubble sort, on the array in place, leaves the sorted permutation of what it was given. |
| Median.SortedCopyPermutes | contracts/oracle/src/lib.rs:284-300 | The reference sort is sorted and holds the same multiset of prices. |
| Median.SortedUnique | contracts/oracle/src/lib.rs:284-300 | A multiset of prices has exactly one sorted order, so the sort cannot depend on the order of collection. |
| Median.MajorityHoldsMedian | contracts/oracle/src/lib.rs:302-304 | A range that holds more than half of a sorted list holds its (upper) median. |
| Median.AggregateRobust | contracts/oracle/src/lib.rs:302-327 | Median, tolerance band and second median together: if a strict majority lies in [lo, hi] and the range is no wider than the band, the result exists and lies in [lo, hi] whatever the other entries are. |
| Median.HalfIsNotEnough | contracts/oracle/src/lib.rs:302-327 | The majority hypothesis is tight: if only half of the prices are honest, the others can make the answer their own price or no price, never an honest one. |
| Oracle.OracleAggregator.Initialize | contracts/oracle/src/lib.rs:82-91 | The call's whole effect and error are those of the specification; a failed call changes nothing. |
| Oracle.OracleAggregator.CheckAdmin | contracts/oracle/src/lib.rs:348-361 | Admits exactly the stored admin with its signature; an uninitialized contract is reported as such. |
| Oracle.OracleAggregator.ConfigureAssetPair | contracts/oracle/src/lib.rs:93-129 | Validates the two settings and stores them with an empty submitter list; votes on file are not touched. |
| Oracle.OracleAggregator.AuthorizeSubmitter | contracts/oracle/src/lib.rs:131-161 | Adds the submitter once, rejects a second authorization. |
| Oracle.OracleAggregator.RevokeSubmitter | contracts/oracle/src/lib.rs:163-201 | Rebuilds the list without the submitter; its stored vote stays. |
| Oracle.OracleAggregator.SubmitPrice | contracts/oracle/src/lib.rs:203-245 | Stores a vote of a listed submitter, dated with the current ledger. |
| Oracle.OracleAggregator.Collect | contracts/oracle/src/lib.rs:257-272 | The collection loop gathers one positive price per listed submitter on file, and the newest ledger among them. |
| Oracle.OracleAggregator.FilterBand | contracts/oracle/src/lib.rs:306-317 | The filter loop keeps exactly the sorted prices inside the band, in order. |
| Oracle.OracleAggregator.GetPrice | contracts/oracle/src/lib.rs:250-328 | The entry point, loops and in-place sort included, answers what the specification answers. |
| Oracle.ReachableInv | contracts/oracle/src/lib.rs:93-245 | After any history of calls at non-decreasing ledgers, submitter lists have no duplicates, settings are in range and no vote is dated after the current ledger. |
| Oracle.OneVoteEach | contracts/oracle/src/lib.rs:257-272 | With a duplicate-free list every voter contributes exactly one price, and the voters of a group count as many times as they are. |
| Oracle.HonestMajorityDecides | contracts/oracle/src/lib.rs:250-328 | Over whole runs: if the feed is fresh, at least two vote and a strict majority of the voters quoted inside [lo, hi], a range no wider than the band, then the contract answers a price in [lo, hi], whatever the others submitted. |
| Oracle.QuoteTrapsOnlyOnOverflow | contracts/oracle/src/lib.rs:278-309 | In a reachable state the staleness subtraction cannot underflow; a quote panics exactly when the band around a fresh median leaves i128. |
| Oracle.QuoteIgnoresOrder | contracts/oracle/src/lib.rs:250-328 | Permuting the submitter list changes no quote. |
| Oracle.ReconfigureSilences | contracts/oracle/src/lib.rs:108-117 | Configuring a pair again takes every authorization: the next quote is None at any ledger, while all votes stay on file. |
| Oracle.ReauthorizedVotesReturn | contracts/oracle/src/lib.rs:93-161 | Old votes count again: the same settings and the same submitters authorized anew restore the very state from before. |
| Oracle.FreshIfAnyVoteIs | contracts/oracle/src/lib.rs:257-282 | A feed is stale exactly if every single vote is too old: one fresh vote keeps votes of any age deciding. |
| Oracle.OnlyNewestVoteAges | contracts/oracle/src/lib.rs:257-327 | The ages of the votes behind the newest one never change a quote. |
| OracleHistory.StateIsTheLog | contracts/oracle/src/lib.rs:82-245 | Over every run all that is stored follows from the log of accepted calls: the appointed admin, each pair's last settings, who was authorized since the last configuration and not revoked, and every submitter's last price with the ledger of that call. |
| OracleHistory.AnswersFollowTheLog | contracts/oracle/src/lib.rs:82-245 | Every entry point accepts, or refuses with which error, exactly as that log decides. |
| OracleHistory.QuoteExact | contracts/oracle/src/lib.rs:250-328 | Every answer of get_price in a reachable state, counted voter by voter: nothing with fewer than two voters or if every vote is too old; otherwise the upper median of the votes within the tolerance of the upper median of all votes, dated with the newest vote, nothing if fewer than two votes are in the band, and a panic if the band leaves i128. |
| OracleHistory.QuotesAreFresh | contracts/oracle/src/lib.rs:278-327 | A price is only answered from at least two voters; its ledger is that of some vote, no vote is newer, and it is at most the staleness limit ago. |
| RateLimiter.LowestScore | backend/src/common/rate-limiter.service.ts:50-53 | ZRANGE 0 0 returns a score that occurs and is below no other. |
| RateLimiter.KeysAreDistinct | backend/src/common/rate-limiter.service.ts:66-130 | Callers of different kinds or identifiers never share a key, whatever the identifiers are. |
| RateLimiter.RateLimiterService.Eval | backend/src/common/rate-limiter.service.ts:35-55 | The script, command by command on the stored set and its expiry, has the effect and reply of one atomic step. |
| RateLimiter.RateLimiterService.CheckLimit | backend/src/common/rate-limiter.service.ts:126-163 | A check returns and stores what the specification of a call says: one script step on that caller's key only, nothing for an unknown type, and a let-through that stores nothing if Redis does not answer. |
| RateLimiter.RefinesFullLog | backend/src/common/rate-limiter.service.ts:41-54 | After any run, with Redis dropping an expired key whenever it likes, a check answers decision, count and reset time exactly as the never-pruned log of admitted calls would. |
| RateLimiterCalls.CheckLimitExact | backend/src/common/rate-limiter.service.ts:126-171 | What every check of every run of the whole service returns, with Redis dropping expired keys at will: with W the number of that caller's calls which were told they are allowed within [now - windowMs, now], allowed if and only if W is below the configured limit; current is W, with itself if allowed; that limit; resetAt one window after now, or, refused, after the oldest of the W; retryAfter exactly when refused, the least whole seconds, at least one, that reach resetAt. |
| RateLimiterCalls.CountsAgree | backend/src/common/rate-limiter.service.ts:41-54 | Over every run of the service and in any stretch of time, a caller's never-pruned log holds as many entries as calls of that caller were told they are allowed. |
| RateLimiter.WindowBound | backend/src/common/rate-limiter.service.ts:41-54 | Over every run, any closed interval of length windowMs holds at most maxRequests admitted calls. |
| RateLimiter.SpaceBound | backend/src/common/rate-limiter.service.ts:41-48 | What a check leaves in the set never exceeds the limit. |
| RateLimiter.RejectedIsFull | backend/src/common/rate-limiter.service.ts:42-54 | A rejection happens only when the window holds exactly maxRequests calls. |
| RateLimiter.AdmittedAfterReset | backend/src/common/rate-limiter.service.ts:41-54 | After a rejected check and any number of further rejections and expiries of the key, the script admits a check if and only if it comes after the reset time reported with that rejection. |
| RateLimiter.RetryAfterIsEnough | backend/src/common/rate-limiter.service.ts:152-162 | Exactly when the reported retryAfter seconds are enough, with any rejections and expiries in between: unless the reset lies a whole positive number of seconds ahead. |
| RateLimiter.RetryComesTooSoon | backend/src/common/rate-limiter.service.ts:152-162 | A run in which the retry after exactly the reported second is rejected. |
| RateLimiter.SharedMemberEscapesLimit | backend/src/common/rate-limiter.service.ts:135-138 | The random suffix is needed: with one member per millisecond a limit of two or more would admit any number of calls. |
| AccessControl.AccessControlStore.ValidateSignerSet | contracts/access-control/src/lib.rs:336-349 | The nested index loop accepts exactly duplicate-free sets with 1 <= threshold <= size, with the right error otherwise. |
| AccessControl.AccessControlStore.CheckAdmin | contracts/access-control/src/lib.rs:180-187 | Admits exactly current signers that authorized the call. |
| AccessControl.AccessControlStore.CheckRole | contracts/access-control/src/lib.rs:169-176 | Admits current signers and holders of the role that authorized the call. |
| AccessControl.AccessControlStore.Initialize | contracts/access-control/src/lib.rs:97-123 | One-time setup with a valid set and the minimum timelock; a failed call changes nothing. |
| AccessControl.AccessControlStore.GrantRole | contracts/access-control/src/lib.rs:199-213 | Whole effect and errors of a grant; Admin is never granted. |
| AccessControl.AccessControlStore.RevokeRole | contracts/access-control/src/lib.rs:215-226 | Whole effect and errors of a revocation. |
| AccessControl.AccessControlStore.Pause | contracts/access-control/src/lib.rs:230-237 | Whole effect and errors of pausing. |
| AccessControl.AccessControlStore.Unpause | contracts/access-control/src/lib.rs:239-246 | Whole effect and errors of unpausing. |
| AccessControl.AccessControlStore.ProposeAdminTransfer | contracts/access-control/src/lib.rs:253-275 | Replaces the pending proposal; the proposer's confirmation is recorded. |
| AccessControl.AccessControlStore.ConfirmAdminTransfer | contracts/access-control/src/lib.rs:279-291 | Adds one confirmation per signer. |
| AccessControl.AccessControlStore.ExecuteAdminTransfer | contracts/access-control/src/lib.rs:297-321 | Installs the proposal once the current threshold and the (saturating) timelock are met. |
| AccessControl.AccessControlStore.CancelAdminTransfer | contracts/access-control/src/lib.rs:325-332 | Drops the pending proposal. |
| AccessControlRuns.ReachableInv | contracts/access-control/src/lib.rs:97-349 | In every reachable state signers are distinct with 1 <= threshold <= count, a pending set is valid too, and only current signers confirmed it, once each. |
| AccessControlRuns.CoalitionSafety | contracts/access-control/src/lib.rs:253-332 | From any reachable state with nothing pending, callers that include fewer than threshold current signers never change signer set or threshold, by any calls at any ledgers. |
| AccessControlRuns.CoalitionDecidesExactly | contracts/access-control/src/lib.rs:253-332 | From any reachable initialized state with nothing pending, a coalition can change signer set or threshold if and only if it holds at least threshold of the current signers. |
| AccessControlRuns.TransferIsJustified | contracts/access-control/src/lib.rs:297-321 | Every executed transfer installs one earlier proposal, untouched in between, confirmed by at least threshold distinct current signers, after min(proposed_at + timelock, 2^32 - 1). |
| AccessControlRuns.CanAlwaysInstall | contracts/access-control/src/lib.rs:253-349 | From every reachable initialized state the first threshold signers have a run that installs any valid target set: no lock-out. |
| AccessControlRuns.RoleGuardExact | contracts/access-control/src/lib.rs:127-176 | After any history require_role admits a caller exactly if it signed and is a current signer or, for an operational role, holds a grant not revoked since. |
| AccessControlRuns.PausedFollowsHistory | contracts/access-control/src/lib.rs:230-246 | The contract is paused exactly if some successful pause was not followed by a successful unpause. |
| AccessControlHistory.SignersFollowHistory | contracts/access-control/src/lib.rs:97-321 | At every point of every run the signers and the threshold in force are those of the last accepted call that sets them: the arguments of initialize, or of the accepted proposal, open until then, that an executed transfer installed; before such a call there are none. |
| AccessControlHistory.InitializedOnce | contracts/access-control/src/lib.rs:97-123 | Initialize succeeds at most once, and the timelock in force is the one it asked for. |
| AccessControlHistory.StateIsTheLog | contracts/access-control/src/lib.rs:97-332 | Everything stored follows from the log of accepted calls: signer set, timelock, pause, the open proposal with its confirmations in order, and every grant. |
| AccessControlHistory.AnswersFollowTheLog | contracts/access-control/src/lib.rs:97-349 | Every entry point accepts, or refuses with which error, exactly as that log decides. |
| Idempotency.CacheKeysAreDistinct | backend/src/common/idempotency.interceptor.ts:69-95 | Two admitted requests share a cache key only if user and key are the same, although user ids are free text. |
| IdempotencyReplay.GuardedExactly | backend/src/common/idempotency.interceptor.ts:70-89 | A request is guarded exactly if it is a POST whose header is hexadecimal digits in groups of 8, 4, 4, 4 and 12 - of any UUID version, although the comment says v4; any other POST is refused as missing its key or with an invalid one, and other methods pass through. |
| Idempotency.HandlerRunsThrough | backend/src/common/idempotency.interceptor.ts:171-221 | A request that holds its row and is not disturbed stores its response in both stores; one whose handler throws stores nothing. |
| Idempotency.IdempotencyInterceptor.Intercept | backend/src/common/idempotency.interceptor.ts:97-221 | The interceptor run without interruption has the reply and effect on both stores of its small steps. |
| Idempotency.AtMostOnce | backend/src/common/idempotency.interceptor.ts:97-221 | For every interleaving of any number of requests, with crashes, store failures and cache evictions: the handler of a (user, key) starts at most once, and exactly once as soon as any client got the answer or a replay. |
| Idempotency.ReplayIsTheAnswer | backend/src/common/idempotency.interceptor.ts:97-150 | Every replay carries the status and body one request with the same key and body hash was answered with; only a null body read from the database comes back as {}. |
| Idempotency.OneWinner | backend/src/common/idempotency.interceptor.ts:145-170 | Only one request of a key is ever answered by its handler. |
| Idempotency.ReplaysAgree | backend/src/common/idempotency.interceptor.ts:97-230 | Replays of one key agree on the status, and on the body if and only if they come from the same store or the handler did not return null. |
| Idempotency.NullReplaysDiffer | backend/src/common/idempotency.interceptor.ts:97-221 | A run in which a replay from Redis carries null and a replay from the database carries {} for the same answer. |
| Idempotency.OtherBodyRefused | backend/src/common/idempotency.interceptor.ts:128-133 | A request whose body hash differs from the one holding the key is only ever refused and never reaches the handler. |
| Idempotency.ReleasedRowStays | backend/src/common/idempotency.interceptor.ts:177-186 | A released row keeps its response: no later step changes it. |
| Idempotency.CrashedHolderBlocks | backend/src/common/idempotency.interceptor.ts:135-145 | A request that dies before persisting leaves the row locked, and no request with the key is ever answered from it while the row exists. |
| IdempotencyReplay.AnsweredIsReplayed | backend/src/common/idempotency.interceptor.ts:97-256 | From every state any interleaving reaches: once a request was answered (status, data) and its row is released, a new undisturbed request with the same key and body hash gets exactly that answer - from Redis if the entry is there and Redis is up, and otherwise from the database with a null body as {} - for every status and body, and neither store changes. |
| IdempotencyReplay.HeldKeyRefuses | backend/src/common/idempotency.interceptor.ts:128-145 | A request whose key is locked or belongs to another body hash gets a conflict, whichever store answers, and neither store changes. |
| IdempotencyReplay.FirstIsAnswered | backend/src/common/idempotency.interceptor.ts:150-221 | The first request of a key gets its handler's response, which both stores then hold, the database released; if the handler throws the row stays locked. |
| IdempotencyReplay.RefusalsHaveACause | backend/src/common/idempotency.interceptor.ts:97-221 | Over every interleaving a request fails only if its handler threw or the insert found no database, and gets a conflict only if another request holds its key. |
| SettlementSync.SettlementSyncService.SettleInvoice | backend/src/settlement/settlement.service.ts:51-132 | The conditional FUNDED -> REPAID update with its audit row, its two errors, and a failure before or after the commit. |
| SettlementSync.SettlementSyncService.SettleWithRetry | backend/src/common/retry.ts:27-50 | The retry loop: the first attempt that resolves, or the last error after maxAttempts. |
| SettlementSync.SettlementSyncService.SyncOnce | backend/src/settlement/settlement-sync.service.ts:94-157 | One poll cycle: database, stored cursor, counters and the event given up on are those of the specification. |
| SettlementSync.SettlementSyncService.Backfill | backend/src/settlement/settlement-sync.service.ts:174-224 | Best-effort replay of a ledger range; the cursor is not touched. |
| SettlementSync.RetryEffect | backend/src/settlement/settlement.service.ts:84-131 | However attempts fail, retries only move FUNDED to REPAID with one audit row, and an event that resolves leaves its invoice REPAID. |
| SettlementSync.CycleEffect | backend/src/settlement/settlement-sync.service.ts:116-151 | Every settlement before the event a cycle gave up on (all of them, if none) is REPAID when it ends; only FUNDED rows moved; the summary never counts more settlements than were written, and exactly those if no attempt failed after its commit. |
| SettlementSync.CursorNeverFalls | backend/src/settlement/settlement-sync.service.ts:94-157 | No cycle moves the cursor back, whatever the node answers and whatever fails. |
| SettlementSync.SkippedIffLedgerShared | backend/README.md:29-31 | The next fetch leaves out the event a cycle gave up on if and only if an event fetched before it, of any kind, lies in the same ledger. |
| SettlementSync.InRangeKeeps | backend/src/settlement/settlement-sync.service.ts:179-183 | The backfill handles exactly the fetched events of the requested range. |
| SettlementSync.InRangeInOrder | backend/src/settlement/settlement-sync.service.ts:179-183 | Filtering distributes over concatenation, so order and repetitions of the events are kept. |
| SettlementSync.BackfillIsIdempotent | backend/src/settlement/settlement-sync.service.ts:159-224 | Backfilling a range again changes nothing, provided each event got through to the database once, even if it was reported as failed. |
| SettlementSyncExact.RetryExact | backend/src/common/retry.ts:27-50 | A retried settlement resolves if and only if the invoice is FUNDED or REPAID and some attempt is undisturbed; it counts as settled if and only if it was FUNDED and the first attempt to reach the database is undisturbed; the row becomes REPAID at the event's ledger if and only if it was FUNDED and an attempt got there; otherwise the error is that of the last attempt. |
| SettlementSyncExact.CycleExact | backend/src/settlement/settlement-sync.service.ts:94-157 | A poll cycle gives up exactly at the first settlement that cannot resolve; processed and settled count the events handled, and every row is REPAID at the ledger of the first event that reached it, or as it was. |
| SettlementSyncExact.CursorExact | backend/src/settlement/settlement-sync.service.ts:114-156 | The cursor a cycle stores: the ledger of the last event before the one it gave up on, or else the later of the last event and the newest ledger. |
| SettlementSyncExact.BackfillExact | backend/src/settlement/settlement-sync.service.ts:174-224 | The same for a backfill, which goes on after failures: every row, processed and settled. |
| SettlementSyncRuns.CycleIsARun | backend/src/settlement/settlement-sync.service.ts:94-157 | A cycle nobody disturbs, as the service computes it, is a run of the small-step machine. |
| SettlementSyncRuns.RepaymentsCounted | backend/src/settlement/settlement.service.ts:84-122 | Whatever polls, retries, crashes, backfills and fundings interleave: an invoice has one FUNDED -> REPAID audit row if it is REPAID and none otherwise, plus one for each funding write that landed on a REPAID row. |
| SettlementSyncRuns.ExactlyOnce | backend/src/settlement/settlement.service.ts:84-122 | As long as the chain funds no invoice twice, no funding write lands on a REPAID row, and an invoice has one audit row if it is REPAID and none otherwise. |
| SettlementSyncRuns.DoubleFundingRepaysTwice | backend/src/financing-pool/financing-pool.service.ts:48-126 | A run in which two funding requests read PENDING, the chain accepts both, and the invoice is repaid twice. |
| SettlementSyncRuns.RepaidOnceExactly | backend/src/financing-pool/financing-pool.service.ts:48-126 | Each invoice is repaid at most once in every run if and only if the chain accepts at most one funding of an invoice. |
| SettlementSyncRuns.CursorNeverDecreases | backend/src/settlement/settlement-sync.service.ts:94-157 | Over any run the stored cursor never moves back. |
| SettlementSyncRuns.RepaidIsBacked | backend/src/settlement/settlement.service.ts:84-96 | No invoice turns REPAID without a settlement event for it, in the ledger its row names. |
| SettlementCursorExact.SeededCursorExact | backend/README.md:29-31 | A listener with a stored cursor c > 0: no run over a chain moves the cursor past an unapplied settlement if and only if every settlement event is, or comes after, an event for its invoice that opens its ledger. |
| SettlementCursorExact.StartedCursorExact | backend/README.md:29-31 | The same if and only if, from ledger b on, for a listener without a stored cursor that first starts at b and is not restarted before a positive cursor was stored. |
| SettlementCursorExact.CursorNeverSkips | backend/README.md:29-31 | Wherever such a listener may start: no run without restarts skips a settlement if and only if every settlement event names the invoice of the first contract event of its ledger. |
| SettlementCursorExact.RestartsExact | backend/src/settlement/settlement-sync.service.ts:94-157 | If a listener without a stored cursor may also die or give up before it stored a positive one and start again at the tip, runs skip nothing if and only if the ledgers agree as before and every settlement lies in the newest ledger. |
| SettlementCursorExact.DiedBeforeFirstCursor | backend/src/settlement/settlement-sync.service.ts:95-97 | A run on a single settlement alone in its ledger: the first cycle fetches it, fails once and dies, the next starts at the new tip, and the FUNDED invoice is behind the stored cursor. |
| SettlementCursorExact.UnrelatedEventSkips | backend/src/settlement/settlement-sync.service.ts:114-151 | The smallest run in which a failing settlement is left behind the cursor without any restart: one unrelated event before it in its ledger. |
| WebhookQueue.NextRetryDelayMs | backend/src/webhooks/retry-schedule.ts:28-34 | Gives up exactly from the seventh attempt on; an attempt number below one is an error. |
| WebhookQueue.WebhookDeliveryWorker.ClaimBatch | backend/src/webhooks/webhook-delivery-worker.service.ts:71-85 | Claims up to the limit of the due rows, each once, earliest due first, and no other row. |
| WebhookQueue.WebhookDeliveryWorker.Conclude | backend/src/webhooks/webhook-delivery-worker.service.ts:87-189 | The bookkeeping after an attempt, by row id alone. |
| WebhookQueue.BatchIsClaims | backend/src/webhooks/webhook-delivery-worker.service.ts:71-85 | A batch equals claiming its rows one by one at the same instant. |
| WebhookQueue.NoTwoWorkersOnOneRow | backend/src/webhooks/webhook-delivery-worker.service.ts:71-189 | If every attempt ends within the stuck limit, no two attempts under way hold the same row and no count exceeds seven. |
| WebhookQueue.TerminalIsFinal | backend/src/webhooks/webhook-delivery-worker.service.ts:71-189 | Under that hypothesis a DELIVERED or ABANDONED row never changes again. |
| WebhookQueue.AbandonedAtSeven | backend/src/webhooks/retry-schedule.ts:11-34 | The stored count is the number of finalized attempts; if all failed, the row is abandoned exactly when there were seven, and never delivered. |
| WebhookQueue.RetryOnSchedule | backend/src/webhooks/retry-schedule.ts:11-34 | A row waiting after its i-th failed attempt becomes due exactly the i-th delay after that attempt ended. |
| WebhookQueue.OverlapIffLate | backend/src/webhooks/webhook-delivery-worker.service.ts:71-85 | The next claim can put a second worker on a row if and only if some attempt has run longer than the stuck limit. |
| WebhookQueue.RewritesIffLate | backend/src/webhooks/webhook-delivery-worker.service.ts:71-189 | From a state reached in time, claims and finishes of one instant can change a DELIVERED or ABANDONED row if and only if some attempt has run longer than the stuck limit. |
| WebhookQueue.LateFailureReopens | backend/src/webhooks/webhook-delivery-worker.service.ts:177-189 | From any state in which an attempt outlived the stuck limit: once another worker delivers the row, a late failure queues it again, or abandons it if it was the seventh attempt. |
| WebhookQueue.DeliveredRowReopened | backend/src/webhooks/webhook-delivery-worker.service.ts:71-189 | The same from an empty queue, in six steps: a delivered row becomes due again. |
| WebhookHistory.RowFollowsHistory | backend/src/webhooks/webhook-delivery-worker.service.ts:71-189 | Over every timely run a row is DELIVERED exactly after a delivery, ABANDONED exactly after a revocation or its seventh attempt, and PROCESSING or PENDING as it was claimed since its last attempt or not; its count, lock time, last attempt and due time are those of its history. |
| WebhookHistory.DueExactly | backend/src/webhooks/webhook-delivery-worker.service.ts:71-85 | The next poll claims a waiting row from its due time on - at once if new, else 1, 5, 30 minutes, 2, 12, 24 hours after its failures - and one under way after five minutes. |
| WebhookHistory.RevokedIsAbandoned | backend/src/webhooks/webhook-delivery-worker.service.ts:87-105 | A delivery whose subscription was revoked stays ABANDONED for good. |
| CheckedMath.CheckedAdd | contracts/common/src/checked_math.rs:8-19 | The sum when it fits i128; otherwise the error names the side it leaves by. |
| CheckedMath.CheckedSub | contracts/common/src/checked_math.rs:21-32 | The difference when it fits; otherwise the side it leaves by. |
| CheckedMath.CheckedMul | contracts/common/src/checked_math.rs:34-45 | The product when it fits; otherwise the side it leaves by. |
| CheckedMath.CheckedDiv | contracts/common/src/checked_math.rs:47-55 | Fails only on zero and on MIN / -1; bounds of the quotient for a positive divisor. |
| CheckedMath.CheckedDivExact | contracts/common/src/checked_math.rs:47-55 | For every sign of the operands the quotient is the one and only integer rounded toward zero. |
| MapSum.SumUpdate | contracts/financing-pool/src/lib.rs:692-703 | Writing one balance moves the sum of all balances by the change of that balance. |
| FinancingPool.Pool.Initialize | contracts/financing-pool/src/lib.rs:182-200 | Whole effect and errors of the setup. |
| FinancingPool.Pool.Deposit | contracts/financing-pool/src/lib.rs:205-263 | Raises claim and liquidity together or changes nothing. |
| FinancingPool.Pool.Withdraw | contracts/financing-pool/src/lib.rs:265-331 | Lowers claim and liquidity together, within both, or changes nothing. |
| FinancingPool.Pool.FundInvoice | contracts/financing-pool/src/lib.rs:336-389 | Grants the quoted advance once per invoice, on a fresh feed, within the liquidity. |
| FinancingPool.Pool.SetPriceFeed | contracts/financing-pool/src/lib.rs:524-536 | Stores the feed for a signer. |
| FinancingPool.PoolConservation | contracts/financing-pool/src/lib.rs:205-389 | In every reachable state available = deposits - withdrawals - advances >= 0, all balances are non-negative, and their sum is available + 2 * advances. |
| FinancingPool.FundedAtMostOnce | contracts/financing-pool/src/lib.rs:336-389 | Each invoice is funded at most once, and its record stays as written for the rest of the run. |
| FinancingPoolHistory.ClaimsFollowHistory | contracts/financing-pool/src/lib.rs:205-389 | Over every run, for every account: its balance is its accepted deposits, less its accepted withdrawals, plus the advances whose recipient it is, each the floor of the discounted face value. |
| FinancingPoolHistory.StateIsTheLog | contracts/financing-pool/src/lib.rs:182-536 | Everything the pool stores follows from the log of accepted calls: claims, liquidity, discount, price feed, funding records and the access-control block. |
| FinancingPoolHistory.AnswersFollowTheLog | contracts/financing-pool/src/lib.rs:182-536 | Every entry point accepts, or refuses with which error, exactly as that log decides; an advance is granted only on a feed set for a time at most 100 ledgers ago. |
| FinancingPool.QuoteExact | contracts/financing-pool/src/lib.rs:395-401 | A quote succeeds exactly when face * (10000 - bps) fits, and is the floor of the kept share. |
| FinancingPool.DiscountRoundsUp | contracts/financing-pool/src/lib.rs:403-409 | Advance and discount split the face value, and the discount is the exact one rounded up. |
| FinancingPool.AdvanceMonotone | contracts/financing-pool/src/lib.rs:625-636 | A larger face value never gets a smaller advance. |
| FinancingPool.SplittingNeverGains | contracts/financing-pool/src/lib.rs:625-636 | Splitting a face value into n positive parts never gains and loses at most n - 1 units. |
| SettlementLedger.SettlementContract.SetInvoiceData | contracts/settlement/src/lib.rs:201-238 | (Re)registers an invoice with nothing paid. |
| SettlementLedger.SettlementContract.SetFeeRate | contracts/settlement/src/lib.rs:240-251 | Stores any u32 fee rate for a signer. |
| SettlementLedger.SettlementContract.SettleInvoice | contracts/settlement/src/lib.rs:433-536 | One payment: guard, nonce, bounds, fee split, books and status, or no change at all. |
| SettlementLedger.SettlementContract.WithdrawFees | contracts/settlement/src/lib.rs:367-400 | Moves an amount of either sign, as the code checks none, from collected to withdrawn fees; never more than there are. |
| SettlementLedger.SplitExact | contracts/settlement/src/lib.rs:475-482 | A payment that goes through charges exactly the floored fee. |
| SettlementLedger.LedgerAgrees | contracts/settlement/src/lib.rs:367-536 | Over every run and for every choice of nonce due dates: collected + withdrawn = fees charged; principal_paid = nets since the last registration; used nonces are those of the payments, in order, without repetition. |
| SettlementLedger.SettledMeansPaid | contracts/settlement/src/lib.rs:201-238 | With fee rates never above 10000, for every choice of due dates, an invoice registered with a positive amount is Settled if and only if principal_paid >= amount, in every reachable state. |
| SettlementLedger.RateAboveTotalBreaks | contracts/settlement/src/lib.rs:475-502 | For every rate above 100% a run that ends in a payment which lowers the principal and leaves the invoice Settled with less paid than its amount. |
| SettlementLedger.StatusCapExact | contracts/settlement/src/lib.rs:240-502 | In every run whose fee rates stay within a cap, Settled means paid in every reachable state, if and only if the cap is at most 10000 (status half of the documented settlement invariant 15). |
| SettlementLedger.PrincipalCapExact | contracts/settlement/src/lib.rs:240-502 | In every run whose fee rates stay within a cap, no payment lowers principal_paid, if and only if the cap is at most 10000 (monotone half of the same invariant). |
| SettlementLedger.FeesSolvent | contracts/settlement/src/lib.rs:367-400 | Over every run the collected fees are never negative, so signed withdrawals never add up to more than the fees charged (documented settlement invariant 16). |
| SettlementLedger.NegativeWithdrawalPays | contracts/settlement/src/lib.rs:367-400 | A run that pays out one unit although no fee was ever charged: a negative withdrawal refills the fees. |
| SettlementLedger.PayoutsCoveredExactly | contracts/settlement/src/lib.rs:367-400 | The payouts of every run stay within the fees charged if and only if no withdrawal may be negative. |
| SettlementLedgerHistory.StateIsTheLog | contracts/settlement/src/lib.rs:201-536 | Everything the ledger stores follows from the log of accepted calls: fee rate, fees collected and withdrawn, and every invoice's amount, principal, status and nonces. |
| SettlementLedgerHistory.AnswersFollowTheLog | contracts/settlement/src/lib.rs:201-536 | Every entry point accepts, or refuses with which error, exactly as that log decides; only a current signer registers, sets the rate or, while not paused, withdraws fees. |
| SettlementLedger.NonceAcceptedExactly | contracts/settlement/src/types.rs:81-110 | For every choice of due dates: after any run a nonce is accepted exactly if no payment on the invoice used it and the due date plus 2592000 seconds, saturating, is not past. |
| SettlementLedger.DeployedDeadline | contracts/settlement/src/types.rs:90-109 | As deployed, with no due date ever stored: accepted exactly if unused and the ledger time is at most 2592000. |
| SettlementLedger.NothingSettlesAfterGrace | contracts/settlement/src/types.rs:90-109 | Later, no settlement succeeds in any reachable state. |
| InvoiceToken.InvoiceContract.Mint | contracts/invoice/src/lib.rs:237-282 | Assigns the next id to a new pending invoice. |
| InvoiceToken.InvoiceContract.Fund | contracts/invoice/src/lib.rs:284-335 | Moves Pending to Funded and creates the token. |
| InvoiceToken.InvoiceContract.Approve | contracts/invoice/src/lib.rs:337-372 | Records one spender for a token's owner. |
| InvoiceToken.InvoiceContract.DoTransfer | contracts/invoice/src/lib.rs:611-638 | Moves ownership of a live invoice and drops its approval. |
| InvoiceToken.InvoiceContract.Transfer | contracts/invoice/src/lib.rs:374-388 | A transfer by the owner. |
| InvoiceToken.InvoiceContract.TransferFrom | contracts/invoice/src/lib.rs:390-420 | A transfer by the approved spender. |
| InvoiceToken.InvoiceContract.UpdateStatus | contracts/invoice/src/lib.rs:422-448 | Allowed transitions only. |
| InvoiceToken.MintedIdsAreDense | contracts/invoice/src/lib.rs:237-335 | In every reachable state, paused or not, minted ids are exactly 1..counter and tokens match amount and due date of their invoice. |
| InvoiceToken.NextMintIsFresh | contracts/invoice/src/lib.rs:237-282 | A mint that succeeds takes counter + 1, an id never used before. |
| InvoiceToken.TokenIffFunded | contracts/invoice/src/lib.rs:284-335 | A token exists if and only if its invoice was funded at some point of the run. |
| InvoiceToken.ApprovalIsFresh | contracts/invoice/src/lib.rs:337-420 | Every live approval was given by the present owner for that spender, and the invoice has not changed hands since. |
| InvoiceToken.InvoiceOverTime | contracts/invoice/src/lib.rs:593-638 | Terms never change, the status only moves forward, and a Settled invoice changes neither owner nor status. |
| InvoiceTokenHistory.StateIsTheLog | contracts/invoice/src/lib.rs:237-448 | Everything stored follows from the log of accepted calls: terms from the mint with that number, owner, status and approval from what followed, and the token with the rate it was funded at. |
| InvoiceTokenHistory.AnswersFollowTheLog | contracts/invoice/src/lib.rs:237-448 | Every entry point accepts, or refuses with which error, exactly as that log decides. |
| DecimalAmount.MatchesExactly | backend/src/compliance/amount.ts:28-34 | The pattern accepts exactly the written decimals and reads back what was written. |
| DecimalAmount.PrintThenParse | backend/src/compliance/amount.ts:14-43 | Parsing the print of any integer at any precision gives it back. |
| DecimalAmount.ParseThenPrint | backend/src/compliance/amount.ts:14-43 | Printing a parsed amount yields its canonical text: the only canonical text of that amount. |
| DecimalAmount.AsyncThresholdIsInline | backend/src/compliance/compliance.service.ts:75-78 | A queued export filters with the same threshold as the inline one. |
| DecimalParsing.ParseExactly | backend/src/compliance/amount.ts:28-44 | Every decimal between white space parses to the number it denotes in positional notation, missing fraction digits read as zeros, or is refused as too precise. |
| DecimalParsing.MalformedExactly | backend/src/compliance/amount.ts:28-34 | Every other text, and no other, is malformed. |
| Csv.ScanCell | backend/src/compliance/csv.ts:9-18 | Reading one written cell recovers its text, commas, quotes, CR and LF included. |
| Csv.NoColumns | backend/src/compliance/csv.ts:24-30 | With no columns the output does not read back as the table. |
| Csv.QuotedExactly | backend/src/compliance/csv.ts:9-18 | A cell is written as it is exactly if it holds no comma, quote, CR or LF; otherwise between quotes, one longer for every quote in it. |
| Csv.CsvRoundTrip | backend/src/compliance/csv.ts:9-30 | A strict reader per section 2 of RFC 4180, with CRLF only between records, recovers header and every cell of the output if and only if there is at least one column. |
| Csv.EndedRoundTrip | backend/src/compliance/csv.ts:9-30 | With a reader that accepts the optional ending break (rule 2 of that section), the round trip holds exactly if there is a column and the output is not a one-column table with an empty last cell, of which just that record is lost. |
| CircuitBreaker.CircuitBreakerService.Enter | backend/src/common/circuit-breaker.service.ts:43-75 | Admission: what happens to the circuit before fn starts, and whether it starts. |
| CircuitBreaker.CircuitBreakerService.Resolve | backend/src/common/circuit-breaker.service.ts:77-96 | Bookkeeping after success. |
| CircuitBreaker.CircuitBreakerService.Reject | backend/src/common/circuit-breaker.service.ts:97-136 | Bookkeeping after a failure, stale or not. |
| CircuitBreaker.CircuitBreakerService.ResetCircuit | backend/src/common/circuit-breaker.service.ts:143-151 | A manual reset gives a new closed circuit. |
| CircuitBreaker.ClosedRefinesHistory | backend/src/common/circuit-breaker.service.ts:77-136 | In CLOSED the two counters are the failure streaks of the history, below their thresholds. |
| CircuitBreaker.OpensExactlyAtThreshold | backend/src/common/circuit-breaker.service.ts:97-132 | CLOSED opens exactly on the failure that completes a general or a consecutive-staleness streak. |
| CircuitBreaker.HalfOpenRefinesHistory | backend/src/common/circuit-breaker.service.ts:63-92 | In HALF_OPEN the counter is the number of successes since the probe, and nothing failed in between. |
| CircuitBreaker.ClosesAfterSuccesses | backend/src/common/circuit-breaker.service.ts:80-132 | HALF_OPEN closes exactly on the threshold-th success since the probe (or a reset) and opens on any failure. |
| CircuitBreaker.OpenSince | backend/src/common/circuit-breaker.service.ts:97-132 | While OPEN, the next attempt is due exactly the timeout after the failure that opened the circuit. |
| CircuitBreaker.RefusedUntilTimeout | backend/src/common/circuit-breaker.service.ts:55-75 | No fn starts while OPEN before that time, and from then on the first call is let through. |
| CircuitBreaker.AdmitsExactly | backend/src/common/circuit-breaker.service.ts:55-75 | After any history a call starts fn exactly if the circuit is CLOSED or HALF_OPEN, or OPEN and the reset timeout has passed since the failure that opened it. |
| CircuitBreaker.OpenEndsExactly | backend/src/common/circuit-breaker.service.ts:55-151 | OPEN ends only by a reset, which closes it, or by a call that comes that late, which probes. |

## Left out

- SettlementCursorExact.SeededCursorExact: stated, like the three results beside it, for maxAttempts >= 1, because with no attempt at all every settlement gives up at once; the safe direction is proved for any value.
- RateLimiter.AdmittedAfterReset: needs maxRequests >= 1, because with a limit of zero nothing is ever admitted.
- WebhookQueue.TerminalIsFinal: needs every attempt to end within the stuck limit; `RewritesIffLate` and `DeliveredRowReopened` show what happens without.
- InvoiceToken.MintedIdsAreDense: runs shorter than 2^64 calls; at 2^64 mints the code's `as u64` wraps the counter, as the model does, and ids start over.
- User interface, controllers, request parsing, wallets, email, notifications, Vault, Soroban RPC and XDR decoding: input and output only.
- Cryptography: body hashes are opaque strings that are only compared; hash collisions, signatures and JSON canonicalization are not modelled.
- Rate limiter on a Redis outage: a check that gets no answer is let through and not counted, so the bound is about answered checks; an answer lost after the script ran is not modelled, and one clock for all processes and unique members are assumed.
- InvoiceTokenHistory.StateIsTheLog: runs shorter than 2^64 calls, for the same reason as `MintedIdsAreDense`; `AnswersFollowTheLog` beside it likewise.
- CircuitBreaker.AdmitsExactly: completions at positive times, because `nextAttemptTime` 0 reads as unset.
- CircuitBreaker.OpenEndsExactly: likewise.
- Idempotency cleanup jobs and row expiry: results hold while the row exists; distinct cache lifetimes are covered by evictions at any time.
- `request.path` and `lockOwner` of an idempotency row: stored and logged, never decided on.
- On-chain funding calls of the backend: an outcome per request; that the call reaches the pool's `fund_invoice` with its arguments is not part of this model.
- Settlement sync: one poller per database is assumed (the `running` flag is per process); every fetch is complete, ordered by ledger, and taken at one tip; backoff delays, gap counting and `applyEventAtomically`, which nothing calls, are omitted.
- The transaction hash of a settlement audit row: `settleInvoiceWithTx` names a variable that is not among its parameters, so its value is not part of this model.
- The settlement event parser: an event arrives as its ledger and, when it is a settlement, its invoice id.
- Webhook queue: SQL row locks are one atomic step per row, and one database clock is used for claims and for retries; HTTP status, error text and the attempt log are omitted.
- Pool oracle discount (contracts/financing-pool/src/lib.rs:463-513 and 641-690): it uses a storage key that is not declared, and `advance_for` never calls it.
- Tokens and cross-contract calls: the pool and the settlement ledger keep claims; no token contract is part of this model, and no call re-enters.
- Settlement authorisations, attestations, payer and financier lists: stored flags that no payment reads.
- Access-control pass-through entry points of pool, settlement and invoice contracts: modelled as one call `Administer` in their specifications, not as methods of their classes.
- Events, logging, storage lifetimes and upgrades.
- Integer widths of nonces, invoice ids, ledger numbers and timestamps: unbounded naturals, except where a bound matters (u32 timelock, the u64 invoice counter, i128 amounts).
- `financial-calculations.ts`, `anomaly-detector.service.ts`: floating-point statistics.
- `investor-report.ts`, `fatf.ts`, the oracle monitor: read-only reporting over stored rows; they change no state and nothing modelled here reads their results.
- CSV text beyond strings, numbers and null: values arrive as text or null, and the reader takes any character but comma, quote, CR and LF as plain text, which is wider than TEXTDATA in RFC 4180.
- Circuit breaker `fallback` and the last failure time: they decide nothing.
