# Proxy-in-a-Box: verified model

Proxy-in-a-Box keeps a pool of public HTTP and SOCKS proxies. Sources list candidates, validators check them
under concurrency and rate limits, healthy endpoints go into an in-memory pool backed by SQLite, and client
requests are scheduled over that pool with retries. This project models the state machines around the network
calls and proves what they keep, over every operation, every run and every interleaving.

| file | what it is about |
|---|---|
| `Proxies.dfy` | records and their printed form |
| `PoolStore.dfy`, `PoolView.dfy`, `PoolPreserved.dfy`, `PoolRuns.dfy`, `PoolFaults.dfy`, `PoolSafety.dfy` | the pool store over its two tables: what each operation does, the invariant that memory is an exact view of the database, runs with restarts and with failing database calls, locks, failure counts and recovery |
| `PoolEffects.dfy`, `RowHistory.dfy` | what each operation writes, field by field; what the row of an endpoint says after any run, and so when it is due |
| `Maintenance.dfy` | the periodic-check queries |
| `Scheduler.dfy`, `SchedulerRuns.dfy` | choosing an upstream, the per-domain window, circuits, the sweeper, runs |
| `ServiceRuns.dfy` | runs of everything together: pool operations, restarts, picks, turns, circuits and sweeps |
| `MemCache.dfy` | the cache object (module `Caching`), changing its fields and the tables in place, each method proved equal to a function of the files above |
| `RateLimiter.dfy` | the token bucket (module `RateLimiting`) |
| `Pipeline.dfy`, `PipelineRuns.dfy` | sources, validators and routine checks as an interleaved step machine |
| `Conversation.dfy`, `Upstream.dfy`, `RetryWithCache.dfy` | what a request asks and reports, in order; its attempts and counters; the same over the real scheduler |
| `EventSums.dfy`, `RateWindow.dfy`, `CheckRing.dfy` | sixty-slot rings against the full event log |
| `Admission.dfy`, `FailureCache.dfy` | candidate limits per fetch; backoff of failed candidates |
| `TextSource.dfy`, `JsonSource.dfy` | list parsers |
| `Migration.dfy`, `FirstStart.dfy` | the legacy-row migration; the first start on the tables it leaves |

How the model is set up:

- Time is nanoseconds since the zero time, passed to every operation; clocks never go back. Each cache operation
  reads the clock once and is one atomic step, as every writer holds `failureMu` for its whole body.
- Database calls answer as the `Faults` parameter says: the read, the row write, and the write of the
  `blocked_ips` table can fail one by one. Exactness is proved for a reliable database, inclusion for any faults.
- The tables are finite maps with the unique index over address, port and protocol. Row ids start at 1 and are
  never reused; stored protocols are not empty; protocols and ports hold no colon, so the printed form determines
  the endpoint (`Proxies.UriInjective`).
- A run starts from tables in which no available row is under an unexpired lock or ahead of a retry time
  (`TablesOK`). The tables a migration leaves are such tables (`FirstStart.MigratedTablesOK`).
- A cleanup removes rows but not their retry times (service/memcache.go:565-591), so memory may go on refusing an
  endpoint that a fresh process would accept. Pool, index and locks stay exact in every run all the same
  (`PoolRuns.RunPool`); the retry times are exact again once the latest forgotten one has passed (`PoolRuns.RunExact`).
  It does happen: the 30-minute delays a migration sets meet the cleanup of the same start
  (cmd/proxy-in-a-box/main.go:336-342), see `FirstStart.StartupCleanupDisagrees`. With bounded delays and thresholds
  of a day or more it does not (`PoolSafety.LongCleanupsStayExact`).
- A missing `next_verify_at` reads as the zero time in the cache and is never due in the periodic query.
- A candidate comes without an id. The record a routine check carries was read from the table earlier;
  `PoolSafety.SnapshotStaysGood` proves that this is all the pool needs to know about it; in runs with failing calls it is derived from the earlier read.
- Network outcomes, scheduler answers, URL parsing and database order are arbitrary.
- Where behaviour is subtle the code is followed: the sweeper deletes through the slice header it started with
  (service/memcache.go:152-156) and leaves copies of the last entry; a late record wipes a newer minute's bucket
  (crawler/verification_stats.go:76-79); a job taken between two releases is skipped and its key stays behind
  (crawler/crawler.go:191-201). For each of these the exact condition is proved.

## Model

| member | source | states |
|---|---|---|
| Proxies.UriInjective | proxy.go:43-49 | the printed form of a well-formed endpoint determines scheme, address and port |
| PoolEffects.CandidateIsStored | service/memcache.go:334-366 | an accepted candidate is stored under its own protocol (http if it has none) with its own fields, available, without failures, free to be checked: in the row of its endpoint, or a new one; it is cached last and unused, its address starts afresh, and every other row stays |
| PoolEffects.CandidateIsRefused | service/memcache.go:330-332 | a candidate is refused exactly while its address is locked, and then nothing changes |
| PoolEffects.PassIsStored | service/memcache.go:383-405 | a passed check stores the measured delay and the time of the check, resets failures and retry time, moves the last deep check iff it was one, and the row is due again exactly when the interval after the check is over |
| PoolEffects.PassIsCached | service/memcache.go:406-431 | its cached record follows in place with its use count, or comes last and unused |
| PoolEffects.FailureWaits | service/memcache.go:434-469 | a failed check raises the count by one and makes the endpoint wait 30 minutes, 2, 6 and then 24 hours from now: until then neither the periodic query nor a source brings it back |
| PoolEffects.RefusalWaits | service/memcache.go:471-515 | the same for an endpoint that refuses; a refusal of one that is not cached changes nothing |
| PoolEffects.AddressFails | service/memcache.go:517-542 | a failure of an address is counted; the third and later ones lock it for six hours from now and take down exactly its rows and entries |
| PoolEffects.CleanupRemoves | service/memcache.go:565-591 | a cleanup removes exactly the rows once checked but not since the threshold, with their entries |
| PoolEffects.StartKnows | service/memcache.go:107-133 | on any tables, failing writes before included, a process that starts caches exactly the available rows of unlocked addresses, and knows exactly the unexpired locks and the retry times to come |
| PoolEffects.FailedWriteChangesNothing | service/memcache.go:321-515 | when the row cannot be written nothing else is |
| PoolPreserved.UpsertExact | service/memcache.go:321-368 | accepting a candidate keeps memory as exact a view of the tables as it was (exact, or exact but for retry times up to some time), and succeeds iff the address is not locked |
| PoolPreserved.VerifySuccessExact | service/memcache.go:370-432 | a passed routine check, refreshing or reloading its record, keeps the view as exact |
| PoolPreserved.QuarantineExact | service/memcache.go:434-515 | taking an endpoint out of service with its retry time keeps the view as exact |
| PoolPreserved.FailureExact | service/memcache.go:517-542 | counting a failure, and locking the address with all its endpoints, keeps the view as exact |
| PoolPreserved.CleanupExact | service/memcache.go:565-591 | removing stale rows keeps the view exact beyond a time if and only if none of them was waiting for a later retry; everything but the retry times stays exact for any threshold |
| PoolPreserved.CleanupRetries | service/memcache.go:565-591 | retry times in memory and in the table agree afterwards under exactly that condition |
| PoolPreserved.StartExact | service/memcache.go:107-133 | a process started on good tables begins with an exact view |
| PoolPreserved.RestartInvisible | service/memcache.go:107-133 | a restart caches the same endpoints and gives the same answer about every lock from then on; about retry times the old process is at most the stricter one, and only up to the latest forgotten time; the new one is an exact view |
| PoolRuns.RunPool | service/memcache.go:321-619 | in every state of every run, any cleanups, restarts and picks included, pool, index and locks are exact |
| PoolRuns.RunExact | service/memcache.go:321-619 | so are the retry times but for those up to the latest one a cleanup forgot since the last restart: once it has passed the whole view is exact again |
| PoolRuns.PoolMatchesTables | service/memcache.go:217-227 | between operations of any run: pool endpoints = index = endpoints of available rows, each once, records equal to rows; a fresh process caches the same endpoints and answers the same about locks |
| PoolRuns.RetriesMatchTables | service/memcache.go:217-227 | whatever a fresh process refuses to check again the running one refuses too, and once the forgotten times have passed the two answer alike |
| PoolRuns.AnyFaultsIncluded | service/memcache.go:321-591 | whatever database calls fail, one operation keeps the pool within the available rows |
| PoolFaults.FaultyRunIncluded | service/memcache.go:321-591 | the same over whole runs with failing calls and any cleanups, where checked records are those read earlier; and no row changes endpoint |
| PoolRuns.ReloadFaultLosesRow | service/memcache.go:422-431 | inclusion is all that survives: a failed reload leaves an available row out of the pool, a working one does not |
| PoolSafety.LockTakesEffect | service/memcache.go:517-542 | a locking failure blocks the address for six hours in memory and table and takes all its endpoints out |
| PoolSafety.LockHolds | service/memcache.go:517-563 | until then no operation of any kind and no restart puts an endpoint of the address in the pool, makes its row available or lifts the lock |
| PoolSafety.CountIsFailuresSince | service/memcache.go:517-542 | the stored count is the failures since the last acceptance, and a failure locks exactly when it reaches three |
| RowHistory.RowTellsItsHistory | service/memcache.go:321-515 | in every state of a run a row's failures, delay, last checks and retry time are what its acceptances, checks and refusals make of those it began with |
| RowHistory.DueByHistory | service/proxy.go:58-73 | so the verifier gets it exactly while its address is not locked and its last check is longer ago than the interval or, if it is quarantined, the wait after its failures is over |
| RowHistory.FailuresAddUp | service/memcache.go:434-515 | while it is not accepted again a row's failures add up, one each |
| RowHistory.TimePresentWhen | service/memcache.go:321-515 | in every state of a run a row has a retry time iff it began with one or has since been accepted, passed, failed or refused |
| PoolSafety.QuarantineIsBounded | service/proxy.go:58-73 | in every state of a run a quarantined row is returned exactly from a time at most 24 hours after it or its address last failed if it has a retry time, and never if it has none |
| PoolSafety.SnapshotStaysGood | crawler/verify.go:120-144 | a row never changes endpoint and ids are not reused, so a record read for checking still names its row later |
| PoolSafety.LongCleanupsStayExact | service/memcache.go:565-591 | in a run that began with bounded delays and whose cleanups spare a day or more, every state is an exact view once the exceptional delays are over |
| FirstStart.MigratedTablesOK | proxyinabox.go:141-165 | a migration leaves good tables, and delays bounded but for those it set itself |
| FirstStart.MigratedStartExact | proxyinabox.go:83-95 | the process that migrated them starts with an exact view |
| FirstStart.StartupCleanupDisagrees | proxyinabox.go:147-156 | a quarantined row older than the stale threshold is delayed by the migration and removed by the cleanup of the same start: this process refuses its endpoint until exactly 30 minutes after the migration, a fresh one never |
| FirstStart.StartupCleanupExample | proxyinabox.go:147-156 | one legacy row, the process opened on it and one started after its cleanup, of which the first refuses and the second accepts the endpoint |
| FirstStart.FirstStartSettles | cmd/proxy-in-a-box/main.go:336-342 | any run of the process that migrated the tables, with cleanups of a day or more, has its pool and locks exact from the start and its whole view from 30 minutes on |
| FirstStart.LockedBeforeItsCheck | service/proxy.go:58-73 | a migrated available row whose address fails three times before its next check is taken down without a retry time, and no periodic query ever returns it again |
| Maintenance.RefreshAgrees | service/proxy.go:75-89 | the single-row query agrees with membership in the list query |
| Maintenance.DueCountsAddUp | service/proxy.go:34-73 | the two due counts add up to the length of the list |
| Maintenance.WaitingCount | service/proxy.go:49-54 | the waiting count is the quarantined rows whose delay or lock is not over, or that have no retry time |
| Maintenance.DueExactlyFrom | service/proxy.go:58-73 | a quarantined row with a retry time is due from the later of its delay and its address's lock, and not before; one without is never due |
| Maintenance.HealthyDueExactly | service/proxy.go:58-73 | an available row is returned exactly while its last check is longer ago than the interval and its address is not under an unexpired lock |
| Maintenance.HealthyDueCount | service/proxy.go:39-43 | the healthy due count is the number of available rows returned |
| Scheduler.PickChooses | service/memcache.go:239-295 | a pick fails iff nothing is eligible, else takes the leftmost least-used eligible entry and uses it once more |
| Scheduler.PickBalances | service/memcache.go:239-295 | a pick adds one use; with nothing excluded the spread of use counts never grows beyond one or what it was |
| Scheduler.TurnIsRotation | service/memcache.go:190-202 | the first round-robin call serves the cursor's position, or the first if that is past the end, and the k-th the k-th after it, modulo the length |
| Scheduler.RoundRobinServesEach | service/memcache.go:190-202 | the positions served by len consecutive calls are all positions, each once, from any cursor |
| ServiceRuns.TurnsServeEachOnce | service/memcache.go:190-202 | in a run, as many turns as the pool has entries hand out each URI of the pool exactly once, whatever picks, failures and sweeps come between |
| ServiceRuns.RunProjects | service/memcache.go:239-295 | a run with picks, turns, circuits and sweeps is for the pool a run of pool operations, and pool, index and locks are exact in each of its states |
| ServiceRuns.ServedIsHealthy | service/memcache.go:190-295 | whatever a pick or a turn hands out is the record of an available row whose address is not locked |
| ServiceRuns.NeverServesLocked | service/memcache.go:517-542 | from a locking failure until six hours later nothing of the address is handed out, restarts included |
| ServiceRuns.PicksAreApart | service/memcache.go:239-295 | in such runs no domain gets an address twice at seconds less than three apart while the process lives |
| SchedulerRuns.SweepKeepsExcluded | service/memcache.go:144-161 | the aliasing sweep never changes which addresses a list excludes, then or later |
| SchedulerRuns.SweepKeepsFresh | service/memcache.go:144-161 | it drops no entry that is not expired and invents none |
| SchedulerRuns.SweepIsExactWhen | service/memcache.go:144-161 | it leaves exactly the unexpired entries if and only if at most one is expired |
| SchedulerRuns.SweepCleansWhen | service/memcache.go:144-161 | it leaves no expired entry if and only if at most one is, or the last is not |
| SchedulerRuns.SweepForgets | service/memcache.go:135-177 | a sweep reaches every list and circuit: exactly the open circuits are left, with their times, and nothing empty |
| SchedulerRuns.PickForgets | service/memcache.go:255-281 | a pick keeps, for its domain alone, exactly the open circuits and what is in the window, and adds what it gives |
| SchedulerRuns.SweepsInvisible | service/memcache.go:135-177 | a run and the run without its sweeps exclude the same addresses and endpoints ever after |
| SchedulerRuns.SweepsNeverChangeAPick | service/memcache.go:135-177 | hence every pick chooses the same entry and leaves the same pool |
| SchedulerRuns.PicksAreSpaced | service/memcache.go:239-295 | over runs of picks, failures and sweeps on any pools no domain gets an address twice at seconds less than three apart, so never within two seconds |
| SchedulerRuns.WithheldExactly | service/memcache.go:257-264 | an address is withheld from a domain exactly for the three seconds after it was given to it |
| SchedulerRuns.WithheldInTime | service/memcache.go:257-264 | in real time: within two seconds of being given, and never after three |
| SchedulerRuns.SkippedExactly | service/memcache.go:266-274 | a circuit is open exactly until the time set by its last failure, whatever picks, sweeps and other failures happen |
| RetryWithCache.CircuitStaysOpen | service/memcache.go:297-317 | an open circuit stays open for its time whatever picks, sweeps and further failures happen |
| RetryWithCache.NeverOfferedAgain | mitm/dump.go:114-156 | a request whose questions follow its reports is not offered a proxy again while circuits outlast it |
| RetryWithCache.EveryOfferIsAnAttempt | mitm/mitm.go:163-181 | over the real scheduler every question of a request for a named host brings an attempt on a new proxy, but a final refused one: scheduler calls = attempts, or one more |
| Caching.MemCache.constructor | service/memcache.go:83-133 | the cache built is a fresh one over the tables, locks still unknown |
| Caching.MemCache.LoadLockedIPs | service/memcache.go:554-563 | adds exactly the unexpired locks |
| Caching.Start | service/memcache.go:83-133 | building and loading the locks gives a fresh cache over unchanged tables |
| Caching.MemCache.GetProxy | service/memcache.go:190-202 | serves and moves the cursor as the round robin says, nothing else |
| Caching.MemCache.HasProxy | service/memcache.go:210-215 | true iff a pool entry prints so, and, where the pool is exact, iff an available row does |
| Caching.MemCache.IsProxyValidationDue | service/memcache.go:217-227 | answers from the retry table and forgets a time that has passed |
| Caching.MemCache.IsIPLocked | service/memcache.go:544-552 | answers from the lock table and forgets an expired lock |
| Caching.MemCache.UpsertProxy | service/memcache.go:321-368 | new state and result are those of `Upsert` for any faults |
| Caching.MemCache.MarkVerifySuccess | service/memcache.go:370-432 | new state is that of `VerifySuccess` for any faults |
| Caching.MemCache.MarkVerifyFailed | service/memcache.go:434-469 | new state and count are those of `VerifyFailed` for any faults |
| Caching.MemCache.MarkProxyUnavailable | service/memcache.go:471-515 | new state is that of `ProxyUnavailable` for any faults |
| Caching.MemCache.RecordFailure | service/memcache.go:517-542 | new state and lock decision are those of `Failure` for any faults |
| Caching.MemCache.CleanupStaleProxies | service/memcache.go:565-591 | new state is that of `Cleanup` for any faults |
| Caching.MemCache.RemoveByURI | service/memcache.go:606-614 | the backward delete loop drops exactly the entries printing so |
| Caching.MemCache.RemoveByIP | service/memcache.go:595-604 | the backward delete loop drops exactly the entries of the address and their index keys |
| Caching.MemCache.PickProxy | service/memcache.go:239-295 | sorting a copy and scanning it gives the choice, the use count and the scheduling of `Pick` |
| Caching.MemCache.MarkProxyTargetFailure | service/memcache.go:297-317 | opens the circuit for the configured time, unless endpoint or target is empty |
| Caching.MemCache.GC | service/memcache.go:135-177 | leaves exactly what `Sweep` says |
| Caching.MemCache.SweepSlice | service/memcache.go:144-161 | deleting through the stale header leaves the kept entries and copies of the last |
| RateLimiting.AttemptRateLimiter.Reserve | crawler/rate_limit.go:31-54 | updates tokens and time, and waits, as `Reserved` |
| RateLimiting.ConfiguredValidationRate | crawler/verify.go:38-52 | burst and rate are clamped so that 1 <= burst <= rate <= 1000 |
| RateLimiting.ConfiguredRates | crawler/verify.go:38-52 | settings in range are taken as they are; the defaults are 50 a second and a burst of 20, or what the rate allows |
| RateLimiting.ConfiguredIsValid | crawler/verify.go:102-107 | whatever is configured, the limiter starts in the state the run theorems ask for |
| RateLimiting.WaitIsNearest | crawler/rate_limit.go:50 | the rounded wait loses at most half a nanosecond's worth of tokens |
| RateLimiting.OneReservation | crawler/rate_limit.go:31-54 | one call keeps tokens within the burst and grants in order, and accounts for the token, the elapsed time and the rounding |
| RateLimiting.TokensComeBack | crawler/rate_limit.go:36-53 | a call that finds a whole token among those left and those earned since, up to the burst, goes at once and takes just one; any other takes what there is and goes once the rest is earned, but for rounding |
| RateLimiting.WaitIsNoLonger | crawler/rate_limit.go:50 | the rounded wait asks for no more than the missing tokens and half a nanosecond's worth |
| RateLimiting.GrantsArePrompt | crawler/rate_limit.go:28-54 | every grant of a run is at its call, or at most one token's time after the grant before |
| RateLimiting.IdleRestoresBurst | crawler/rate_limit.go:42 | after an idle time that pays for the burst, as many calls as the burst go at once |
| RateLimiting.GrantsInOrder | crawler/rate_limit.go:28-54 | grant times never decrease over a run |
| RateLimiting.RateIsKept | crawler/rate_limit.go:31-54 | between grants i and j: (j-i)(1 - rate/2e9) <= burst - 1 + rate (g_j - g_i) |
| RateLimiting.SimultaneousWaits | crawler/rate_limit.go:28-54 | the k-th of simultaneous calls on a fresh limiter waits max(0, k - burst) rounded token times |
| Pipeline.ConfiguredReserved | crawler/verify.go:54-66 | some worker is always left for candidates, and with two or more some for routine checks |
| Pipeline.ConfiguredShares | crawler/verify.go:54-66 | settings in range are taken as they are; a fifth of the workers is kept back by default |
| Pipeline.ConfiguredStartOK | crawler/verify.go:96-118 | whatever is configured, the initial state satisfies the invariant |
| Pipeline.StepKeeps | crawler/crawler.go:184-229 | every step of every thread keeps it |
| PipelineRuns.KeysAreAccounted | crawler/candidate_admission.go:177-184 | in any interleaving each key has one holder, keys = pushes + jobs + validators + dropped, and the counter differs only by threads between its two updates |
| PipelineRuns.ReleasesOwnKey | crawler/crawler.go:195-201 | a validator releases only the key it owns |
| PipelineRuns.SlotsAreBounded | crawler/verify.go:68-94 | candidate plus routine checks <= workers, candidates <= workers - reserved, reserved routine checks never wait, releases never block |
| PipelineRuns.NeverStuck | crawler/crawler.go:222-229 | no reachable state with work left is deadlocked |
| PipelineRuns.BlockedExactlyWhen | crawler/verify.go:68-118 | a thread waits only for what is used up: a full channel, all candidate slots held by other validators, or all validation slots held |
| PipelineRuns.FirstInFirstOut | crawler/crawler.go:184-191 | jobs are taken in the order they were sent, in any interleaving |
| PipelineRuns.RowsInOrder | crawler/verify.go:120-214 | and rows are checked in the order the periodic pass queued them |
| PipelineRuns.WorkDrains | crawler/verify.go:151-214 | taking up nothing new, every run ends within a computed number of steps, with every thread at rest |
| PipelineRuns.AtRestOnlyDroppedRemain | crawler/crawler.go:195-201 | at rest all slots and keys are free but the dropped ones |
| PipelineRuns.DroppedExactlyWhen | crawler/crawler.go:191-201 | a job is dropped iff another validator is between the two releases of its key |
| PipelineRuns.DroppedForever | crawler/candidate_admission.go:177-181 | a dropped key is never released, so its candidate is never validated again |
| PipelineRuns.DropIsReachable | crawler/crawler.go:184-201 | two workers can reach such a state |
| Upstream.Gateway.NextProxy | mitm/mitm.go:163-181 | asks in order until an offer is new, at most twice the attempt limit of times; all earlier answers repeat tried proxies, or one of three reasons to give up |
| Upstream.Gateway.ReplayRequest | mitm/dump.go:106-159 | attempts are the distinct offers in order, at most the limit, or one for a request with a body or with a method other than GET, HEAD, OPTIONS and TRACE; the request is answered iff its last attempt went through a dialable upstream and brought a response other than 407, and by no earlier one; exactly the 407s are reported against the proxy, and every attempt but the answer against the target, before the next question; ending early has a reason |
| Upstream.Gateway.Connect | mitm/mitm.go:290-338 | the same for tunnels: connected iff the last dial was, and reported against the proxy iff its CONNECT was refused |
| Upstream.AttemptsAreCounted | mitm/dump.go:129-150 | each attempt is counted once under its protocol, and as failed unless it was the answer |
| Upstream.Gateway.TunnelHTTPS | mitm/mitm.go:274-357 | on every path each protocol's total equals successes plus failures, only the one that connected has a success, and only if the client's connection was taken over, and one global outcome is counted |
| Upstream.Gateway.Dump | mitm/dump.go:20-104 | the same for plain requests; the guard on an empty scheme leaves nothing out |
| Upstream.Round | mitm/dump.go:114-156 | one round of questions, attempt and report keeps the conversation in order |
| Upstream.Gateway.Serve | mitm/mitm.go:211-230 | one request adds one to the total and keeps every protocol balanced; globally balanced iff it is not a decrypted connection |
| Upstream.ReplayBalance | mitm/dump.go:129-155 | any list of attempts of which only the last succeeded is balanced but for that one's total |
| Upstream.FinishedRequestsBalance | mitm/request_stats.go:12-46 | however increments of finished requests interleave, the counters are balanced |
| RateWindow.RingIsExact | crawler/runtime_stats.go:105-119 | each bucket holds the log's totals of the newest second of its slot, for records in any order |
| RateWindow.SnapshotIsTheLog | crawler/runtime_stats.go:121-147 | sums and peak are those of the last sixty seconds of the full log |
| RateWindow.LastSecondIsTheLog | crawler/runtime_stats.go:140-142 | the last-second figure is the log's at every second but Unix second 1 |
| RateWindow.NetworkRateWindow.Record | crawler/runtime_stats.go:105-119 | the buckets in place stay the ring of the log |
| RateWindow.NetworkRateWindow.TakeSnapshot | crawler/runtime_stats.go:121-147 | the loop computes the log's sums |
| CheckRing.SnapshotTellsExactlyWhen | crawler/verification_stats.go:92-107 | for any log, a snapshot gives the log's counts of its sixty minutes iff none of their records was followed, in its slot, by one of an earlier minute |
| CheckRing.RingTellsLogExactlyWhen | crawler/verification_stats.go:72-107 | for any log, all snapshots to come are exact iff no record within the hour of the latest was overtaken so |
| CheckRing.RecordTellsLogExactlyWhen | crawler/verification_stats.go:72-79 | one record keeps them exact iff it does not find a newer bucket that is still within the hour |
| CheckRing.OnTimeTellsLog | crawler/verification_stats.go:72-107 | with no record sixty minutes late every snapshot is exact |
| CheckRing.LateRecordWipes | crawler/verification_stats.go:76-79 | any check recorded right after one of an hour later wipes it |
| CheckRing.VerificationCounters.Record | crawler/verification_stats.go:46-90 | every check is counted under its kind, in the totals of the whole log and in the ring |
| CheckRing.VerificationCounters.RecentSnapshot | crawler/verification_stats.go:92-107 | the loop computes the log's counts iff no record of the hour was overtaken |
| Admission.SourceCandidateCounter.RecordResult | crawler/candidate_admission.go:126-146 | ring, counts and index are those of the last min(256, n) outcomes of the history |
| Admission.SourceCandidateCounter.CurrentLimit | crawler/candidate_admission.go:63-80 | the limit is a function of those outcomes |
| Admission.SourceCandidateCounter.Enqueue | crawler/candidate_admission.go:148-187 | a fetch pushes the first admissible candidates up to the limit, stops there, and counts every candidate once |
| Admission.LimitInRange | crawler/candidate_admission.go:63-80 | between 1 and the configured limit |
| Admission.LimitIsMonotone | crawler/candidate_admission.go:63-80 | never falls with more successes |
| Admission.LimitForgets | crawler/candidate_admission.go:126-146 | nothing before the last 256 outcomes matters |
| Admission.ThreeSuccessesRestore | crawler/candidate_admission.go:63-80 | three successes restore the full limit from any history |
| Admission.TwoMayNotRestore | crawler/candidate_admission.go:63-80 | two after 256 failures leave half |
| Admission.LimitAfterFailures | crawler/candidate_admission.go:63-80 | n failures and nothing else leave the full limit up to 99 and an eighth of it from 100 on |
| Admission.LimitBySuccesses | crawler/candidate_admission.go:63-80 | from 100 outcomes on, three successes among the last 256 always keep the full limit, none leave an eighth, and one or two a half or a quarter by how many outcomes there are |
| Admission.AdmittedInTurn | crawler/candidate_admission.go:148-187 | each admissible candidate is pushed in its turn as it came, its address trimmed and a missing source filled in |
| Admission.CountsAre | crawler/candidate_admission.go:163-186 | the numbers of admitted, filtered and duplicate candidates are those of the verdicts on them |
| Admission.ClearedAre | crawler/candidate_admission.go:166-172 | the endpoints whose failure history is cleared are exactly those found in the pool |
| FailureCache.LaddersAgree | crawler/validation_policy.go:17-22 | the candidates' ladder and the pool's agree on every count |
| FailureCache.FailuresClimb | crawler/validation_policy.go:78-98 | the n-th failure in a row makes an endpoint wait 30 minutes, 2, 6 and then 24 hours, whatever happens to others |
| FailureCache.FailureClimbs | crawler/validation_policy.go:78-98 | one failure raises the count by one, or to the minimum asked for, and sets the wait of that count |
| FailureCache.PruneForgets | crawler/validation_policy.go:106-114 | pruning forgets exactly what failed last seven days ago or more |
| FailureCache.FailuresAreSpaced | crawler/validation_policy.go:68-114 | failures recorded when due: the N-th comes at least 24h (N-4) after the first, for any minimum counts and prunes |
| FailureCache.PruneIsInvisible | crawler/validation_policy.go:106-114 | in every reachable state pruning never changes when an endpoint is due |
| FailureCache.CandidateFailureCache.RecordFailure | crawler/validation_policy.go:78-98 | new entry and retry time, between 30 minutes and a day ahead |
| FailureCache.CandidateFailureCache.Prune | crawler/validation_policy.go:106-114 | keeps exactly the entries younger than seven days |
| TextSource.ParseTextResponse | crawler/source.go:233-262 | the loop lists what each line parses to, in order |
| TextSource.SplitRecovers | crawler/source.go:250-253 | splitting host and port undoes joining them |
| TextSource.BracketsAreTakenOff | crawler/source.go:250-253 | a bracketed host may hold colons |
| TextSource.ColonsAreCounted | crawler/source.go:250-253 | without brackets a second colon, or none, is an error |
| TextSource.PlainLineRecovers | crawler/source.go:236-259 | a line of an address and a port, whatever follows a space, lists them under the source's protocol |
| TextSource.SchemeIsLowered | crawler/source.go:245-248 | a line with a scheme in any case lists its endpoint under the scheme in lower case |
| TextSource.TrimSpaceRecovers | crawler/source.go:236 | trimming takes off all white space at both ends and nothing else |
| TextSource.ListingRoundTrip | crawler/source.go:233-262 | parsing printed endpoints, each with any text after a space, gives them back in order |
| JsonSource.ExtractRecursive | crawler/source.go:316-342 | the recursion with its loop is level-by-level extraction |
| JsonSource.LevelsAreEach | crawler/source.go:316-342 | level by level gives what extracting from each value in turn gives, in order |
| JsonSource.ParseJSONResponse | crawler/source.go:267-303 | undecodable is an error, else the rows of the paired lists |
| JsonSource.RowsComeFromElements | crawler/source.go:273-302 | when every element gives one value for each path, each row is of one element |
| JsonSource.FieldsOfItems | crawler/source.go:316-342 | a path over an array, or over the array in a field, gives the field's values of those items that have it, in order |
| JsonSource.RowSays | crawler/source.go:280-302 | a row needs an address and a port with text; its protocol is the element's own, or the source's if that has no text |
| JsonSource.RowsPairExactlyWhen | crawler/source.go:273-302 | for paths with a shared beginning every row's address and port come from the same element if and only if all elements yield as many of both, or from the first that does not on no more values of the scarcer kind follow |
| JsonSource.ProtocolsPairExactlyWhen | crawler/source.go:286-290 | the same for the protocols, which are taken by position too, at the rows there are: they pair up, or the gap comes only after the last row |
| JsonSource.OwnerYields | crawler/source.go:316-342 | the element a position is counted to is the one that yields its value |
| JsonSource.MissingPortMisaligns | crawler/source.go:273-302 | an input where they do not: an address is paired with another element's port |
| Migration.OneRowPerEndpoint | proxyinabox.go:121-132 | exactly one row is left of every normalized endpoint there was |
| Migration.SurvivorIsNewestLive | proxyinabox.go:121-132 | it is live iff some row was, with the highest id of that status |
| Migration.MigratedRowsSay | proxyinabox.go:105-165 | what each column of a row that is left holds |
| Migration.IndexCanBeBuilt | proxyinabox.go:133-143 | protocols are present and the unique index holds |
| Migration.SecondRunChangesNothing | proxyinabox.go:97-168 | a second run changes no row |
| Migration.StepsAreMigrated | proxyinabox.go:97-168 | the table updates one after the other are the row-by-row transformation |
| Migration.Database.MigrateDB | proxyinabox.go:97-168 | the flagged in-place steps come to that transformation |

## Left out

- Browser control, Lua scripts, YAML and file loading, cron, HTTP handlers, the dashboard and process metrics: glue around I/O.
- Certificates, TLS fingerprints, SOCKS4 and CONNECT dialers, gzip and byte copying: a dial or exchange is an arbitrary outcome.
- GORM and SQLite: finite maps with atomic updates; soft-deleted rows are outside the pool store, `UpdatedAt` and `CreatedAt` outside everything; a NULL `last_verify`, which the program itself never writes, is read as the zero time in the periodic query too.
- Races inside one cache operation, such as load-then-delete in `IsIPLocked` (service/memcache.go:544-552): each operation is atomic.
- Pool entries are values: that `pl` and `dl` point to the same records is not modelled; of a `dl` entry only the address and the stamp are ever used.
- Restarts clear use counts, windows and circuits (service/memcache.go:83-98), so the spacing of picks holds within one process.
- `sort.Stable` is modelled by a stable insertion sort, as the library's own algorithm is not part of the repository.
- Pipeline threads are steps on values, not objects, since the statement is about their interleavings; what the checks decide (locked, in the pool, due) is arbitrary there.
- `RandomProxy`, `GetAllProxies`, `ProxyLength`, shuffles and probe hosts: random or read-only.
- Wrap-around of 64-bit counters, floating-point error in tokens (exact reals are used), and yields and averages.
- Upper-case letters outside ASCII in a listed protocol are left as they are; Go lower-cases them.
- Numbers in JSON are kept as the text they print as; how a float prints is not modelled.
- Migration of a table without the endpoint columns, and a failing statement that rolls the transaction back.
- Bytes transferred, and the counting of inner requests of decrypted connections in the global total (mitm/mitm.go:257-261 never adds them, so no such law holds).
- The `classifyMaintenance` colours and simple configuration defaults: each is settled by one branch.
- RetryWithCache.EveryOfferIsAnAttempt: needs a host, as failures without one are not recorded (service/memcache.go:297-300), and one circuit time for the whole run, which is fixed when the cache is built.
- The proxy library, which dials socks5 and socks5h itself, is not part of this model; other unregistered schemes fail in it (mitm/proxy_dialer.go:152-173 registers http, https and socks4).
