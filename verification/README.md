# Ingestion gateway: a verified model

The ingestion gateway (`services/ingestion-gateway`) takes webhooks, filters
duplicates, queues them, publishes them, keeps the failures and retries them.
Most of that is hand-written concurrent or time-dependent code.  This project
models those parts in Dafny and proves what each of them keeps over its runs.
Which runs and interleavings a result covers is said beside it.

| file | models |
|---|---|
| `Lease.dfy` | the Redis lease of the retry leader, and any number of scheduler instances around it |
| `RetryScheduler.dfy` | backoff, the retry pass, and runs of listings, retries and saves over the failed-event log |
| `FailStore.dfy` | the failed-event log as a sequence of records, and as an insertion-ordered map |
| `AsyncQueue.dfy` | publishers, workers, closing and draining as one transition system |
| `AsyncPublisher.dfy` | one queue without contention: channel, options and failure window together |
| `ManyQueues.dfy` | several source queues closed before one inner publisher |
| `PublishWindow.dfy` | the ring buffer of publish outcomes |
| `Admission.dfy` | thresholds, back-pressure and option defaults |
| `Bulkhead.dfy` | one queue per source: contended creation, isolation, pooled statistics |
| `Breaker.dfy` | the circuit breaker and the publisher it guards |
| `Ledger.dfy` | where an event is between handler, duplicate filter, queue, hook and store |
| `Dedup.dfy` | the duplicate filter with its background sweep |
| `RateBound.dfy`, `RateLimit.dfy`, `UiRateLimit.dfy` | the three fixed-window limiters |
| `SecurityAudit.dfy` | the audit log with interval-throttled pruning |
| `ReplayAudit.dfy` | the replay audit trail in a file: filter, order, cursor paging |
| `ReplayAuditPostgres.dfy` | the same in Postgres, paged by key |
| `EventStore.dfy` | at-least-once delivery into a table with a unique message id |
| `Scrubber.dfy` | the structural scrubber, on values and as the rewrite in place |
| `Sequences.dfy`, `Text.dfy`, `Wrappers.dfy` | what they share |

How it is set up:

- Code that updates fields is a class whose methods are proved against a
  function of the old state (`Value`, `Contents`, the fields themselves).  Runs
  are folds of that function over a sequence of calls, and the main results are
  lemmas about all such sequences.
- Concurrency is a transition system: one step per region between lock
  operations or per channel or Redis operation.  A run is any sequence of
  steps; a step that is not enabled changes nothing, so a statement about all
  sequences is one about all interleavings.
- Clocks are integers in milliseconds.  Where a result needs a clock that never
  goes back, it says so.  Ratios are exact rationals.
- Where the code does not do what one would want, the exact condition is proved
  instead, with the runs that show the failure: `Lease.ExclusiveIff`,
  `RateLimit.LimitersAgreeIff`, `RateLimit.ChangedLimitDisagreesIff`,
  `SecurityAudit.PruningUnobservableIff`, `AsyncQueue.NoPanicIff`,
  `Ledger.NothingLostIff`, `Admission.GatesAgreeIff`, `Bulkhead.GateDecidesIff`,
  `EventStore.BlankIDIsNeverAcked`, `RetryScheduler.RetriesBoundedIff`.

Three things in the code that its description does not suggest: the lease is
renewed for the TTL truncated to whole seconds, while it is claimed for the full
TTL; the instance id is the host name, so two instances on one host share the
lease; and the scrubber lowers the keys it meets but not its configured fields,
so a field with an upper-case letter finds nothing (`Scrubber.FieldWorksIff`).

`dafny verify dfyconfig.toml` checks everything.

## Model

| member | source | states |
|---|---|---|
| `Lease.LeaderElection.IsLeader` | services/ingestion-gateway/internal/retry/leader.go:26-29 | true exactly when the read is answered and the unexpired key holds this id; changes nothing |
| `Lease.LeaderElection.TryClaim` | services/ingestion-gateway/internal/retry/leader.go:31-34 | takes the key exactly when it is absent or expired, also when the reply is lost, and says so only when answered; the key then names this id up to now + TTL and nobody from then on |
| `Lease.LeaderElection.Renew` | services/ingestion-gateway/internal/retry/leader.go:36-46 | extends the key only for its owner; it then names this id for the TTL truncated to whole seconds, not at all when that is zero |
| `Lease.StepKeepsInv` | services/ingestion-gateway/internal/retry/scheduler.go:94-118 | no step of any instance disturbs the lease that backs another instance's granted or running pass |
| `Lease.MutualExclusion` | services/ingestion-gateway/internal/retry/scheduler.go:94-118 | in every run with distinct ids and a lease that outlives delay plus pass limit, no two instances are inside a pass at once |
| `Lease.ExclusiveIff` | services/ingestion-gateway/internal/retry/leader.go:26-46 | for two or more instances and a positive TTL, exclusion holds over all runs if and only if the ids differ and response delay plus 30 s is below the TTL truncated to seconds |
| `Lease.SharedIdOverlap` | services/ingestion-gateway/cmd/server/main.go:504-508 | two instances that share an id (a host name) can both be inside a pass, whatever the lease |
| `Lease.LapsedLeaseOverlap` | services/ingestion-gateway/internal/retry/leader.go:36-46 | when delay plus pass limit reaches the renewed lifetime, a run with two passes at once exists |
| `Lease.DeployedLease` | services/ingestion-gateway/cmd/server/main.go:508-508 | with the configured two minutes, exclusion holds exactly for response delays below 90 s |
| `Lease.FailoverIff` | services/ingestion-gateway/internal/retry/leader.go:31-46 | over every continuation in which the owner sends no further command and others send theirs only before the end of the lease, another idle instance is granted a pass if and only if the lease (TTL after a claim, TTL in whole seconds after a renewal) is over |
| `Breaker.CircuitBreaker.Allow` | services/ingestion-gateway/internal/platform/resilience/circuit_breaker.go:29-45 | one step of the model: admits unless open and not yet due, and turns half-open when it admits from open |
| `Breaker.CircuitBreaker.RecordSuccess` | services/ingestion-gateway/internal/platform/resilience/circuit_breaker.go:47-52 | one step of the model: no failures, closed |
| `Breaker.CircuitBreaker.RecordFailure` | services/ingestion-gateway/internal/platform/resilience/circuit_breaker.go:54-62 | one step of the model: one failure more, stamped, open from the threshold on |
| `Breaker.CircuitBreakerPublisher.Publish` | services/ingestion-gateway/internal/queue/circuit_breaker.go:27-39 | the wrapped publisher is called exactly when admitted, and exactly its outcome is recorded, whatever others do to the breaker during the call; Execute does the same |
| `Breaker.StateOfHistory` | services/ingestion-gateway/internal/platform/resilience/circuit_breaker.go:29-62 | all three fields from the history alone: failures since the last success, closed if and only if below the threshold, half-open if and only if probed since the last failure |
| `Breaker.HalfOpenFailureReopens` | services/ingestion-gateway/internal/platform/resilience/circuit_breaker.go:54-62 | a failure recorded while half-open always reopens |
| `Breaker.AdmissionRule` | services/ingestion-gateway/internal/platform/resilience/circuit_breaker.go:29-45 | a call is admitted if and only if the breaker is not tripped or the recovery delay has passed since the last failure |
| `Breaker.NoCallWhileOpen` | services/ingestion-gateway/internal/platform/resilience/circuit_breaker.go:74-88 | once tripped, without a success nobody is admitted until the delay after the latest failure, however many ask |
| `Dedup.Memory.Seen` | services/ingestion-gateway/internal/dedup/memory.go:71-87 | answers from the table and records the key with its expiry exactly when it answers no |
| `Dedup.Memory.Forget` | services/ingestion-gateway/internal/dedup/memory.go:61-68 | removes the key and nothing else |
| `Dedup.Memory.CleanupExpired` | services/ingestion-gateway/internal/dedup/memory.go:44-53 | the deleting loop leaves exactly the entries that expire after now |
| `Dedup.SeenExactly` | services/ingestion-gateway/internal/dedup/memory.go:71-87 | in every run Seen is true if and only if the key was accepted less than a TTL ago and not forgotten since |
| `Dedup.AcceptancesAreSpaced` | services/ingestion-gateway/internal/dedup/memory.go:71-87 | two acceptances of a key without a Forget between them are at least a TTL apart |
| `Dedup.CleanupUnobservable` | services/ingestion-gateway/internal/dedup/memory.go:44-53 | taking all cleanup steps out of a run changes no answer |
| `RateBound.TwiceTheLimit` | services/ingestion-gateway/internal/httpx/middleware.go:116-155 | for any limiter whose grants lie in non-overlapping windows of at most `limit`, an interval of one window length holds at most twice that |
| `RateLimit.IPRateLimiter.AllowWithInfo` | services/ingestion-gateway/internal/httpx/middleware.go:116-155 | the answer and the new entries and hit counter, sweep included, as the model of one request (see `MemoryCountsExactly`) |
| `RateLimit.IPRateLimiter.CleanupStale` | services/ingestion-gateway/internal/httpx/middleware.go:96-109 | deletes exactly the entries older than the previous window |
| `RateLimit.IPRateLimiter.MaybeCleanupLocked` | services/ingestion-gateway/internal/httpx/middleware.go:157-167 | counts the hit modulo 2^64 and sweeps exactly every cleanup-th time |
| `RateLimit.RedisRateLimiter.AllowWithInfo` | services/ingestion-gateway/internal/httpx/redis_rate_limiter.go:44-86 | result, reset time and counter in each case: answered, request lost (no hit, let through), reply lost (hit kept, let through) |
| `RateLimit.RequestCounts` | services/ingestion-gateway/internal/httpx/middleware.go:116-167 | only a grant changes the count of a current or later window; sweeping never does |
| `RateLimit.MemoryCountsExactly` | services/ingestion-gateway/internal/httpx/middleware.go:116-155 | whatever the limits and sweeps, a request is admitted if and only if fewer than `limit` of its key were admitted in this window |
| `RateLimit.SweepsAreDue` | services/ingestion-gateway/internal/httpx/middleware.go:157-167 | after every cleanup-th admitted request only entries of the current and the previous window are left |
| `RateLimit.CountersAreFaithful` | services/ingestion-gateway/internal/httpx/redis_rate_limiter.go:44-66 | in every run the Redis counter of a window equals the number of its requests and does not expire inside it |
| `RateLimit.CounterLivesOneWindow` | services/ingestion-gateway/internal/httpx/redis_rate_limiter.go:52-66 | in every run a counter expires exactly one window length after the first request of its window |
| `RateLimit.GrantsAreCappedRequests` | services/ingestion-gateway/internal/httpx/middleware.go:138-148 | the memory limiter's count is the number of requests, capped at the limit |
| `RateLimit.LimitersAgree` | services/ingestion-gateway/internal/httpx/redis_rate_limiter.go:52-95 | on every history with fixed limits and non-blank keys both limiters give the same Allowed, Remaining, reset time and limit |
| `RateLimit.ChangedLimitDisagreesIff` | services/ingestion-gateway/internal/httpx/redis_rate_limiter.go:76-81 | after a change of limit inside a window the decisions differ exactly when it was raised to at most the number of requests seen |
| `RateLimit.LimitersAgreeIff` | services/ingestion-gateway/internal/httpx/redis_rate_limiter.go:52-95 | with a positive limit, after any fixed-limit history, the two results are equal if and only if the key is not blank; the middleware always puts a scope in front of the key (middleware.go:368, 437), so only direct callers can pass a blank one |
| `RateLimit.BlankKeyIsFree` | services/ingestion-gateway/internal/httpx/redis_rate_limiter.go:56-58 | Redis always admits a blank key, counts nothing and gives no reset time |
| `RateLimit.RedisCountsIff` | services/ingestion-gateway/internal/httpx/redis_rate_limiter.go:52-66 | Redis counts a request exactly if its limit is positive and its key not blank |
| `RateLimit.NoLimitRefuses` | services/ingestion-gateway/internal/httpx/redis_rate_limiter.go:52-55 | without a positive limit both limiters refuse, with nothing remaining and nothing counted |
| `RateLimit.BlankKeyDisagreesIff` | services/ingestion-gateway/internal/httpx/redis_rate_limiter.go:56-58 | on a blank key the decisions differ if and only if the memory limiter has granted its limit in this window |
| `RateLimit.AnyIntervalBound` | services/ingestion-gateway/internal/httpx/middleware.go:116-155 | clock-aligned windows: at most twice the limit per key in any half-open interval of one window length |
| `UiRateLimit.UISmokeRateLimiter.Allow` | services/ingestion-gateway/internal/handlers/ui_rate.go:23-58 | the decision and the new table, with its periodic sweep, as the model of one request |
| `UiRateLimit.TableFollowsPolicy` | services/ingestion-gateway/internal/handlers/ui_rate.go:31-57 | the table, swept or not, always holds the latest window of each address, and grants stay well spaced |
| `UiRateLimit.AnswerIsPolicy` | services/ingestion-gateway/internal/handlers/ui_rate.go:40-57 | the answer depends only on the earlier grants of that address |
| `UiRateLimit.EntriesStayRecent` | services/ingestion-gateway/internal/handlers/ui_rate.go:31-57 | after any call every entry is less than three minutes old |
| `UiRateLimit.CountedUnderAddress` | services/ingestion-gateway/internal/handlers/ui_rate.go:23-58 | requests without an address share the counter of "unknown"; a request changes no other counter, and takes entries away at most once a minute |
| `UiRateLimit.AnyMinuteBound` | services/ingestion-gateway/internal/handlers/ui_rate.go:23-58 | windows anchored at the first request: at most forty grants in any half-open minute |
| `SecurityAudit.FileStore.Save` | services/ingestion-gateway/internal/securityaudit/file_store.go:85-121 | rejects exactly input with a blank required field or a status outside 100 to 599, unchanged; otherwise prunes if due and appends exactly the new record |
| `SecurityAudit.FileStore.ListRecent` | services/ingestion-gateway/internal/securityaudit/file_store.go:123-181 | the reverse of the last `limit` unexpired records, or an error for a limit below one |
| `SecurityAudit.FileStore.ScanRecent` | services/ingestion-gateway/internal/securityaudit/file_store.go:145-172 | the scan loop leaves the last `limit` unexpired records in the window |
| `SecurityAudit.FileStore.PruneExpiredLocked` | services/ingestion-gateway/internal/securityaudit/file_store.go:222-285 | at most once per interval; leaves exactly the unexpired records |
| `SecurityAudit.FileStaysYoung` | services/ingestion-gateway/internal/securityaudit/file_store.go:222-285 | with a clock that never goes back, after any accepted save the file holds no record older than retention plus prune interval, whatever it held before |
| `SecurityAudit.PruningShowsIff` | services/ingestion-gateway/internal/securityaudit/file_store.go:222-285 | pruning at one time changes what is unexpired at another exactly if it drops a record that is unexpired then |
| `SecurityAudit.LastPruneIsOnDisk` | services/ingestion-gateway/internal/securityaudit/file_store.go:222-243 | the time of the last prune is determined by the calls alone |
| `SecurityAudit.PruningUnobservableIff` | services/ingestion-gateway/internal/securityaudit/file_store.go:123-181 | for any history and any clock, all listings agree with those of a log that is never pruned if and only if no executed prune dropped a record that is unexpired now |
| `SecurityAudit.PruningUnobservable` | services/ingestion-gateway/internal/securityaudit/file_store.go:85-181 | when no call was later than now, as with a clock that never goes back, listing gives what a log that is never pruned would give |
| `SecurityAudit.ClockRegressionVisible` | services/ingestion-gateway/internal/securityaudit/file_store.go:326-329 | whenever a pruning call ran late enough to expire an accepted record that is unexpired now, some listing differs |
| `Sequences.SlidingWindow.Push` | services/ingestion-gateway/internal/securityaudit/file_store.go:161-170 | the shifted slice holds exactly the most recent elements |
| `Sequences.ReverseInPlace` | services/ingestion-gateway/internal/securityaudit/file_store.go:177-179 | swapping from both ends reverses the slice |
| `FailStore.FileStore.Save` | services/ingestion-gateway/internal/failstore/file_store.go:61-122 | appends one record with count zero and the trimmed or fresh id, or rejects the input unchanged |
| `FailStore.FileStore.GetByID` | services/ingestion-gateway/internal/failstore/file_store.go:124-169 | the first record of the trimmed id, or not found |
| `FailStore.FileStore.ListRecent` | services/ingestion-gateway/internal/failstore/file_store.go:171-227 | window, deduplication by index map and in-place reversal together give `Listed` |
| `FailStore.FileStore.Delete` | services/ingestion-gateway/internal/failstore/file_store.go:229-255 | the in-place filter removes every record of the id, and reports not found exactly if there is none |
| `FailStore.FileStore.UpdateRetryCount` | services/ingestion-gateway/internal/failstore/file_store.go:257-285 | changes the count of the first record of the id and nothing else |
| `FailStore.DeduplicateEvents` | services/ingestion-gateway/internal/failstore/file_store.go:349-362 | the loop over an index map keeps the newest record of each id in the place of its first |
| `FailStore.ListingIsNewestPerID` | services/ingestion-gateway/internal/failstore/file_store.go:171-227 | distinct ids, exactly those of the last `limit` records, each with its newest record of the whole log, by first occurrence reversed |
| `FailStore.AbstractionIsExact` | services/ingestion-gateway/internal/failstore/file_store.go:124-285 | with unique ids the insertion-ordered map determines the log |
| `FailStore.GetRefinesLookup` | services/ingestion-gateway/internal/failstore/file_store.go:124-169 | GetByID is the map lookup |
| `FailStore.SaveRefinesInsert` | services/ingestion-gateway/internal/failstore/file_store.go:61-122 | saving keeps ids unique if and only if the id is new, and is then insertion at the end |
| `FailStore.DeleteRefinesRemove` | services/ingestion-gateway/internal/failstore/file_store.go:229-255 | deletion is removal from the map and keeps ids unique |
| `FailStore.UpdateRefinesSetCount` | services/ingestion-gateway/internal/failstore/file_store.go:257-285 | updating is setting the count in the map and keeps order and uniqueness |
| `FailStore.UniqueListing` | services/ingestion-gateway/internal/failstore/file_store.go:349-362 | with unique ids deduplication changes nothing |
| `FailStore.EndsOfRecords` | services/ingestion-gateway/internal/failstore/file_store.go:124-227 | of several records under one id GetByID finds the first and ListRecent shows the last |
| `FailStore.OwnRecordsAfterUpdate` | services/ingestion-gateway/internal/failstore/file_store.go:271-278 | updating changes the count of the first record of the id, also when there are several |
| `RetryScheduler.Scheduler.CalculateBackoff` | services/ingestion-gateway/internal/retry/scheduler.go:217-234 | the loop computes `Backoff`, which `BackoffDoubles`, `BackoffIsLeast` and `NegativeCountIsNone` describe |
| `RetryScheduler.Scheduler.RetryEvent` | services/ingestion-gateway/internal/retry/scheduler.go:159-215 | one publish at most; success deletes, failure stores the count plus one, exhaustion deletes without publishing |
| `RetryScheduler.Scheduler.ProcessRetries` | services/ingestion-gateway/internal/retry/scheduler.go:116-157 | the log and the calls after a pass, with saves of others falling between any two of its store operations |
| `RetryScheduler.PassIsRun` | services/ingestion-gateway/internal/retry/scheduler.go:116-157 | such a pass is a run of the steps of the model: one listing, then saves and handlings in turn |
| `RetryScheduler.Scheduler.OnTick` | services/ingestion-gateway/internal/retry/scheduler.go:94-114 | a pass happens exactly after a successful renewal or claim, or without leader election |
| `RetryScheduler.BackoffShape` | services/ingestion-gateway/internal/retry/scheduler.go:217-234 | waits grow with the count, never exceed the cap, and jitter only lengthens them by at most the base |
| `RetryScheduler.BackoffDoubles` | services/ingestion-gateway/internal/retry/scheduler.go:217-234 | the wait starts at the base, doubles with every retry and stops at 300 000 ms; jitter is added below the stop |
| `RetryScheduler.BackoffIsLeast` | services/ingestion-gateway/internal/retry/scheduler.go:217-234 | for every count, also negative, the wait is min(doubled wait + jitter, 300 000), the doubled wait being defined by doubling alone |
| `RetryScheduler.NegativeCountIsNone` | services/ingestion-gateway/internal/retry/scheduler.go:218-220 | a negative count waits as long as no retry: min(base + jitter, 300 000) |
| `RetryScheduler.HandleDecides` | services/ingestion-gateway/internal/retry/scheduler.go:116-215 | in every state: a cancelled pass drops its list and does nothing else, exhausted events are deleted without a call, events whose wait is not over stay untouched, all others are published exactly once and deleted or counted one higher |
| `RetryScheduler.StepMoves` | services/ingestion-gateway/internal/retry/scheduler.go:116-215 | what any step does to the records of one id: nothing, one attempt not before its backoff, or deletion when exhausted; listed events stay the newest of their id |
| `RetryScheduler.RunFollowsCourse` | services/ingestion-gateway/internal/retry/scheduler.go:116-215 | for an id with one record, with other saves at any time, the k-th attempt is the one at count c+k, none follows a success, and the stored count is the number of attempts |
| `RetryScheduler.RetryBound` | services/ingestion-gateway/internal/retry/scheduler.go:116-215 | such an event is published at most maxRetries minus its count times, none earlier than FailedAt plus min(base * 2^k, 5 min) |
| `RetryScheduler.RetriesBoundedIff` | services/ingestion-gateway/internal/retry/scheduler.go:116-215 | over runs without a new save of the id, its attempts are bounded if and only if the log holds at most one record of it or its newest record is exhausted |
| `RetryScheduler.RepeatedNeverExhausts` | services/ingestion-gateway/internal/retry/scheduler.go:208-213 | otherwise passes alone publish it any number of times: the update reaches the first record, the listing shows the newest |
| `RetryScheduler.WorkIsBounded` | services/ingestion-gateway/internal/retry/scheduler.go:116-215 | with unique ids, in any run with fresh saves at any time, attempts and exhausted deletions use up the credit maxRetries+1-count of what was stored or came in |
| `PublishWindow.Window.Record` | services/ingestion-gateway/internal/queue/async_publisher.go:309-325 | the ring always holds exactly the last N outcomes, and `failures` counts their failures |
| `PublishWindow.Window.Ratio` | services/ingestion-gateway/internal/queue/async_publisher.go:327-332 | failures over samples of exactly those outcomes |
| `PublishWindow.WindowIsSuffix` | services/ingestion-gateway/internal/queue/async_publisher.go:309-325 | recording any history leaves its last min(n, N) outcomes |
| `Admission.WithDefaultsIdempotent` | services/ingestion-gateway/internal/queue/async_publisher.go:274-300 | normalising twice is normalising once |
| `Admission.DefaultsAreSane` | services/ingestion-gateway/internal/queue/async_publisher.go:274-300 | positive ratios, at least one worker, 1 <= minSamples <= window, soft below hard when soft is below one |
| `Admission.WithDefaultsKeepsIff` | services/ingestion-gateway/internal/queue/async_publisher.go:274-300 | options stay as they are exactly if all are positive, the soft limit is below the hard one (or the hard one is 1.0 and the soft one no less), and the samples fit the window |
| `Admission.DefaultsOfBlank` | services/ingestion-gateway/internal/queue/async_publisher.go:274-300 | the defaults 0.7, 0.9, 0.15, 100 and 20 for what is not positive, a hard limit lifted 0.1 above the soft one, samples cut to the window |
| `Admission.RejectionIsUpwardClosed` | services/ingestion-gateway/internal/queue/async_publisher.go:216-237 | if a snapshot is rejected, so is any with larger depth, failure ratio and sample count |
| `Admission.GatesAgreeAtDepth` | services/ingestion-gateway/internal/queue/bulkhead.go:175-190 | for a ratio in (0, 1], depth >= limitFromRatio if and only if depth over capacity reaches the ratio |
| `Admission.GatesAgreeIff` | services/ingestion-gateway/internal/queue/bulkhead.go:28-46 | on normalised options the two hard limits coincide at every depth if and only if the hard ratio is at most one |
| `Admission.HardLimitIsADepth` | services/ingestion-gateway/internal/queue/async_publisher.go:216-221 | the hard limit is a threshold depth between one and the capacity |
| `AsyncPublisher.Publisher.Publish` | services/ingestion-gateway/internal/queue/async_publisher.go:91-123 | without contention, the answer is `Answer` of depth, closed flag and every outcome ever recorded (see `AnswerByCounts`); only a queued event changes the channel, which stays within the hard limit |
| `AsyncPublisher.AnswerByCounts` | services/ingestion-gateway/internal/queue/async_publisher.go:91-123 | for normalised options with a failure threshold below one: closed, else full from hard * capacity on, else throttled by the counts of failures and samples, else queued while there is room |
| `AsyncPublisher.ThrottledIff` | services/ingestion-gateway/internal/queue/async_publisher.go:223-237 | a publish is throttled if and only if it is open, enabled, below the hard limit, above the soft limit, has enough samples, has used up its failure budget, and both excesses add up to the room there is |
| `AsyncPublisher.ThrottledByTotalFailure` | services/ingestion-gateway/internal/queue/async_publisher.go:223-260 | the remaining options: with a threshold of one a publish is throttled between the limits exactly if the window is all failures, and above one never |
| `AsyncPublisher.CountsSpelledOut` | services/ingestion-gateway/internal/queue/async_publisher.go:223-260 | that condition cross-multiplied, over depth, capacity, failures and samples alone |
| `AsyncPublisher.NeverThrottledBelowSoft` | services/ingestion-gateway/internal/queue/async_publisher.go:223-237 | never throttled at or below the soft limit |
| `AsyncPublisher.ThrottledWhenAllFailed` | services/ingestion-gateway/internal/queue/async_publisher.go:223-237 | always throttled between the limits when there are enough samples and all of them failed |
| `AsyncPublisher.CheckThenSend` | services/ingestion-gateway/internal/queue/async_publisher.go:91-123 | a check followed directly by its send in `AsyncQueue` does what Publish answers here |
| `AsyncPublisher.Publisher.ProcessQueuedEvent` | services/ingestion-gateway/internal/queue/async_publisher.go:166-208 | takes the oldest event, calls the inner publisher once, records the outcome, and calls the dead-letter hook exactly on failure |
| `AsyncPublisher.DepthLimitIff` | services/ingestion-gateway/internal/queue/async_publisher.go:216-221 | the bound on the depth of the channel: a depth is below it exactly if there is room and it is below hard * capacity |
| `AsyncPublisher.BetterHistoryAdmits` | services/ingestion-gateway/internal/queue/async_publisher.go:223-260 | had more publishes succeeded, no publish that was queued would have been refused |
| `AsyncPublisher.SuccessesReopen` | services/ingestion-gateway/internal/queue/async_publisher.go:223-237 | after a window full of successes only the hard limit can refuse |
| `AsyncQueue.ExactlyOnce` | services/ingestion-gateway/internal/queue/async_publisher.go:91-208 | in every interleaving an accepted event is in exactly one place, events leave in acceptance order, each is published at most once, exactly once when settled, and dead-lettered exactly if that failed |
| `AsyncQueue.RunConserves` | services/ingestion-gateway/internal/queue/async_publisher.go:91-208 | every step of publishers, workers and Close keeps that accounting |
| `AsyncQueue.OvershootBound` | services/ingestion-gateway/internal/queue/async_publisher.go:106-122 | with P concurrent publishers the depth never exceeds min(capacity, H - 1 + P) |
| `AsyncQueue.SendTakesIff` | services/ingestion-gateway/internal/queue/async_publisher.go:106-122 | an admitted event is taken by the channel exactly while there is room, and by a waiting worker exactly when the channel is empty, also an unbuffered one |
| `AsyncQueue.DrainedBeforeInnerCloses` | services/ingestion-gateway/internal/queue/factory.go:20-27 | with one queue, the inner publisher is closed only after all workers have left, when every accepted event is settled, and is never called after that |
| `ManyQueues.AllDrainedBeforeInnerCloses` | services/ingestion-gateway/internal/queue/factory.go:75-89 | the same with the bulkhead's closer over any number of queues, over all their interleavings |
| `ManyQueues.JointRunProjects` | services/ingestion-gateway/internal/queue/bulkhead.go:103-122 | in a joint run every queue goes through a run of its own |
| `ManyQueues.EachExactlyOnce` | services/ingestion-gateway/internal/queue/async_publisher.go:91-208 | the accounting of one queue holds for each of them, whatever the others do |
| `AsyncQueue.DrainProgresses` | services/ingestion-gateway/internal/queue/async_publisher.go:125-134 | after closing, some worker can move until all have left, and every worker step uses up finite work: Close cannot hang |
| `AsyncQueue.CloseFinishes` | services/ingestion-gateway/internal/queue/factory.go:20-27 | closing can start whenever it may, and once the workers have left its remaining steps can be taken, the inner publisher last |
| `AsyncQueue.NoPanicIff` | services/ingestion-gateway/internal/queue/async_publisher.go:106-118 | no send meets a closed channel in any run if and only if Publish never overlaps Close or there are no publishers |
| `AsyncQueue.CloseRuntime` | services/ingestion-gateway/internal/queue/factory.go:20-27 | the reverse loop runs the closers from last to first up to the first failure |
| `AsyncQueue.ReverseUpToFailure` | services/ingestion-gateway/internal/queue/factory.go:20-27 | what that loop executes: the last n closers in reverse, none but the last failing; it succeeds exactly if all ran and none failed |
| `AsyncQueue.QueueClosesFirst` | services/ingestion-gateway/internal/queue/factory.go:59-89 | in the order of construction, the queue is closed before the inner publisher |
| `Bulkhead.OneQueuePerSource` | services/ingestion-gateway/internal/queue/bulkhead.go:48-74 | however callers interleave, one source has one open queue, different sources different ones, and every losing queue is closed |
| `Bulkhead.EveryCallerIsServed` | services/ingestion-gateway/internal/queue/bulkhead.go:48-74 | wherever the others stand, a caller needs only its own steps to come back with the open queue of its source; a registered queue is used as it is, and a caller that finds it builds nothing |
| `Bulkhead.RunKeepsInv` | services/ingestion-gateway/internal/queue/bulkhead.go:48-74 | registered queues are open and distinct, and no built queue is ever leaked |
| `Bulkhead.BulkheadPublisher.GetOrCreateSource` | services/ingestion-gateway/internal/queue/bulkhead.go:48-74 | an existing queue is returned untouched, a new one is empty, open and registered |
| `Bulkhead.BulkheadPublisher.Publish` | services/ingestion-gateway/internal/queue/bulkhead.go:76-106 | the answer of gate and queue together; the queues of all other sources are untouched |
| `Bulkhead.GateOnlyRelabels` | services/ingestion-gateway/internal/queue/bulkhead.go:80-83 | with one depth for both, the outer gate turns away only what the queue would refuse, with the queue's own answer for a hard ratio up to one |
| `Bulkhead.GateDecidesIff` | services/ingestion-gateway/internal/queue/bulkhead.go:76-83 | under contention the gate turns away an event that the queue would take if and only if the depth fell from the hard limit to an admitted one in between |
| `Bulkhead.BulkheadPublisher.AggregateSnapshot` | services/ingestion-gateway/internal/queue/bulkhead.go:124-141 | depth, capacity and samples are sums, and the weighted failure ratio is total failures over total samples |
| `Bulkhead.TotalWithout` | services/ingestion-gateway/internal/queue/bulkhead.go:129-134 | the sums do not depend on the order in which sources are visited |
| `Ledger.OnePlace` | services/ingestion-gateway/internal/handlers/webhooks.go:209-275 | over all interleavings an event that passed the filter is in exactly one place, past the handler once answered 202 |
| `Ledger.LedgerHolds` | services/ingestion-gateway/internal/handlers/webhooks.go:209-275 | every event answered 202, also as a duplicate, is with a handler, queued, in flight, in the hook, delivered or stored |
| `Ledger.SeenIff` | services/ingestion-gateway/internal/handlers/webhooks.go:363-368 | over all runs the filter holds a key if and only if some look let a request of it through and no forgetting or expiry of it took effect since |
| `Ledger.DuplicateIff` | services/ingestion-gateway/internal/handlers/webhooks.go:209-275 | a request is answered as a duplicate if and only if it has an event id and its key is so remembered; otherwise it goes on to publish |
| `Ledger.SentAgainAfterFailure` | services/ingestion-gateway/internal/handlers/webhooks.go:239-263 | in every state, right after the forgetting of a failed publish or of the dead-letter hook, a repeated request goes through |
| `Ledger.NothingIsStuck` | services/ingestion-gateway/cmd/server/main.go:324-352 | every event under way has a step, and every step uses up work: the gateway comes to rest |
| `Ledger.QuietMeansDeliveredOrStored` | services/ingestion-gateway/cmd/server/main.go:324-352 | when nobody is working any more, everything answered 202 is delivered or on record as failed |
| `Ledger.RetryLoses` | services/ingestion-gateway/internal/retry/scheduler.go:182-200 | with the retry scheduler on, a run in which an event answered 202 is nowhere |
| `Ledger.DeletedAfterRetry` | services/ingestion-gateway/internal/retry/scheduler.go:182-200 | in every run the scheduler deletes a record only after it has put its event back into the queue |
| `Ledger.NothingLostIff` | services/ingestion-gateway/internal/retry/scheduler.go:182-200 | nothing answered 202 is lost in any run if and only if the retry scheduler is off |
| `EventStore.PostgresStore.Save` | services/ingestion-gateway/internal/eventstore/postgres_store.go:45-106 | inserts the record unless its message id has a row, which it returns; commits also when only the answer is lost |
| `EventStore.Consumer.HandleMessage` | services/ingestion-gateway/internal/eventstore/consumer.go:46-68 | acks invalid envelopes and saved messages, nacks failed saves |
| `EventStore.RowIsFirstCommit` | services/ingestion-gateway/internal/eventstore/postgres_store.go:45-106 | the row of an id exists exactly when some delivery committed, and holds what the first one carried |
| `EventStore.RowCarriesMessage` | services/ingestion-gateway/internal/eventstore/record.go:53-87 | every row holds, field by field, what a valid message carried, under the trimmed message id |
| `EventStore.RowsAreUnique` | services/ingestion-gateway/internal/eventstore/postgres_store.go:60-77 | in every run message ids and serial numbers of rows are distinct |
| `EventStore.RowsPersist` | services/ingestion-gateway/internal/eventstore/postgres_store.go:60-77 | rows are never changed or removed |
| `EventStore.ExactlyOneRow` | services/ingestion-gateway/internal/eventstore/record.go:53-87 | over every run of deliveries and failures, exactly one row per trimmed message id that ever committed, with fixed content |
| `EventStore.AckedMeansStored` | services/ingestion-gateway/internal/eventstore/consumer.go:46-68 | an acked message has its row, then and ever after, unless its envelope was invalid |
| `EventStore.AckIff` | services/ingestion-gateway/internal/eventstore/consumer.go:46-68 | acked if and only if the envelope is invalid, or the id is not blank and the database answered |
| `Text.IsSpaceIff` | services/ingestion-gateway/internal/eventstore/record.go:54-54 | what trimming removes: the 25 characters of the White_Space property |
| `EventStore.BlankIDIsNeverAcked` | services/ingestion-gateway/internal/eventstore/record.go:53-57 | a valid envelope is nacked for ever if and only if its message id is blank |
| `Scrubber.StructuralScrubber.ScrubRecursive` | services/ingestion-gateway/internal/queue/scrubber.go:41-56 | the recursive rewrite in place turns the document into `Scrub` of its value, even with shared sub-objects, changing only entries under sensitive keys |
| `Scrubber.StructuralScrubber.ScrubFields` | services/ingestion-gateway/internal/queue/scrubber.go:43-50 | the loop over one object, in any order of its keys |
| `Scrubber.StructuralScrubber.ScrubDocument` | services/ingestion-gateway/internal/queue/scrubber.go:25-32 | the same for a freshly decoded document |
| `Scrubber.ScrubbedAtClean` | services/ingestion-gateway/internal/queue/scrubber.go:41-56 | scrubbing commutes with following any path that meets no sensitive key |
| `Scrubber.CleanPathsKeepTheirValues` | services/ingestion-gateway/internal/queue/scrubber.go:41-56 | off the sensitive keys, values, key sets and array lengths are unchanged |
| `Scrubber.SensitiveKeysAreRedacted` | services/ingestion-gateway/internal/queue/scrubber.go:58-66 | every sensitive key at any depth maps to the marker, with nothing below it |
| `Scrubber.IsSensitiveIff` | services/ingestion-gateway/internal/queue/scrubber.go:58-66 | a key is sensitive if and only if some field equals it up to the case of the key |
| `Scrubber.FieldWorksIff` | services/ingestion-gateway/internal/queue/scrubber.go:58-66 | a configured field can match some key if and only if it has no upper-case letter: keys are lowered, fields are not |
| `Scrubber.DefaultsAreReplaced` | services/ingestion-gateway/internal/queue/scrubber.go:13-23 | the default fields count exactly when none are given |
| `Scrubber.ScrubIdempotent` | services/ingestion-gateway/internal/queue/scrubber.go:41-56 | scrubbing twice is scrubbing once |
| `ReplayAudit.FileStore.Save` | services/ingestion-gateway/internal/replayaudit/file_store.go:88-146 | rejects exactly input with a blank event id, actor, mode or result, unchanged; otherwise appends the record, every text field trimmed |
| `ReplayAudit.FileStore.List` | services/ingestion-gateway/internal/replayaudit/file_store.go:148-230 | filter, sort and cursor page together give `Listing`, whose order, contents and errors are `PageIsOrdered`, `SelectedIff` and `ListFailsIff` |
| `ReplayAudit.PageIsOrdered` | services/ingestion-gateway/internal/replayaudit/file_store.go:283-298 | every page of a blank or "desc" query is newest first, of an "asc" query oldest first, by time and then by id; at most limit records |
| `ReplayAudit.OrderOfQuery` | services/ingestion-gateway/internal/replayaudit/file_store.go:243-268 | blank or "desc" in any case is descending, "asc" ascending, anything else or a limit below one an error |
| `ReplayAudit.SelectedIff` | services/ingestion-gateway/internal/replayaudit/file_store.go:270-281 | exactly the records of the log whose given filters match up to case and surrounding blanks |
| `ReplayAudit.SavedIsFound` | services/ingestion-gateway/internal/replayaudit/file_store.go:270-281 | a saved record is selected by a query for the actor, result and event id it was saved with |
| `ReplayAudit.ListFailsIff` | services/ingestion-gateway/internal/replayaudit/file_store.go:148-230 | List fails exactly for a limit below one, an unknown order, or a cursor that names no selected record |
| `ReplayAudit.MissingFileIsEmpty` | services/ingestion-gateway/internal/replayaudit/file_store.go:155-165 | without a file a proper query finds nothing and has no more, whatever its cursor |
| `ReplayAudit.FileStore.PageOf` | services/ingestion-gateway/internal/replayaudit/file_store.go:196-229 | the search for the cursor and the slice that follows it |
| `ReplayAudit.SortSorts` | services/ingestion-gateway/internal/replayaudit/file_store.go:283-298 | on distinct ids the listing order is total, and sorting permutes |
| `ReplayAudit.SortIsDetermined` | services/ingestion-gateway/internal/replayaudit/file_store.go:283-298 | any sorted arrangement of the same records is the same list |
| `ReplayAudit.AppendedAbove` | services/ingestion-gateway/internal/replayaudit/file_store.go:283-298 | records appended above all others come first in a descending and last in an ascending list |
| `ReplayAudit.WalkIsExact` | services/ingestion-gateway/internal/replayaudit/file_store.go:194-229 | on the ordered lists, following cursors while records are appended visits exactly the records of one moment, none twice, and ends |
| `ReplayAudit.BrowsingIsExact` | services/ingestion-gateway/internal/replayaudit/file_store.go:148-230 | the same for the calls of List that a client makes with the cursors it gets back: descending the first call's records, ascending the last call's |
| `ReplayAuditPostgres.PostgresStore.Save` | services/ingestion-gateway/internal/replayaudit/postgres_store.go:54-89 | appends the row unless its id is taken |
| `ReplayAuditPostgres.PostgresStore.List` | services/ingestion-gateway/internal/replayaudit/postgres_store.go:91-190 | the page fetched with filter, key condition and limit plus one is the first page of what lies past the cursor in the full list, whose order and contents are `PageIsOrdered` and `FullListIff` |
| `ReplayAuditPostgres.PageIsOrdered` | services/ingestion-gateway/internal/replayaudit/postgres_store.go:119-142 | every page is newest first by default, oldest first for "asc", by time and then by id |
| `ReplayAuditPostgres.FullListIff` | services/ingestion-gateway/internal/replayaudit/postgres_store.go:103-118 | exactly the rows whose given filters are equal |
| `ReplayAuditPostgres.SelectIsPast` | services/ingestion-gateway/internal/replayaudit/postgres_store.go:103-142 | selecting past the cursor and sorting is looking past the cursor in the sorted list |
| `ReplayAuditPostgres.PagesAgree` | services/ingestion-gateway/internal/replayaudit/postgres_store.go:119-189 | List gives the page from position 0 without a usable cursor, also of an empty list, and from position i+1 for the key of record i |
| `ReplayAuditPostgres.StoresPageAlike` | services/ingestion-gateway/internal/replayaudit/postgres_store.go:119-189 | on the same list the file store's paging gives the same pages |
| `ReplayAuditPostgres.KeyBrowsingIsExact` | services/ingestion-gateway/internal/replayaudit/postgres_store.go:91-190 | a client following the key cursors while rows with higher keys are inserted sees exactly the records of the first call (descending) or the last call (ascending), and comes to an end |
| `ReplayAuditPostgres.KeyBrowsingNeverRepeats` | services/ingestion-gateway/internal/replayaudit/postgres_store.go:119-126 | whatever is inserted, changed or deleted between the pages, keys come in strict order and none twice |

## Left out

- Input and output: HTTP, JSON decoding and encoding, file system calls, SQL text, the Pub/Sub and Redis clients, telemetry, logging. A log file is the sequence of its decoded records (lines that do not decode are skipped by the code and are not there; re-encoding may compact a body); Redis and Postgres calls are atomic steps whose request or reply may be lost.
- Context cancellation and I/O errors inside the stores; the retry pass does model cancellation between events. That a pass ends when its 30 s context does is an assumption of `Lease`.
- Random ids, payload hashes, regular expressions, secret redaction in text, signatures.
- Clock reads taken before the mutex (the duplicate filter, the memory limiter's caller, `Save` of the audit stores) are placed in the order in which the mutex serialises the calls.
- Floating-point rounding of ratios and of the backoff, and overflow of the backoff for huge counts.
- The SHA-256 digest in the Redis rate-limit key is taken to be injective, and the Redis server's clock to be the caller's.
- `strings.ToLower` and `strings.EqualFold` are exact wherever the lower-case result is ASCII; other case folding is not modelled, so custom scrub fields and audit filters outside ASCII are not covered.
- `sort.Slice` is replaced by one particular sorting; on distinct ids `ReplayAudit.SortIsDetermined` shows that no other result is possible.
- Panicking hooks; a panic of the inner publisher is one of its failures.
- The `AsyncQueue`, `Ledger` and contended `Bulkhead` results are about values of one transition system: workers and callers are counted, not named, and aliasing of the channel between goroutines is not part of it. Failure statistics may be anything at an admission check there; `AsyncPublisher` ties them to the recorded outcomes.
- AsyncPublisher.Publisher.Publish: without contention only; the gap between snapshot and send, and an unbuffered queue with a waiting worker, are in `AsyncQueue`.
- Bulkhead.BulkheadPublisher.Publish: without contention only; `Bulkhead.GateDecidesIff` says what two different depths change.
- AsyncQueue.NoPanicIff: `quiesced` is a hypothesis. The server stops the scheduler and waits for its handlers before it closes the queue, but gives the handlers ten seconds only (main.go:661-666); a handler that takes longer may overlap the closing.
- FailStore.SaveRefinesInsert: with repeated ids the store is not a map, because GetByID and UpdateRetryCount use the first record and ListRecent shows the newest; for such logs the listing and the records of one id (`FailStore.EndsOfRecords`, `FailStore.OwnRecordsAfterUpdate`) are proved instead.
- RetryScheduler.RetryBound: one active scheduler, store writes that succeed, and no new save of the id; `RetryScheduler.RetriesBoundedIff` covers ids with several records. Publish is a synchronous success or failure there; `Ledger` has the version in which it only enqueues.
- Ledger.LedgerHolds: assumes that saves succeed (the store rejects bodies that are not JSON) and that the failed-event store only appends. The expiry of filter entries may happen at any time.
- ReplayAudit.BrowsingIsExact: assumes distinct, trimmed ids and that records saved between two calls have keys above all existing ones; the random ids and clocks that provide this are not modelled.
- ReplayAuditPostgres.KeyBrowsingIsExact: assumes that rows inserted between two calls have keys above all existing ones; `KeyBrowsingNeverRepeats` needs nothing of the kind. The text form of the cursor is read back as the key it was made from, and ids compare as Go strings do.
- ReplayAuditPostgres.StoresPageAlike: compares the two ways of paging on one list; the filters themselves differ (the file store trims and ignores case, Postgres does not).
- Start and Stop of the scheduler, the ticker, and fairness of goroutine scheduling.
- Bulkhead events for the soft limit, per-publish hooks, health checks, and a queue created after the bulkhead was closed.
- The Postgres failed-event store, the admin and UI handlers, the Pub/Sub publisher, configuration and its watcher, JWT and signature checks: long lists of branches without a property over runs.
