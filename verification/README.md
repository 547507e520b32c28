# InferiaLLM request path: admission control, caching, configuration and recovery

A Dafny model of the parts of InferiaLLM where many requests, workers or crashes meet the same state, with proofs about
whole runs. Each component is a module of its own. Where the program updates an object in place, the model is a class
whose methods are proved against functions on values; the theorems then quantify over all sequences of calls or over all
interleavings of the steps between two suspension points.

| module | component |
|---|---|
| `Basics`, `TtlCache` | options; the time-to-live cache that several components share |
| `SingleFlight`, `ContextCache`, `ContextFlags` | the data plane's gateway client, context resolution across both services, and its sandbox flag |
| `DataPlaneBucket`, `GatewayBucket` | the two token buckets, and the step that turns a wait into `Retry-After` |
| `SlidingWindow`, `FixedWindow` | the Redis sliding window shared by workers; the fixed window with blocking |
| `ConcurrencyLimiter`, `CircuitBreaker` | in-flight limits with expiring semaphores; the circuit breaker |
| `Quota` | daily quotas checked and tracked at different times |
| `Credentials`, `ConfigMerge`, `ConfigMask`, `ConfigView` | credential lists, the configuration merge, the masked configuration view and what it reveals |
| `PyText`, `EnvFile` | Python's text functions; the `.env` renderer and parser |
| `Migrations` | the migration runner, which can die between any two effects |

Time is real-valued and never goes back; one lookup reads the clock once. Caches hold fewer live keys than their
maximum size. Redis pipelines, database statements and lock bodies are atomic.

## Findings

- **Single flight.** Cancelling any caller of a running fetch cancels the fetch, because it is awaited without a shield,
  so every other caller of that key returns cancelled too (`CancellationSpreads`).
- **Sandbox flag.** Neither the cache keys nor the in-flight key contain the flag. Every answer is computed for its
  caller's flag if and only if no key is used with both flags (`OwnFlagIff`); since the engine looks at the flag only for
  keys that start with `sandbox:`, every answer is right if and only if none of those is (`OwnAnswerIff`).
- **Token bucket.** A first call is admitted whatever it costs. So over all runs, dropping idle buckets is invisible if and
  only if costs fit their limits (`ExpiryInvisibleIffCostFits`); and costs up to `m` keep the window bound, agree with the
  gateway's bucket and get exact waits if and only if `m` is within the limit (`WindowBoundIff`, `TwoBucketsAgreeIff`,
  `ExactWaitIff`).
- **Sliding window.** Members are timestamps. Two pipelines at one instant share a member, so both can be admitted as the
  last one under the limit (`SharedInstantOverruns`), and the undo of one can remove the member of the other
  (`UndoTakesAdmitted`). The limit, the refusals and the set are exact if and only if there is at most one pipeline per
  instant (`WindowLimitIff`, `RefusalsIff`, `QuiescentIff`).
- **Fixed window.** Twice the limit bounds each window-long interval if and only if the limit is positive and the block lasts
  at least the window, or half of it under a limit of one (`TwiceTheLimitIff`). A limit of zero or less still admits one
  request per window and no more (`ZeroAdmitsOne`, `OnePerWindow`). `cleanup` is invisible if and only if the limit is
  positive and the block lasts exactly the window (`CleanupInvisibleIff`).
- **Circuit breaker.** The comment at `src/common/circuit_breaker.py:101-102` speaks of one trial request; the code admits
  every caller while half-open (`HalfOpenAdmitsEveryone`). The model follows the code. A threshold below one acts as one.
- **Quota.** A check fixes its day before its lookups, and reads the request counter and the token counter in two awaits.
  The overshoot is bounded by the requests that have read a count under the limit and are not tracked, plus the reads made
  for an earlier day (`OvershootBound`); without the latter term if and only if there are no such reads
  (`InFlightBoundIff`); and by the admitted and untracked requests alone if and only if, besides, nothing is tracked while
  a check is between its reads (`AdmittedBoundIff`).
- **Merge.** Saving a tree twice equals saving it once, whatever is stored, if and only if every credential list in it has
  distinct ids and no item with a missing provider or name has a colon in the other one (`IdempotentIff`). A duplicate id
  is stored raw when the list is new and collapses on the second save; an ambiguous id can rename the stored credential.
  A single save keeps every stored credential if and only if what each incoming item leaves out is blank in the stored
  credential of its id (`KeptIff`, `IdKeptPairwise`), so a key without a provider may have a colon in its name.
- **Delete.** The legacy delete route goes through the merging save, so the key it deletes stays (`DeleteBySavingKeepsKey`).
- **Masked view.** Posting it back leaves the row alone if and only if no credential list repeats an id and every non-empty
  Hugging Face token equals the last one of its name (`MaskedRoundTripIff`); the settings allow two tokens of one name, and
  the guard then gives both the last one.
  The view reveals nothing but the places where secrets are empty and the first and last four characters of three kinds of
  keys (`ViewsEqualIff`); of those, a text of fewer than eight characters is shown whole.
- **Migrations.** Interrupted runs followed by a complete one end like a single run if and only if replaying any partly
  executed file is harmless (`RestartsConvergeIff`).

## Model

| member | source | states |
|---|---|---|
| `TtlCache.PutThenGet` | src/inference/core/rate_limiter.py:24-24 | Purging expired entries on a write is invisible: only the written key answers differently afterwards |
| `SingleFlight.RunInv` | src/inference/client.py:107-122 | Every schedule keeps the invariant: the lock is held only by the running caller, running tasks are the ones in the map, owners and joiners stay attached to their task; tasks keep key, owner and outcome |
| `SingleFlight.AtMostOneFetch` | src/inference/client.py:368-375 | In every schedule of callers, failures and cancellations, two running fetches of one key are the same fetch |
| `SingleFlight.LockFreeAtSuspension` | src/inference/client.py:107-112 | Whenever no caller runs, the lock is free and no caller waits for it, so the cleanup never suspends |
| `SingleFlight.ReturnedOutcome` | src/inference/client.py:377-379 | Every returned caller got the final outcome of a task of its own key, or its own cancellation when it was cancelled after the fetch had finished |
| `SingleFlight.RemovedByOwner` | src/inference/client.py:380-384 | The only step that removes or changes an entry is the cleanup of that task's owner, after the fetch finished; it removes that entry and no other |
| `SingleFlight.NoStaleEntry` | src/inference/client.py:114-122 | At every suspension, the owner of each task in the map is still waiting: no finished task stays once its owner has resumed |
| `SingleFlight.NothingLeft` | src/inference/client.py:107-122 | When all callers have returned or given up, the map is empty and no task is running |
| `SingleFlight.CancellationSpreads` | src/inference/client.py:377-384 | After one caller of a running task is cancelled, every caller of that task that returns, returns cancelled |
| `SingleFlight.CallerCanReturn` | src/inference/client.py:377-384 | From every reachable suspension, whatever a fetch ends with, each caller waiting for it has a schedule in which it returns exactly that |
| `ContextCache.ApiGatewayClient.Enter` | src/inference/client.py:364-375 | A live cached answer is returned and nothing changes; otherwise the caller joins the fetch of its key or registers a new one as its owner |
| `ContextCache.ApiGatewayClient.Cleanup` | src/inference/client.py:380-384 | The entry goes only if it still names the given task |
| `ContextCache.ApiGatewayClient.CheckNegativeCache` | src/inference/client.py:72-81 | Refuses exactly when a failure of the key is less than five seconds old; an older record is deleted, other keys are untouched |
| `ContextCache.ApiGatewayClient.Received` | src/inference/client.py:402-413 | Stores the answer exactly when it is valid |
| `ContextCache.RunInv` | src/inference/client.py:353-429 | Every interleaving keeps every cached, answered, received and returned value within its age bound and equal to what a database lookup gave |
| `ContextCache.BoundedStaleness` | src/inference/client.py:364-413 | In every interleaving, a returned answer is what a lookup gave that began at most gateway lifetime + lookup delay + reply delay + client lifetime earlier (wake-up delay instead of the client lifetime when it was not cached) |
| `ContextCache.InvalidNeverStored` | src/inference/client.py:409-411 | No reachable state has an invalid answer in the data plane's or the gateway's cache |
| `ContextCache.OneFetchPerKey` | src/inference/client.py:368-375 | At most one fetch of a key is running in the combined system |
| `ContextCache.CallHitsIff` | src/inference/client.py:364-366 | In every run, a call is answered at once exactly when the latest valid answer for its key arrived less than the lifetime ago, and by that answer; otherwise it goes on to the in-flight map |
| `ContextCache.GatewayHitsIff` | src/api_gateway/policy/engine.py:208-222 | The same for the gateway's cache and its ten seconds, between answering and going to the database |
| `ContextFlags.OwnFlagAnswered` | src/api_gateway/policy/engine.py:208-222 | In every run over a set of calls, the flag an answer was computed for occurs with its key in that set; it is the caller's own when the key occurs with one flag |
| `ContextFlags.JoinerGetsOtherFlag` | src/inference/client.py:364-375 | Builds a run in which a caller joins a fetch made for the other flag and returns its answer |
| `ContextFlags.OwnFlagIff` | src/inference/client.py:364-375 | Over all runs with calls from a given set, every answer was computed for its caller's flag if and only if no key occurs with both flags |
| `ContextFlags.OwnAnswerIff` | src/api_gateway/policy/engine.py:208-222 | Over all databases that look at the flag only for `sandbox:` keys: every answer is what a lookup with the caller's own flag gave, in all runs over a set of calls, if and only if no `sandbox:` key occurs with both flags |
| `ContextCache.PostsAvoidFailures` | src/inference/client.py:72-85 | After a connection failure for a key, every later post for that key comes at least five seconds after it, in every interleaving |
| `ContextCache.StartRefusedIff` | src/inference/client.py:72-81 | In every run, a fetch is refused at once exactly when a connection failure of its key was logged less than five seconds before; otherwise it posts |
| `DataPlaneBucket.TokenBucketLimiter.CheckLimit` | src/inference/core/rate_limiter.py:26-63 | The decision, the wait and the new cache are those of the decision function on the old cache; a denial writes nothing |
| `DataPlaneBucket.InvisibleExpiry` | src/inference/core/rate_limiter.py:24-63 | For every call sequence with fitting costs, even with changing limits, the expiring cache and a map that never forgets give the same decisions and waits |
| `DataPlaneBucket.ExpiryInvisibleIffCostFits` | src/inference/core/rate_limiter.py:40-63 | For every set of limits and costs: expiry is invisible in all runs over the set if and only if every cost in it fits its limit |
| `DataPlaneBucket.OversizedCostForgotten` | src/inference/core/rate_limiter.py:40-63 | For every cost above the limit, two calls 120 s apart tell the two maps apart |
| `DataPlaneBucket.WindowBound` | src/inference/core/rate_limiter.py:40-63 | For a fixed limit and costs of the key within it, whatever other keys do and cost, the cost admitted for the key in any [s,t] is at most rpm + rpm·(t−s)/60 |
| `DataPlaneBucket.WindowBoundIff` | src/inference/core/rate_limiter.py:40-63 | Over all runs in which the key's calls cost at most m, every window keeps that bound if and only if m is within the limit |
| `DataPlaneBucket.EarnedIsAdmitted` | src/inference/core/rate_limiter.py:40-63 | In every run, whatever other keys do, a call within the limit at least 60·cost/rpm seconds after the earlier ones of its key is admitted |
| `DataPlaneBucket.ExactWait` | src/inference/core/rate_limiter.py:59-63 | After a denial of a cost within the limit, whatever other keys do, repeating the call is admitted if and only if the reported wait has passed |
| `DataPlaneBucket.ExactWaitIff` | src/inference/core/rate_limiter.py:59-63 | That holds after every denial of a cost up to m if and only if m is within the limit |
| `DataPlaneBucket.CheckRateLimit` | src/inference/core/pipeline.py:79-98 | The policy is recorded when active; a rejection carries a whole number of seconds that is always long enough and less than one second too long; otherwise the call is the bucket's own |
| `GatewayBucket.TokenBucket.Consume` | src/api_gateway/gateway/rate_limiter.py:39-51 | Refills to the clock and takes the tokens exactly when there are enough |
| `GatewayBucket.TokenBucket.DoRefill` | src/api_gateway/gateway/rate_limiter.py:53-58 | Adds elapsed time times rate, capped at the capacity, and stamps the clock |
| `GatewayBucket.InMemoryRateLimiter.GetBucket` | src/api_gateway/gateway/rate_limiter.py:69-77 | Returns the live bucket of the key or installs a full one; no other bucket changes |
| `GatewayBucket.InMemoryRateLimiter.IsAllowed` | src/api_gateway/gateway/rate_limiter.py:79-94 | The verdict and all levels follow from the old levels; the remaining count is the floor of the tokens left |
| `GatewayBucket.TwoBucketsAgree` | src/api_gateway/gateway/rate_limiter.py:39-58 | On every non-decreasing call sequence of a key with costs within the limit, the lazy expiring bucket and the eager one of the same capacity and rate admit the same calls |
| `GatewayBucket.TwoBucketsAgreeIff` | src/api_gateway/gateway/rate_limiter.py:39-58 | They agree on all sequences with costs up to m if and only if m is within the limit |
| `GatewayBucket.ReplacementBound` | src/api_gateway/gateway/rate_limiter.py:64-86 | Although a bucket is replaced by a full one every 120 s, any run admits at most burst·(⌊(t−s)/120⌋+2) + rpm/60·(t−s) requests of a key in [s,t] |
| `GatewayBucket.FirstBurst` | src/api_gateway/gateway/rate_limiter.py:64-86 | Of any number of requests at one instant, a client without a live bucket has exactly the first burst admitted |
| `GatewayBucket.SpacedIsAdmitted` | src/api_gateway/gateway/rate_limiter.py:39-86 | In every run and across replacements, a request at least 60/rpm seconds after the earlier ones of its key is admitted |
| `SlidingWindow.Redis.ReservePipeline` | src/inference/core/rate_limiter.py:88-95 | One atomic pipeline purges the key's set, adds the timestamp and returns the count; other keys are untouched |
| `SlidingWindow.CheckLimit` | src/inference/core/rate_limiter.py:75-103 | Alone, admits exactly when the last 60 s with the new timestamp fit the limit; a denial leaves only the purge; the wait is 60/rpm |
| `SlidingWindow.RunInv` | src/api_gateway/gateway/rate_limiter.py:109-141 | With one pipeline per instant, every interleaving keeps the shared set equal to the recent timestamps that are admitted or not yet undone |
| `SlidingWindow.DeniedIffFull` | src/inference/core/rate_limiter.py:83-103 | With one pipeline per instant, a request is refused exactly when admitted plus not yet undone requests of the last 60 s fill the limit |
| `SlidingWindow.QuiescentSet` | src/inference/core/rate_limiter.py:83-103 | With one pipeline per instant, once all undos have run the set is exactly the admitted timestamps of the last window |
| `SlidingWindow.WindowLimit` | src/inference/core/rate_limiter.py:83-103 | With one pipeline per instant, however undos interleave with other workers' pipelines, no half-open 60 s window has more than rpm admitted requests |
| `SlidingWindow.WindowLimitIff` | src/inference/core/rate_limiter.py:83-103 | For every limit of one or more: all runs with at most m pipelines at an instant keep every window if and only if m is at most one |
| `SlidingWindow.SharedInstantOverruns` | src/inference/core/rate_limiter.py:88-98 | For every limit, a run in which two pipelines at one instant share a member and are both admitted over it |
| `SlidingWindow.RefusalsIff` | src/inference/core/rate_limiter.py:88-103 | Refusals are exact in all runs with at most m pipelines at an instant if and only if m is at most one |
| `SlidingWindow.UndoTakesAdmitted` | src/inference/core/rate_limiter.py:88-101 | A run in which the late undo of a denied request removes the member of a request admitted at the same instant |
| `SlidingWindow.QuiescentIff` | src/inference/core/rate_limiter.py:83-103 | The set is exact after all undos, in all runs with at most m pipelines at an instant, if and only if m is at most one |
| `FixedWindow.RateLimiter.IsAllowed` | src/common/rate_limit.py:43-82 | Verdict, retry time and the key's new entry follow from the old entry; other keys are untouched |
| `FixedWindow.RateLimiter.Cleanup` | src/common/rate_limit.py:84-94 | Sweeps exactly the entries whose block has ended or whose window opened more than two windows ago |
| `FixedWindow.TwiceTheLimit` | src/common/rate_limit.py:52-94 | With a positive limit and a block at least as long as the window, no window-long interval of any run admits more than twice the limit, wherever cleanup runs |
| `FixedWindow.TwiceTheLimitIff` | src/common/rate_limit.py:52-94 | For every limit, twice the limit bounds every window-long interval of every run if and only if the limit is positive and the block lasts at least the window, or half of it under a limit of one |
| `FixedWindow.OnePerWindow` | src/common/rate_limit.py:52-94 | Under a limit of zero or less, no window-long interval of any run admits more than one request, for any block |
| `FixedWindow.ZeroAdmitsOne` | src/common/rate_limit.py:52-82 | Under every limit of zero or less, a request after the window and the block of a refused one is admitted |
| `FixedWindow.CleanupKeepsNextVerdict` | src/common/rate_limit.py:84-94 | With a positive limit and a block at least as long as the window, sweeping an entry that is not blocked does not change the next verdict or the entry it leaves |
| `FixedWindow.SweepsHarmlessIff` | src/common/rate_limit.py:84-94 | That holds for all such entries if and only if the limit is positive and the block lasts at least the window |
| `FixedWindow.CleanupInvisibleIff` | src/common/rate_limit.py:43-94 | Sweeps change no verdict and no reported wait of any run if and only if the limit is positive and the block lasts exactly the window |
| `FixedWindow.BlockHolds` | src/common/rate_limit.py:52-94 | A blocked key is refused until its block ends, unless a sweep comes more than two windows after the window opened |
| `FixedWindow.WindowAdmits` | src/common/rate_limit.py:52-82 | In a window that a key opens, whatever other keys do and for any block, exactly its first requests up to the limit are admitted |
| `FixedWindow.RestedIsAdmitted` | src/common/rate_limit.py:52-94 | Whatever happened before, sweeps included, a client that has rested for window and block is admitted |
| `FixedWindow.RefusalTells` | src/common/rate_limit.py:52-82 | The seconds told with a refusal are the whole seconds until the block ends |
| `ConcurrencyLimiter.Semaphore.AcquireOrTimeout` | src/inference/core/concurrency_limiter.py:48-58 | Takes one permit exactly when one is free, else leaves the semaphore alone |
| `ConcurrencyLimiter.UpstreamConcurrencyLimiter.GetOrCreate` | src/inference/core/concurrency_limiter.py:35-46 | No semaphore without a limit; otherwise the live one, or a new full one that replaces an expired one |
| `ConcurrencyLimiter.UpstreamConcurrencyLimiter.Enter` | src/inference/core/concurrency_limiter.py:61-79 | Admits exactly when every semaphore in force has a free permit; an admission took one from each, a refusal has given everything back |
| `ConcurrencyLimiter.UpstreamConcurrencyLimiter.Exit` | src/inference/core/concurrency_limiter.py:80-84 | Every permit taken goes back to the semaphore object it came from |
| `ConcurrencyLimiter.PermitsConserved` | src/inference/core/concurrency_limiter.py:35-84 | In every interleaving with timeouts, exceptions and cancellation, free permits plus holders equals the limit, for the global semaphore and every generation |
| `ConcurrencyLimiter.RoomIsUsed` | src/inference/core/concurrency_limiter.py:61-79 | In every reachable state, a new request can reach its body when fewer than the global limit and fewer than the deployment's limit hold the semaphores in force |
| `ConcurrencyLimiter.AllLeft` | src/inference/core/concurrency_limiter.py:80-84 | When every request has left, every permit is free |
| `ConcurrencyLimiter.GlobalBound` | src/inference/core/concurrency_limiter.py:61-79 | Never more requests in flight than a positive global limit |
| `ConcurrencyLimiter.DeploymentBound` | src/inference/core/concurrency_limiter.py:35-84 | In flight for a deployment is at most its limit times the generations that still have holders |
| `ConcurrencyLimiter.ShortRequestsBound` | src/inference/core/concurrency_limiter.py:35-84 | If requests leave within 300 s of fetching their semaphore, at most twice the limit is in flight |
| `CircuitBreaker.CircuitBreaker.CanExecute` | src/common/circuit_breaker.py:82-102 | Admits unless open with a recent failure; an open breaker that admits turns half-open |
| `CircuitBreaker.CircuitBreaker.RecordSuccess` | src/common/circuit_breaker.py:104-113 | Resets the count, and closes a half-open breaker |
| `CircuitBreaker.CircuitBreaker.RecordFailure` | src/common/circuit_breaker.py:115-131 | Counts and stamps the failure, and opens at the threshold or when half-open |
| `CircuitBreaker.Registry.GetOrCreate` | src/common/circuit_breaker.py:175-190 | One breaker per name for good; a new one starts closed with the given configuration |
| `CircuitBreaker.RunInv` | src/common/circuit_breaker.py:82-131 | With any overlap of calls, the count is the trailing run of failures, a closed breaker is below the failures needed (the threshold, or one if that is less), any other one remembers the latest failure |
| `CircuitBreaker.LeavesClosedIff` | src/common/circuit_breaker.py:115-131 | For every threshold, the breaker leaves closed exactly when a failure completes the consecutive recorded failures needed |
| `CircuitBreaker.RefusedIffRecentFailure` | src/common/circuit_breaker.py:82-102 | A start is refused exactly while open and within the recovery timeout of the latest recorded failure |
| `CircuitBreaker.LeavesOpenOnlyAfterRecovery` | src/common/circuit_breaker.py:82-102 | Open turns half-open only at a start at least the recovery timeout after the latest failure, and never closes directly |
| `CircuitBreaker.LeavesHalfOpen` | src/common/circuit_breaker.py:104-131 | In every run, a half-open breaker closes, as good as new, exactly when a success is recorded, opens exactly when a failure is, and otherwise stays half-open |
| `CircuitBreaker.FirstFailureAfterSuccess` | src/common/circuit_breaker.py:104-131 | In every run, the failure after a success counts as the first: the breaker stays closed exactly when the threshold is above one |
| `CircuitBreaker.HalfOpenAdmitsEveryone` | src/common/circuit_breaker.py:82-102 | For every threshold, timeout and n, a run from a new breaker after which it is half-open with n calls in flight that all started since the last outcome |
| `CircuitBreaker.HalfOpenStays` | src/common/circuit_breaker.py:101-102 | Until an outcome is recorded, a half-open breaker admits every start and stays as it is |
| `Quota.PolicyEngine.IncrementRedisOnly` | src/api_gateway/policy/engine.py:479-511 | One more request and its tokens on that user, day and model; every other counter is unchanged |
| `Quota.KeysDiffer` | src/api_gateway/policy/engine.py:369-371 | The keys of one user and model tell days and counters apart |
| `Quota.RunInv` | src/api_gateway/policy/engine.py:360-511 | Every interleaving of checks that fix their day, look up, read twice and decide, of trackings that fix their day and count, and of midnights keeps counted plus due requests of every day within the bound |
| `Quota.OvershootBound` | src/api_gateway/policy/engine.py:367-511 | In every interleaving, the requests counted for a day are at most limit − 1, plus the peak number that had read a count under the limit and were not tracked, plus the reads made that day by checks begun on an earlier day |
| `Quota.InFlightBoundIff` | src/api_gateway/policy/engine.py:367-465 | For every limit: without the last term the bound holds in all runs with at most s such late reads a day if and only if s is zero |
| `Quota.StaleReaderOverruns` | src/api_gateway/policy/engine.py:367-465 | For every limit, a run in which one check begun yesterday passes after today's limit is used up |
| `Quota.AdmittedBound` | src/api_gateway/policy/engine.py:424-511 | When nothing is tracked while a check is between its two reads and no check reads for an earlier day, the peak of admitted and untracked requests bounds the overshoot |
| `Quota.AdmittedBoundIff` | src/api_gateway/policy/engine.py:424-511 | For every limit: that bound holds in all runs with at most m checks between their reads at a tracking and at most s late reads a day if and only if both are zero |
| `Quota.NothingAdmitted` | src/api_gateway/policy/engine.py:424-442 | A limit of zero or less admits and counts nothing |
| `Quota.TalliesAre` | src/api_gateway/policy/engine.py:478-508 | Whatever interleaves, the tallies of a day are the requests tracked under it and the sum of their tokens |
| `Quota.AdmittedIff` | src/api_gateway/policy/engine.py:424-465 | In every run, a check admits exactly when fewer requests than the limit had been tracked for its day at its first read and fewer tokens than the limit at its second |
| `Quota.OvershootReached` | src/api_gateway/policy/engine.py:461-465 | For every limit and n, a run that counts limit − 1 + n with n in flight at most and never more than one admitted and untracked: the in-flight bound is met with equality |
| `Credentials.MergeItemTwice` | src/api_gateway/management/config_manager.py:147-158 | Merging an item into a credential twice equals once; merging it into itself changes nothing |
| `Credentials.RobustKeepsId` | src/api_gateway/management/config_manager.py:138-139 | An item without an ambiguous colon keeps the id of the credential it is merged into |
| `Credentials.FragileRenames` | src/api_gateway/management/config_manager.py:138-158 | For every other item there is a stored credential of the same id that the merge renames |
| `Credentials.CredentialIds` | src/api_gateway/management/config_manager.py:141-163 | For robust incoming items, the merged ids are those of both lists in order of first occurrence; the stored ones come first and keep their order |
| `Credentials.IdsKeptIff` | src/api_gateway/management/config_manager.py:138-163 | For all lists, the merged list starts with the stored ids in order if and only if, for every stored credential, the latest incoming provider and name of its id spell that id |
| `Credentials.IdKeptPairwise` | src/api_gateway/management/config_manager.py:138-158 | With unique incoming ids: a stored credential keeps its id if and only if what the incoming item leaves out is blank in it |
| `Credentials.MergedIds` | src/api_gateway/management/config_manager.py:138-163 | For all lists, renames and duplicates included, the ids of the merged list are what the latest provider and name of each slot spell, slots in order of first occurrence |
| `Credentials.MatchedItem` | src/api_gateway/management/config_manager.py:141-158 | For all stored lists and unique incoming ids: over the last stored credential of an id, every incoming field is written, except a secret that holds four stars or is the four-dots-four form of the stored one |
| `Credentials.NewCredential` | src/api_gateway/management/config_manager.py:159-163 | An incoming item of a new id is stored as it is, in the slot of its id |
| `Credentials.UnmatchedCredential` | src/api_gateway/management/config_manager.py:141-163 | A stored credential that no incoming item matches stays as it is |
| `Credentials.FragileLoses` | src/api_gateway/management/config_manager.py:138-163 | For every list with unique ids and an ambiguous item, a stored credential that loses its id |
| `Credentials.CredentialsIdempotent` | src/api_gateway/management/config_manager.py:128-163 | With distinct, robust incoming ids, merging a list twice equals once, whatever is stored |
| `Credentials.DuplicatesShrink` | src/api_gateway/management/config_manager.py:141-163 | A list with a repeated id changes when merged with itself |
| `Credentials.RenamedDuplicates` | src/api_gateway/management/config_manager.py:141-163 | After a rename the same incoming list no longer meets its credential and changes the result again |
| `Credentials.MergeIntoItem` | src/api_gateway/management/config_manager.py:147-158 | Every incoming field is written, except a secret that holds four stars or is the four-dots-four form of the stored one |
| `Credentials.MergeCredentialLists` | src/api_gateway/management/config_manager.py:128-163 | The two loops compute the specified merge; with unique ids, every stored credential keeps its place with the fields of the incoming item of its id written over it |
| `ConfigMerge.MergeConfigs` | src/api_gateway/management/config_manager.py:93-126 | The recursive loop gives every key what the per-key rule says and touches no other key |
| `ConfigMerge.MergeOne` | src/api_gateway/management/config_manager.py:98-125 | Objects merge, credential lists merge by id, other lists and values replace, masks are skipped |
| `ConfigMerge.WrittenAt` | src/api_gateway/management/config_manager.py:93-126 | At every path, an incoming value that is neither object nor credential list is what is stored afterwards, unless it is the full mask or the four-dots-four form of the stored text |
| `ConfigMerge.UntouchedAt` | src/api_gateway/management/config_manager.py:93-126 | A path that the incoming tree does not set keeps what is stored there |
| `ConfigMerge.ListsMergedAt` | src/api_gateway/management/config_manager.py:104-115 | Two lists at one path under `api_keys`, `wallets` or `credentials` are merged by id |
| `ConfigMerge.IdempotentIff` | src/api_gateway/management/config_manager.py:40-163 | For every incoming tree: saving it twice equals saving it once, on every stored tree and on an empty row, if and only if its credential lists hold objects with distinct, robust ids |
| `ConfigMerge.UnsoundFails` | src/api_gateway/management/config_manager.py:93-163 | For every other incoming tree, a stored tree on which the second save raises or changes something |
| `ConfigMerge.KeptIff` | src/api_gateway/management/config_manager.py:93-163 | For every stored and incoming tree: untouched keys are unchanged, every stored key stays at every depth and every credential id in order, if and only if objects meet objects, credential lists meet lists and every stored credential keeps its id |
| `ConfigMerge.KeepsAllShapedIff` | src/api_gateway/management/config_manager.py:93-163 | A tree with unique ids keeps all that in every stored tree of its shape if and only if its items are robust |
| `ConfigMerge.CredentialKeptIff` | src/api_gateway/management/config_manager.py:93-163 | For every path: a merge leaves a credential of a stored id there if and only if the tree puts objects, and a list at the end, on the path and some slot of the two lists spells the id |
| `ConfigMerge.StaysStoredIff` | src/api_gateway/management/config_manager.py:40-65 | A stored credential is there after every one of a sequence of saves, those that raise included, if and only if each save that does not raise meets that condition when it comes |
| `ConfigMerge.DeleteBySavingKeepsKey` | src/api_gateway/management/configuration.py:997-1017 | Saving the live settings without a key leaves it stored, whatever else the row holds, when no other live item has its id |
| `ConfigMerge.DeleteBySavingKeepsAll` | src/api_gateway/management/configuration.py:997-1017 | When live settings and row hold the same list with distinct ids, that save leaves every credential stored |
| `ConfigMerge.ConfigManager.SaveConfig` | src/api_gateway/management/config_manager.py:40-65 | The first save stores the tree as it is, later ones merge it; a merge that raises leaves the row alone |
| `ConfigMask.PreserveSecretField` | src/api_gateway/management/configuration.py:88-109 | The guard changes one field only: genuine values pass, masks and blanks become the stored secret, a mask without one is dropped |
| `ConfigMask.PreserveTokenList` | src/api_gateway/management/configuration.py:178-192 | The loops restore masked named tokens from the last stored token of that name and drop those without one |
| `ConfigMask.UpdateProviderConfig` | src/api_gateway/management/configuration.py:280-311 | The row becomes the save of the guarded tree |
| `ConfigMask.Guarded` | src/api_gateway/management/configuration.py:112-197 | Each of the eight scalar secrets ends up as the guard's rule says for its own submitted and stored value |
| `ConfigMask.PostedSecret` | src/api_gateway/management/configuration.py:88-197 | The exact fate of every scalar secret: a genuine text is stored unless it is the four-dots-four form of the stored one, a mask or a blank leaves a stored secret alone, a mask with nothing behind it is dropped |
| `ConfigMask.MaskNeverStored` | src/api_gateway/management/configuration.py:88-109 | No post, not even the first, stores a mask in place of a scalar secret |
| `ConfigMask.PostedTokens` | src/api_gateway/management/configuration.py:178-192 | After a post, the named tokens are the posted ones as the guard leaves them, in their order |
| `ConfigMask.NewToken` | src/api_gateway/management/configuration.py:178-192 | A posted token that is no mask is kept |
| `ConfigMask.MaskedToken` | src/api_gateway/management/configuration.py:178-192 | A masked token becomes that of the last stored entry of its name, and is dropped when that has none |
| `ConfigMask.SecretSurvives` | src/api_gateway/management/configuration.py:88-197 | Whatever is posted, a non-empty stored scalar secret stays or becomes a submitted value that is neither empty nor masked |
| `ConfigMask.SecretOverPosts` | src/api_gateway/management/configuration.py:280-311 | Over any sequence of posts the secret is the first one or one that some post submitted in the clear |
| `ConfigMask.MaskedItemEchoes` | src/api_gateway/management/configuration.py:226-232 | A credential merged with its own masked form is unchanged |
| `ConfigMask.TokensRestoredIff` | src/api_gateway/management/configuration.py:178-192 | For every list of tokens and every stored map: masking and guarding gives the list back if and only if each entry is an object whose non-empty token is the stored one of its name |
| `ConfigMask.MaskedRoundTripIff` | src/api_gateway/management/configuration.py:112-241 | When live settings agree with the stored tree, posting the masked view back leaves the row exactly as it was if and only if no credential list repeats an id and every non-empty named token equals the last one of its name |
| `ConfigView.MaskedIsView` | src/api_gateway/management/configuration.py:200-241 | For every settings tree, the view is the tree with each secret of a table of places masked ("********", or the first and last four characters) and nothing else changed |
| `ConfigView.ViewsEqualIff` | src/api_gateway/management/configuration.py:200-241 | Two settings have the same view if and only if they differ in nothing but non-empty secrets and what stands between the first and last four characters of the partly shown ones |
| `EnvFile.ParseEnvText` | scripts/setup/inferia_setup.py:348-363 | The map holds exactly the keys that some line assigns, each with the value of its last assignment: the inside of a pair of equal quotes, or the text without outer blanks |
| `EnvFile.FileReads` | scripts/setup/inferia_setup.py:348-363 | For every text, key and value: the parsed file gives the key that value if and only if the last line that assigns the key does |
| `EnvFile.LineForms` | scripts/setup/inferia_setup.py:354-362 | The three ways to write a value on a line: bare, in single and in double quotes |
| `EnvFile.MirrorTemplate` | scripts/setup/inferia_setup.py:325-339 | Every template line is mirrored or rewritten, and the set of keys seen is exactly those rewritten |
| `EnvFile.CollectUnseen` | scripts/setup/inferia_setup.py:340-340 | The leftover keys, in order |
| `EnvFile.RenderEnvFromTemplate` | scripts/setup/inferia_setup.py:307-345 | The text is the specified rendering of template and environment |
| `EnvFile.RenderedLine` | scripts/setup/inferia_setup.py:325-339 | Every template line keeps its place: rewritten as `k="v"` if it assigns a key of the environment, unchanged if not, comments included |
| `EnvFile.RenderedLeftover` | scripts/setup/inferia_setup.py:340-345 | The keys that no template line assigns follow below an empty line and a comment, each as `k="v"`, in the order of the environment |
| `EnvFile.PatternAgreesWithParser` | scripts/setup/inferia_setup.py:285-363 | For every line, the renderer's pattern captures a key exactly when the parser reads that key from it |
| `EnvFile.AssignmentReadsBack` | scripts/setup/inferia_setup.py:348-363 | A printed assignment is read back as written and matched under its own key |
| `EnvFile.ParseOfRender` | scripts/setup/inferia_setup.py:307-363 | For every template and printable environment, parsing the rendered text gives the parsed template overlaid with the environment |
| `EnvFile.RenderTwice` | scripts/setup/inferia_setup.py:307-345 | Rendering the result again with the same environment changes nothing |
| `EnvFile.ParseOfRenderFlat` | scripts/setup/inferia_setup.py:297-304 | Parsing the flat rendering gives the environment back |
| `EnvFile.MergePreserve` | scripts/setup/inferia_setup.py:262-277 | Non-empty existing values of the preserved keys win, everything else is as generated |
| `EnvFile.Regenerate` | scripts/setup/inferia_setup.py:369-423 | Regenerating over any file, quoted or not, keeps every non-empty value that its last assignment gives one of the five preserved keys, and gives every other generated key its new value |
| `Migrations.MarkerSplits` | src/cli/init.py:106-140 | Of a text a + "-- @SPLIT@" + b with no earlier marker, the stripped a is executed first and then b as if it were the file |
| `Migrations.NoMarkerWhole` | src/cli/init.py:106-125 | A text without the marker is executed whole, stripped, unless it is blank |
| `Migrations.FileByFile` | src/cli/init.py:100-142 | Files are applied one after the other in the order of the list; a recorded one is skipped |
| `PyText.SplitFirst` | src/cli/init.py:107-107 | The first cut of a split is at the leftmost separator, and the rest is split likewise |
| `PyText.PartsFree` | src/cli/init.py:107-107 | No part of a split holds the separator |
| `PyText.AnyLine` | scripts/setup/inferia_setup.py:351-351 | Every line break ends a line, a carriage return together with the line feed after it |
| `Migrations.Database.ApplyFile` | src/cli/init.py:106-140 | A file's chunks run in order and its record follows, or as many chunks as the run lives for and no record |
| `Migrations.Database.ApplyMigrations` | src/cli/init.py:68-142 | The runner's state after dying at any point is that of the specified run; it finishes exactly when it lives for all pending effects |
| `Migrations.CrashPoints` | src/cli/init.py:79-140 | However often and wherever runs die, the recorded files are a prefix of the list and each had all its chunks executed in order in one go |
| `Migrations.InterruptedThenComplete` | src/cli/init.py:79-140 | With harmless replay, a run cut anywhere followed by a complete one ends like the complete one |
| `Migrations.RestartsConverge` | src/cli/init.py:79-140 | The same for any number of interrupted runs |
| `Migrations.RestartsConvergeIff` | src/cli/init.py:79-140 | Harmless replay is also necessary |
| `Migrations.NothingLeftToDo` | src/cli/init.py:79-140 | After a complete run every file is recorded and a further run changes nothing, wherever it is cut |

## Left out

- HTTP, Redis, Postgres and httpx: only their atomic effect is kept (a pipeline, a reply or failure, a committed chunk).
- JWT, JWKS, Fernet, AES-GCM, bcrypt, TOTP and base64: library code that is not part of this model.
- FastAPI routers, proxies, WebSocket relays, dashboards, CLI parsing and settings classes: they pass values on and keep no state that requests share.
- Eviction by maximum size in the time-to-live caches: all results assume fewer live keys than the maximum.
- Floating-point rounding of times and token counts: arithmetic is over the reals.
- The policy merge of `resolve_context`: the database lookup is an arbitrary function here, so which rate-limit policy wins does not matter.
- The quota-check cache of the data plane and the organisation and policy caches of the gateway: quota checks are modelled at the engine, with fixed limits.
- Redis failures in the quota check, which then lets the request through, the two-day expiry of its counters, and how its limits are looked up.
- The reconciler and the rest of the orchestration server: not part of this model.
- Fairness of semaphores and locks: a waiting request may be overtaken, which only adds runs.
- Pipelines that reach Redis out of timestamp order, and timestamps that differ but print alike: Redis executes in clock order here and a member is its timestamp.
- Credential fields that are not text: a stored secret that is a number, or a name that is a list or object, is not distinguished.
- Credential lists with items that are not objects: the merge raises and the row is unchanged; partial effects are not modelled because there are none before the commit.
- Order of keys inside JSON objects: objects are maps, only credential lists are ordered.
- BoundedStaleness: the lookup's several queries count from the first one; the answer is any function of the instants it began and ended.
- CheckQuota: states the verdict of a check that nothing interleaves with; `OvershootBound` covers the interleavings.
- CheckLimit: the sliding-window method states a call that nothing interleaves with; `WindowLimit` covers the interleavings.
- MaskedRoundTripIff: asks for secrets that are text or null and for credential lists of objects, as the settings model guarantees.
