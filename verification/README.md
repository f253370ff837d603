# A verified model of the distributed rate limiter

A Dafny 4.11 model of the decision engine of the rate limiter and of the machinery that
distributes it, with proofs about all inputs, all runs and all interleavings. `dafny verify
dfyconfig.toml` checks it.

What is modelled, one module per file:

- **The two-region replication simulator.** `MultiRegion` is the discrete-event protocol as a
  function on values, `MultiRegionSim` the loop over two region objects that computes it,
  `MultiRegionRuns` its invariant, `MultiRegionBounds` what every run ends with, `MultiRegionReport`
  what the summary and the log say of it, `MultiRegionExact` the outcome in closed form.
- **The three algorithms.** `Limiters` has them as state transitions, `Algorithms` on the objects
  that the source updates in place. `FixedWindowRuns`, `SlidingLogRuns` and `TokenBucketRuns` say
  what they guarantee over whole runs, `Answers` what `remaining`, `reset_at_ms` and
  `retry_after_ms` mean.
- **The Redis scripts.** `RedisScripts` has a small Redis (counters, sorted sets, hashes, each with
  an expiry) and the scripts as atomic steps on it. `ScriptRuns` proves that they answer like the
  in-memory algorithms although keys expire. `BucketClock` and `MemoryClock` say how far a clock may
  step back before the token buckets of Redis and of memory lose their guarantees.
- **The local fallback limiter.** `Keyed` defines what each key is owed, `Fallback` the object with
  its three dictionaries and evictions, `FallbackRuns` when eviction cannot be noticed,
  `FallbackLimits` how much a sliding log can exceed its limit when it can. `Lifetimes` bounds how long
  the states of this limiter and the keys of Redis live.
- **Many instances.** `RateLimiter` is the evaluation loop with its retries, `Distributed` the
  interleaving of all instances' attempts, `DistributedRuns` the limits that hold together,
  `DistributedRequests` what happens to each request and which limits are tight, `EvaluateRuns`
  the link between loop and interleaving, `ResponseHeaders` what a client may conclude from the numbers
  in any answer of any run.
- **Policies.** `Policies`, `PolicyMatcher` and `PolicyOrder` (selection), `KeyBuilder` and `KeySharing`
  (key strings, and which requests share one), `PolicyAdmin` (rows and versions), `PolicyChanges` (what
  each operation stores, column by column), `PolicySessions` (overlapping sessions), `PolicyCache` and
  `PolicyCacheRuns` (the two caches under any interleaving), `PolicyService` (the service object).
- **All together.** `WholeSystem`: what a stored policy promises, in terms of its own columns, over
  every administration and every run of the instances.

Conventions: times are integer milliseconds. Tokens are counted in units of
1/`window_ms` of a token, so that a request costs `window_ms` units and a millisecond refills
`rate` units; every rounding of the source is then an exact integer one. Set members and policy ids
are fresh, and JSON is the identity.

Hypotheses, where a statement does not say otherwise: the clock that a limiter reads does not go
back (the clocks of Redis and of the instances are independent of each other); policies satisfy
their schema; Redis loses keys only by expiry and by deletion, at any moment from the expiry time
on; instances do not restart. In the cache protocol every load that gets anywhere does so within
`loadMs` of its start.

Where the code does not do what one might expect of it:

- The notice of a region's accept carries the count at delivery, not at sending
  (`app/services/multi_region.py:90-94`). So only the first lag is blind:
  `MultiRegionExact.ExactOversubscription` gives the exact outcome, often far below the general
  bound; `MultiRegionExact.BoundReached` shows when the bound is met.
- The state of a sliding log expires with its oldest event or after the time to live
  (`app/services/local_fallback_limiter.py:110-113`). `FallbackRuns.TransparentExactlyWhenSafe`
  has the exact condition under which that never shows: a limit of one, or a window no longer than
  the time to live. `FallbackLimits.LimitKeptExactlyWhenSafe` has the same condition for the limit
  itself; otherwise up to 2 * limit - 1 requests pass in a window, and no more.
- Keys do not escape the separator (`app/services/key_builder.py:48-60`). `KeySharing.SharedExactly` says
  which requests share a counter when no value contains a colon, `KeySharing.ColonsConfuse` what can
  happen otherwise; `KeySharing.EligibleShow` says why it never happens to requests that a policy matches.
- The in-memory token bucket takes over any time it is given, also an earlier one
  (`app/services/algorithms.py:108`). By `MemoryClock.MemoryBoundedExactly`, its bound on admissions
  survives no step back at all, not even of a millisecond.
- The script does not go back (`app/redis/scripts.py:84-88`), but it sets the expiry of its key from
  the time it reads (`app/redis/scripts.py:105`). By `BucketClock.AdmissionsBoundedExactly` the bound
  on admissions survives steps back up to the length of the window and none longer; by
  `BucketClock.RefillNeverGoesBackExactly` last_refill_ms never decreases for steps back up to the
  time to live of the key and for none longer.
- Policy versions are read, incremented and written back without a lock
  (`app/services/policy_service.py:75-88`). `PolicySessions.CommitKeepsVersionsExactly` has the exact
  condition for one commit, `PolicySessions.OverlappingRunsExactly` for runs of overlapping
  sessions, and `PolicySessions.FlushedValidExactly` the exact condition under which the row that a
  commit leaves satisfies the schema.

## Model

| member | source | states |
|---|---|---|
| MultiRegionSim.PushAll | app/services/multi_region.py:76-80 | the loop that queues a region's requests; none for a negative number |
| MultiRegionSim.ApplyReplication | app/services/multi_region.py:90-94 | a delivered notice raises the other region's observed count to the sender's current count, and changes nothing else |
| MultiRegionSim.ApplyRequest | app/services/multi_region.py:96-128 | a request is decided on the region's own count and what it has observed; the whole new state, queue and log |
| MultiRegionSim.SimulateMultiRegionLimit | app/services/multi_region.py:59-146 | the loop over the region objects computes the specified simulation, with its two error cases, and terminates; what its summary and log mean is in the rows of MultiRegionReport |
| MultiRegionRuns.BlindSpot | app/services/multi_region.py:90-99 | what a deciding region does not know of the other's accepts happened in the last lag milliseconds |
| MultiRegionRuns.StepKeeps | app/services/multi_region.py:86-128 | every event keeps the invariant that ties log, queue and counters: each accept is still queued as a notice or already counted by the other region |
| MultiRegionRuns.RunKeeps | app/services/multi_region.py:86-128 | the invariant holds at the end of every run |
| MultiRegionBounds.InitialSetup | app/services/multi_region.py:76-80 | the initial queue is sorted, holds requests only, and each region's are at the multiples of the spacing |
| MultiRegionBounds.Conservation | app/services/multi_region.py:102-116 | allowed plus blocked is what was sent, each region ends up knowing the other's exact count, stale decisions equal the oversubscription, and the queue never outgrows its initial size |
| MultiRegionBounds.NothingWasted | app/services/multi_region.py:97-116 | every refused request finds the global quota used up, so the total reaches the smaller of limit and requests |
| MultiRegionBounds.OversubscriptionOfAnySchedule | app/services/multi_region.py:86-116 | for any schedule of requests: the limit is exceeded by at most what one region receives within one lag, and by at most the limit |
| MultiRegionBounds.OversubscriptionBound | app/services/multi_region.py:59-146 | oversubscription is at most min(limit, ceil(lag / spacing)), for every limit, lag, request counts and spacing other than 0 |
| MultiRegionBounds.DecisionsInformed | app/services/multi_region.py:97-99 | each logged decision counts its own region exactly, never overestimates, and misses at most the other's accepts of the last lag |
| MultiRegionBounds.NoLagNoOversubscription | app/services/multi_region.py:86-114 | without lag every decision knows the exact count and the total is min(limit, requests), for any spacing |
| MultiRegionBounds.AcceptsThenRefusals | app/services/multi_region.py:99-116 | in each region accepts come first and refusals after them |
| MultiRegionReport.SummaryReportsTheLog | app/services/multi_region.py:130-146 | each region's allowed and blocked counts are the accepts and refusals of that region in the log, which has each of its requests once, at the multiples of the spacing; total, oversubscription, stale decisions, depth and the five parameters of the summary |
| MultiRegionReport.LogReportsTheRun | app/services/multi_region.py:86-128 | the log is in order of arrival, India's requests before those of the US at one instant; each decision is informed by those before it; no request is refused before the quota is used up, and none accepted after a refusal in its region |
| MultiRegionReport.RefusedExactly | app/services/multi_region.py:67-70 | the two errors, each exactly when its parameter is out of range |
| MultiRegionExact.ExactOversubscription | app/services/multi_region.py:86-142 | the total and the oversubscription in closed form, for every limit, lag, request counts and positive spacing |
| MultiRegionExact.BoundReached | app/services/multi_region.py:86-142 | for every lag and spacing there is a limit and a number of requests for which the bound is met |
| MultiRegionExact.AtMostOneBeyondTheBlindSpot | app/services/multi_region.py:90-94 | a limit that the first lag cannot use up is exceeded by one at most |
| Algorithms.ApplyFixedWindow | app/services/algorithms.py:28-56 | the update in place, or the replacement, of the counter object and the whole answer |
| Algorithms.ApplyTokenBucket | app/services/algorithms.py:88-124 | the update in place of the bucket object and the whole answer |
| FixedWindowRuns.FixedStateAfter | app/services/algorithms.py:38-44 | after any run the counter is the number of requests of the current window, cut off at the limit |
| FixedWindowRuns.AdmittedPerWindow | app/services/algorithms.py:35-44 | each aligned window admits exactly min(limit, requests in it) |
| FixedWindowRuns.AllowedWhileBelowLimit | app/services/algorithms.py:41-42 | a request is admitted exactly when its window has had fewer than limit requests |
| FixedWindowRuns.AnyIntervalTwiceTheLimit | app/services/algorithms.py:35-44 | any interval of window length, aligned or not, admits at most twice the limit |
| FixedWindowRuns.BurstAcrossBoundary | app/services/algorithms.py:35-44 | twice the limit is reached, for every policy |
| SlidingLogRuns.LogStateAfter | app/services/algorithms.py:66-72 | the stored list is always the admitted history restricted to the window that ends now |
| SlidingLogRuns.DeniedExactlyWhenWindowFull | app/services/algorithms.py:70 | a request is denied exactly when the window ending with it already holds limit admissions |
| SlidingLogRuns.EveryIntervalWithinLimit | app/services/algorithms.py:66-72 | every half-open interval of window length contains at most limit admissions |
| TokenBucketRuns.MinPlus | app/services/algorithms.py:96-108 | the level after any run is the least, over all its requests, of a full bucket then, plus the refill since, minus what was admitted since |
| TokenBucketRuns.DeniedExactlyWhenOverdrawn | app/services/algorithms.py:99-105 | a request is denied exactly when admitting it would make some interval ending now exceed capacity plus refill |
| TokenBucketRuns.IntervalBound | app/services/algorithms.py:96-108 | admissions in any interval cost at most a full bucket plus the refill of its length |
| Answers.QuotaDecides | app/services/algorithms.py:41-42 | the quota of a state is positive exactly when it admits a request, for all three algorithms |
| Answers.RemainingIsExact | app/services/algorithms.py:47 | of any burst that follows at the same instant, exactly `remaining` requests are admitted |
| Answers.FreshBurst | app/services/algorithms.py:28-124 | of a burst on a key that has seen no request, exactly the first limit, or capacity, requests are admitted, for all three algorithms |
| Answers.RetryAfterIsExact | app/services/algorithms.py:110-113 | after a denial, and any number of probes before then, requests are denied before now + retry_after_ms and admitted from then on, for all three algorithms |
| Answers.RetryHeaderSuffices | app/services/local_fallback_limiter.py:156-158 | waiting the rounded-up seconds of the Retry-After header (section 10.2.3 of RFC 9110) is always enough, through any number of denied probes |
| Answers.ResetIsExact | app/services/algorithms.py:115-116 | with nothing more admitted, and any number of denied probes, at reset_at_ms and not a millisecond earlier the bucket is full, the fixed window has its whole limit back, and the sliding log has more room |
| Answers.RefillTwice | app/services/algorithms.py:99-101 | refilling in two steps is refilling once |
| RedisScripts.Redis.EvalFixedWindow | app/redis/scripts.py:1-26 | the commands INCR and PEXPIRE, one by one: new keyspace and reply, also for a key of the wrong type |
| RedisScripts.Redis.EvalSlidingWindowLog | app/redis/scripts.py:29-59 | the commands ZREMRANGEBYSCORE, ZCARD, ZADD, PEXPIRE and ZRANGE: new keyspace and reply |
| RedisScripts.Redis.EvalTokenBucket | app/redis/scripts.py:62-108 | the commands HMGET, HMSET and PEXPIRE: new keyspace and reply |
| RedisScripts.Redis.RunPolicy | app/services/rate_limiter.py:170-207 | the script and arguments that each algorithm gets, with the expiry of a bucket |
| ScriptRuns.RemoveUpToActive | app/redis/scripts.py:38 | what ZREMRANGEBYSCORE leaves is the in-memory list of active events |
| ScriptRuns.EvalHolds | app/redis/scripts.py:1-108 | one evaluation keeps the relation to the in-memory state (counter against cut-off count, scores against events, equal tokens, expired against idle) and replies as it |
| ScriptRuns.ScriptsMatchPython | app/redis/scripts.py:1-108 | over every run on any keys, whichever expired keys are dropped when, each script replies allowed, remaining, reset and retry as the in-memory algorithm does from the key's own calls with no expiry |
| BucketClock.LevelInRange | app/redis/scripts.py:71-105 | on any clock, and whenever the key expires, the tokens stay between none and the capacity |
| BucketClock.AnyClock | app/redis/scripts.py:71-105 | between any two evaluations, expiry included: for steps back up to the key's time to live, last_refill_ms is the latest time seen; up to the window, admissions are paid for by the starting level and the growth of last_refill_ms |
| BucketClock.ExpiryForgets | app/redis/scripts.py:105 | for every policy, a run with a step back just longer than the window that lets in two full buckets while the clock refills less than one |
| BucketClock.AdmissionsBoundedExactly | app/redis/scripts.py:71-105 | for every policy and tolerance: the bound on admissions, over all runs and expiries, holds exactly if no step back exceeds the window |
| BucketClock.RefillNeverGoesBackExactly | app/redis/scripts.py:84-105 | for every policy and tolerance: last_refill_ms never decreases exactly if no step back exceeds the time to live of the key |
| MemoryClock.InMemoryRefillsAgain | app/services/algorithms.py:96-108 | for every policy, steps of a millisecond back and forth let in one request more than a full bucket while the clock makes no progress |
| MemoryClock.MemoryBoundedExactly | app/services/algorithms.py:96-108 | for every policy and tolerance: the bound on admissions holds of the in-memory bucket exactly if the clock never steps back |
| Keyed.IdleLikeFresh | app/services/local_fallback_limiter.py:75-87 | forgetting a state that no longer matters changes no answer and no later state |
| Fallback.LocalFallbackLimiter.constructor | app/services/local_fallback_limiter.py:36-41 | empty dictionaries, and a time to live of at least one second |
| Fallback.LocalFallbackLimiter.Clear | app/services/local_fallback_limiter.py:43-47 | empties all three dictionaries |
| Fallback.LocalFallbackLimiter.EvictExpired | app/services/local_fallback_limiter.py:143-147 | drops exactly the states whose expiry has come, from all three dictionaries |
| Fallback.Prune | app/services/local_fallback_limiter.py:144-147 | the loop that pops expired keys leaves exactly the live ones |
| Fallback.LocalFallbackLimiter.ApplyFixed | app/services/local_fallback_limiter.py:70-91 | the stored counter object is updated or replaced and stored with its expiry; no other key is touched, although objects are updated in place |
| Fallback.LocalFallbackLimiter.ApplySliding | app/services/local_fallback_limiter.py:93-114 | the new list is stored with its expiry; nothing else changes |
| Fallback.LocalFallbackLimiter.ApplyBucket | app/services/local_fallback_limiter.py:116-141 | the stored bucket object is updated or created and stored with its expiry; no other key is touched |
| Fallback.LocalFallbackLimiter.ApplyCall | app/services/local_fallback_limiter.py:49-68 | one call: the clock when no time (or 0) is given, eviction, the algorithm, and the decision in seconds |
| FallbackRuns.EvictionTransparent | app/services/local_fallback_limiter.py:49-147 | over any interleaving of keys and algorithms each answer is the one from the key's calls alone with nothing evicted, if the key's own configuration is safe |
| FallbackRuns.DueSinceForgotten | app/services/local_fallback_limiter.py:49-147 | for any configuration, each answer is the one due from the key's calls since its state was last forgotten |
| FallbackRuns.ForgottenEvent | app/services/local_fallback_limiter.py:110-113 | for every unsafe sliding log, a run whose answer shows the eviction |
| FallbackRuns.TransparentExactlyWhenSafe | app/services/local_fallback_limiter.py:93-147 | eviction never shows on any run exactly when each sliding log has limit 1 or a window within the time to live |
| FallbackRuns.LetInWhenSafe | app/services/local_fallback_limiter.py:49-147 | for a safe configuration, what the limiter lets in over a run is what the algorithm alone admits |
| FallbackLimits.AlmostTwiceTheLimit | app/services/local_fallback_limiter.py:93-147 | over any interleaving and for any time to live, no interval of window length lets in more than 2 * limit - 1 requests of a sliding log |
| FallbackLimits.UnsafeLogExceeds | app/services/local_fallback_limiter.py:110-113 | every unsafe sliding log has a run that lets in exactly that many |
| FallbackLimits.LimitKeptExactlyWhenSafe | app/services/local_fallback_limiter.py:93-147 | the limiter keeps a sliding log's limit on all runs exactly when the limit is one or the window is within the time to live |
| Lifetimes.HeldWhileRecent | app/services/local_fallback_limiter.py:70-147 | over every run, a state is held only if its key was called within a bounded time (the window or time to live; a full refill plus the time to live), and always if within the time to live |
| Lifetimes.EveryKeyExpires | app/redis/scripts.py:12-105 | over every run, each key in Redis outlives the window, event or refill that it stores by the scripts' margin, and expires within a bounded time of its last evaluation |
| RateLimiter.RateLimiterService.TryOnce | app/services/rate_limiter.py:170-207 | one attempt: whether the script runs and whether its reply arrives |
| RateLimiter.RateLimiterService.RecoverAfterRedisFailure | app/services/rate_limiter.py:130-168 | the fallback's decision, or the failure mode's, and what it does to the store |
| RateLimiter.RateLimiterService.Evaluate | app/services/rate_limiter.py:67-128 | the retry loop: attempts up to the first decision, recovery only after the last of max(1, retries + 1) failures, nothing without a policy; that the decision is true is ResponseHeaders.EveryAnswerIsTrue |
| EvaluateRuns.EvaluateIsARun | app/services/rate_limiter.py:67-128 | from any point of any run, the undisturbed loop is a sequence of the interleaved steps, with the same result |
| DistributedRuns.RedisAnswersAreDue | app/services/rate_limiter.py:231-243 | over every run, an answer that arrives is the one due from all calls of the key that Redis has run, with its reset and retry rounded up to seconds, field by field |
| DistributedRuns.LocalAnswersAreDue | app/services/rate_limiter.py:136-160 | the fallback's answer is the one due from this instance's calls of the key, field by field |
| ResponseHeaders.ParsedIsTrue | app/services/rate_limiter.py:231-243 | of a due reply, as parsed: the limit is that of the configuration; exactly `remaining` requests of a burst pass; the retry seconds are the least after which the key is let in, through any denied probes; the reset is the first second at which the quota is restored |
| ResponseHeaders.LocalIsTrue | app/services/local_fallback_limiter.py:150-166 | the same of the fallback's due answer |
| ResponseHeaders.EveryAnswerIsTrue | app/services/rate_limiter.py:67-243 | over every run, every answer of any source is true in that sense: of all the key's earlier evaluations if it is from Redis, of the instance's calls (since its state was last forgotten) if from the fallback; otherwise it is what the failure mode prescribes, with the flags that say so |
| ResponseHeaders.HeadersSayTheDecision | app/services/rate_limiter.py:41-48 | over every run, the four headers, read as numbers, are the decision's; cutting off at zero never matters |
| DistributedRuns.NothingLetInTwice | app/services/rate_limiter.py:79-105 | over every interleaving, failure, lost reply and retry: the requests that Redis lets in are exactly those told so and those whose reply was lost |
| DistributedRuns.LocalLetIn | app/services/rate_limiter.py:136-160 | what an instance's limiter lets in is exactly what got that answer, and, if its configuration is safe, what the algorithm alone lets in |
| DistributedRuns.FailClosedLimit | app/services/rate_limiter.py:67-158 | without fallback and failing closed, all instances together let in no more than the algorithm alone, in any interval and for any bound of it; each lost admission makes it one less |
| DistributedRuns.FallbackLimit | app/services/rate_limiter.py:67-158 | with the fallback: what Redis may let in, and for each instance what its limiter may let in, in any interval and for any two bounds of them |
| DistributedRuns.WindowLimit | app/redis/scripts.py:10-25 | fixed window: at most limit a window failing closed, at most (instances + 1) * limit with the fallback |
| DistributedRuns.LogLimit | app/redis/scripts.py:38-50 | sliding log, in any interval of window length: at most limit failing closed; with the fallback, for each instance limit more, or 2 * limit - 1 if its configuration is unsafe |
| DistributedRuns.BucketLimit | app/redis/scripts.py:84-97 | token bucket, in any interval: what a full bucket and the refill pay for failing closed, (instances + 1) times that with the fallback |
| DistributedRequests.OneAnswer | app/services/rate_limiter.py:77-105 | each request is answered at most once, makes at most max(1, retries + 1) attempts, and falls back only after all of them failed |
| DistributedRequests.AllAccountedFor | app/services/rate_limiter.py:77-105 | each request that arrived is answered or on its way |
| DistributedRequests.FailOpenUnlimited | app/services/rate_limiter.py:209-219 | failing open without the fallback, any number of requests can be let in within a millisecond without one script run |
| DistributedRequests.FallbackLimitReached | app/services/rate_limiter.py:136-160 | (instances + 1) * limit in one window is reached, for every fixed window policy and number of instances |
| Policies.ConfigOf | app/schemas/policy.py:12-36 | a policy that satisfies the schema gives a valid limiter; that its capacity is the burst capacity or else the rate is stated by WholeSystem.PolicyBurst |
| PolicyMatcher.SelectsWinner | app/services/policy_matcher.py:44-48 | the selected policy is the first active match that none outscores; none is selected exactly when none applies; what the scores mean is in the rows of PolicyOrder |
| PolicyMatcher.WinnerIsUnique | app/services/policy_matcher.py:44-48 | there is only one such position |
| PolicyMatcher.OrderDoesNotMatter | app/services/policy_matcher.py:44-48 | the selected score depends on which policies there are, not on their order |
| PolicyMatcher.NarrowerWins | app/services/policy_matcher.py:23-41 | a policy never wins over an applicable one with strictly more selectors, whatever the priorities |
| PolicyOrder.SelectsPreferred | app/services/policy_matcher.py:10-48 | without scores: the selected policy is the first active one, all of whose selectors agree with the request, such that no other has more selectors, or as many that rank before (user, API key, tenant, address, route), or then a higher priority, or then a higher version; one is selected exactly when one is eligible |
| PolicyOrder.MoreSelectorsWin | app/services/policy_matcher.py:23-32 | more selectors win, whichever they are and whatever the priorities |
| PolicyOrder.EarlierKindWins | app/services/policy_matcher.py:34-40 | if two policies differ in one selector only, the earlier of user, API key, tenant, address and route wins, whatever the priorities |
| PolicyOrder.PriorityThenVersion | app/services/policy_matcher.py:41-48 | with the same selectors the higher priority wins, then the higher version |
| PolicyOrder.CrossedPairsTie | app/services/policy_matcher.py:34-40 | user with address weighs as much as API key with tenant, so the priority decides between them |
| KeyBuilder.BuildRateLimitKey | app/services/key_builder.py:40-60 | the list of segments, appended step by step and joined, is the specified key |
| KeyBuilder.OneKeyPerPolicy | app/services/key_builder.py:48-58 | all requests that a policy matches share one key |
| KeySharing.SharedExactly | app/services/key_builder.py:48-60 | under one policy two requests share a key exactly when they show the same value for each selector that is set, if no value contains a colon |
| KeySharing.ColonsConfuse | app/services/key_builder.py:48-60 | with a colon two requests that differ in every selector can share one |
| KeySharing.EligibleShow | app/services/key_builder.py:48-58 | a request that a policy matches shows the policy's own values |
| KeyBuilder.DecimalReads | app/services/key_builder.py:45 | the version in a key is its decimal numeral |
| KeyBuilder.KeysNeverCollide | app/services/key_builder.py:41-46 | equal keys come from the same policy id, version and algorithm, whatever the identities contain |
| KeyBuilder.StoreNamesNeverCollide | app/redis/scripts.py:7-8 | equal names in Redis, window counters included, mean the same key, window and policy version |
| PolicyAdmin.ApplyKeeps | app/services/policy_service.py:47-122 | each create, update, delete and upsert, in its success and failure cases, keeps versions unique and latest, names unique and rows valid |
| PolicyAdmin.SerialisedRunsKeep | app/services/policy_service.py:47-122 | over every serialised run, an id and a version stand for one payload forever and every policy ever stored satisfies the schema |
| PolicyAdmin.OneKeyOneLimit | app/services/key_builder.py:40-60 | so one Redis key always means one algorithm and limit |
| PolicyChanges.UpdateStores | app/services/policy_service.py:74-92 | an update that succeeds leaves each of the 14 columns at the value given, at nothing if null was given for a nullable one, and else at what it was, as the next version; every other row, and on failure the whole table, stays |
| PolicyChanges.UpdateSucceeds | app/services/policy_service.py:79-89 | it succeeds whenever that row satisfies the schema and its name is free |
| PolicyChanges.UpsertStores | app/services/policy_service.py:103-122 | an upsert stores the whole payload, as version 1 or the next version, unless nothing differs; it fails exactly when another row has the name |
| PolicyChanges.CreateStores | app/services/policy_service.py:47-53 | a new policy is stored as given with version 1, unless a row has its name |
| PolicyChanges.DeleteRemoves | app/services/policy_service.py:94-101 | a deletion removes the row and no other |
| PolicyChanges.CommitWrites | app/services/policy_service.py:83-88 | a commit writes the columns that its session changed and no other, and the version read plus one |
| PolicyChanges.ChangesApartBothStay | app/services/policy_service.py:83-88 | two sessions that read the same row and change different columns: both changes stay, in either order |
| PolicySessions.FlushedValidExactly | app/services/policy_service.py:80-86 | the row that a validated commit leaves satisfies the schema exactly when it does not combine a new algorithm with a burst capacity set by others, or a new burst capacity with an algorithm set by others |
| PolicySessions.CommitKeepsExactly | app/services/policy_service.py:75-88 | a commit keeps versions unique and latest, names unique and rows valid exactly when the version read is the current one, or the one before it with every changed column already written |
| PolicySessions.HarmfulCollides | app/services/policy_service.py:75-88 | after any other commit, one ordinary update at most gives a version a second payload |
| PolicySessions.CommitKeepsVersionsExactly | app/services/policy_service.py:75-88 | so versions stay unique, now and after any later update, exactly under that condition |
| PolicySessions.OverlappingRunsExactly | app/services/policy_service.py:74-122 | over every run of overlapping sessions, with reads and commits as separate steps: the table is in order at every moment exactly when every commit met that condition |
| PolicySessions.OverlappingUpdates | app/services/policy_service.py:74-92 | in any table, for any token bucket without burst capacity: two overlapping valid updates leave one version with two payloads and a row that violates the schema |
| PolicyCache.PolicySnapshotStore.Set | app/services/policy_cache.py:21-26 | the snapshot is replaced, with the time of loading |
| PolicyCache.PolicySnapshotStore.GetFresh | app/services/policy_cache.py:28-37 | the policies if the snapshot's age is within the time to live, else none |
| PolicyCache.PolicySnapshotStore.Clear | app/services/policy_cache.py:39-41 | no snapshot is left |
| PolicyCacheRuns.StepKeeps | app/services/policy_service.py:128-218 | every step of every load, table change, invalidation and expiry keeps the age bounds of entry, snapshots and lists on their way |
| PolicyCacheRuns.BoundedStaleness | app/services/policy_service.py:128-191 | over every interleaving with table changes, failed deletes, lost messages and outages, a returned list was the table's at most both times to live and two load times ago |
| PolicyCacheRuns.StalenessReached | app/services/policy_service.py:128-191 | that bound is reached, for all times to live and load times |
| PolicyService.PolicyService.ListActivePoliciesCached | app/services/policy_service.py:128-191 | the load on the objects: result, Redis entry and snapshot in every case of hits, misses and failures |
| PolicyService.LoadedAgain | app/services/policy_service.py:128-191 | after a load that missed, a second one returns the same list while the entry has not expired, or, with Redis unreachable, while the snapshot is fresh, and the table's list from then on |
| PolicyService.PolicyService.ResolvePolicy | app/services/policy_service.py:124-126 | the selection from what the load returns, and what the load leaves; what is selected is PolicyOrder.SelectsPreferred |
| PolicyService.PolicyService.InvalidatePolicyCache | app/services/policy_service.py:193-218 | the own snapshot goes in any case, the Redis entry unless the command fails |
| PolicyService.PolicyService.Create | app/services/policy_service.py:47-53 | the new row with version 1, or a taken name and no change to table or caches; after success the snapshot is gone, and the Redis entry unless the deletion was not executed |
| PolicyService.PolicyService.Update | app/services/policy_service.py:74-92 | the row with the merged payload and the next version, with the error cases; the snapshot goes exactly when the table changes, and then the Redis entry unless the deletion was not executed; what is stored is PolicyChanges.UpdateStores |
| PolicyService.PolicyService.Delete | app/services/policy_service.py:94-101 | the row goes, or is not found; the caches as in Update |
| PolicyService.PolicyService.UpsertByName | app/services/policy_service.py:103-122 | created, unchanged or updated, by the row that has the name; the caches as in Update |
| PolicyService.LoadIsARun | app/services/policy_service.py:128-191 | an undisturbed load of the object is a run of the interleaved protocol, with the same result |
| PolicyService.StaleListsAgree | app/services/policy_service.py:124-126 | however stale the lists that two loads returned: policies in them that give two requests one Redis key are one version of one policy |
| WholeSystem.KeysConfigureOnePolicy | app/services/key_builder.py:40-60 | after any serialised administration each Redis key has one valid configuration, that of every stored policy whose key it is |
| WholeSystem.PolicyLimit | app/services/rate_limiter.py:67-158 | over every serialised administration and every run of any number of instances, a fixed window policy lets its requests in at most `rate` times a window failing closed, at most (instances + 1) * rate times with the fallback |
| WholeSystem.PolicyLogLimit | app/services/rate_limiter.py:67-158 | the same for sliding logs in any interval of window length, with 2 * rate - 1 for each instance whose limiter may forget events |
| WholeSystem.PolicyBucketLimit | app/services/rate_limiter.py:67-158 | the same for token buckets in any interval: what burst_capacity, or else rate, tokens and the refill of the interval pay for, in the policy's own columns |
| WholeSystem.PolicyBurst | app/services/rate_limiter.py:170-207 | in every run in which Redis has only seen a burst at one instant for a key of a policy, exactly burst_capacity, or else rate, of those requests were let in, and told so unless the reply was lost |
| WholeSystem.PolicyAnswers | app/services/rate_limiter.py:67-243 | every answer for a key of a policy announces burst_capacity, or else rate, as the limit, and its other numbers are true of the policy as stored |

## Left out

- ExactOversubscription: for positive spacing only, because with spacing 0 or a negative one the two
  regions' requests are not on a common grid; OversubscriptionBound also covers negative spacing, and
  with spacing 0 OversubscriptionOfAnySchedule and NoLagNoOversubscription apply.
- SharedExactly: for values without a colon, because with one the key does not show where a value ends
  (ColonsConfuse).
- The heap of the simulator is a sorted sequence, so which of two equal events comes first does not
  show; they are equal in all fields.
- Floating point: refill amounts, the rounded `refill_rate_per_second` and Lua's text form of stored
  tokens are exact scaled integers here.
- `observed_value` and the last element of script replies, which only reach metrics.
- `requested_tokens` other than 1, which no caller passes.
- Ties in a Redis sorted set are kept in order of arrival instead of by member; only scores are read.
- Redis data loss other than by expiry, restarts of instances, and the lengths of backoff sleeps.
- The `created_at` and `updated_at` columns, and with them the order in which policies are listed;
  OrderDoesNotMatter says what does not depend on it.
- How the active policies of the table become the list that a load queries; the list is a parameter
  of the cache protocol, and ShowsStored says what StaleListsAgree needs of it.
- Building the identity from HTTP headers, routes, middleware, tokens, health checks, logging,
  metrics, and fetching a policy from the configuration service.
