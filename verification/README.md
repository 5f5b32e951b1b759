# Admission, caching, ranking and session state of the gateway services

A Dafny model of the stateful core of the gateway, LLM, decision and report services: who is admitted, what is
remembered, what is chosen, and which sessions stay valid. Every component that the services keep as a mutable
object is a class here whose methods follow the source branch by branch. Each method is tied to a small step
function, and the properties are proved over all runs of those steps. `dafny verify dfyconfig.toml` checks
everything.

| file | component |
|---|---|
| `TokenBucket.dfy`, `RedisTokenBucket.dfy` | the gateway's token bucket, in process and as a Lua script |
| `SlidingWindow.dfy` | the input manager's per-user limiter |
| `CircuitBreaker.dfy`, `HalfOpenProbes.dfy`, `Forwarder.dfy` | the gateway breaker, its in-flight probes, the retry loop that drives it |
| `OrderedDict.dfy`, `MemoryStorage.dfy`, `DecisionCache.dfy` | Python's `OrderedDict`, the report store, the two-tier decision cache |
| `ProviderBreaker.dfy`, `ProviderRateLimit.dfy`, `LlmRouter.dfy`, `LlmVote.dfy` | the LLM router with its breakers, buckets and vote |
| `DecisionRules.dfy`, `DecisionEnsemble.dfy`, `DecisionService.dfy`, `DecisionHistory.dfy` | the rule strategy, the ensemble, the service with its batch path, and what it serves from its cache |
| `WebSocketHub.dfy` | the WebSocket hub |
| `RefreshTokens.dfy`, `RefreshChains.dfy` | refresh-token rotation over the blacklist, and the chains of tokens that logins start |

Conventions. Time, tokens and confidences are reals; `round(x, 4)` is rounding half to even on exact numbers.
A clock reading is a parameter, and clock readings do not decrease in the order in which the locked sections run
(the memory bucket reads its clock just before it takes its lock, but nothing suspends it in between). A locked
section is one atomic step, since every other section of the same object waits for its lock; a refresh is one
step too, since nothing on the blacklist's in-memory path suspends it. Errors that the source raises are values (`Result`, `Option`, or a boolean as each method's comment says).

## Where the code and its own words differ

- `AsyncRateLimiter` calls itself a fixed-window limiter (managers/input_manager.py:170); the code keeps a sliding
  log, and that is what is modelled.
- The breaker's comment asks for "the full quota of probe successes" (gateway/circuit_breaker/breaker.py:87); the
  code closes on one success once the whole quota was *admitted*, and the success need not be a probe's
  (`HalfOpenProbes.StaleSuccessCanClose`). `HalfOpenProbes.ClosingTakesTheWholeQuota` says
  when the two coincide, `HalfOpenProbes.OneSuccessCanClose` shows a run in which they do not.
- A call that was let in need not report: it makes no attempt when `upstream_max_retries` is negative
  (gateway/config.py:47), and a cancellation or an exception that is not httpx's passes both handlers
  (gateway/routing/forwarder.py:112-131). Once the probe quota is spent and nobody is left in flight, the breaker
  refuses every call until it is reset: `HalfOpenProbes.HalfOpenWedgesExactly`, and
  `Forwarding.UnreportedProbeWedges` for a quota of one.
- A breaker with a probe quota of zero or less still lets one probe through when it recovers, so the bounds on
  probes read `max(1, half_open_max)`.
- The rule table's comment says that the order of the rules does not matter (decision/strategies/rules.py:78); it
  decides the action exactly when two shown actions share the lead
  (`DecisionRules.OrderDecidesExactlyOnTies`), and changes nothing else (`DecisionRules.RuleOrderMattersOnlyForTies`).
- The ensemble accepts weights with any positive sum but divides by at least 1e-6; the blended risk is an average
  of the two risks if and only if the weights sum to at least that much (`DecisionEnsemble.RiskIsAverageExactly`).
- A refresh token is meant to be revoked at once when it is used (gateway/auth/jwt_manager.py:173). Its blacklist
  entry lives for a whole number of seconds, so a token used in its final second can be used again, and one used
  earlier can be presented again in its final second. Revoking a token that was already used replaces its entry, and
  the new one may lapse earlier: `RefreshTokens.RevocationRevives` is a run in which that revives a token, by the
  logout endpoint that revokes whatever bearer token it is given. `RefreshTokens.AcceptedExactly` gives the exact
  condition over whole runs, `RefreshChains.ChainExactly` what it means for a login: more than one unused token.
- The decision cache swallows failing writes, and with a ttl of zero it never overwrites what Redis held before;
  `DecisionCaches.AlwaysFreshExactly` and `DecisionCaches.FreshDespiteFailuresExactly` say exactly when its hits are
  fresh all the same.
- A token-bucket hint is a promise only when the refill is positive and the cost fits the capacity;
  `TokenBuckets.RetryHintIsExact` states the equivalence.
- The two token-bucket stores agree if and only if the quota is at least one a minute
  (`RedisTokenBuckets.StoresAgreeExactlyWithAQuota`).

## Model

| member | source | states |
|---|---|---|
| TokenBuckets.InMemoryTokenBucketStore.TryConsume | gateway/rate_limiting/token_bucket.py:47-81 | one call: the decision and the bucket left behind under its key, every other key untouched |
| TokenBuckets.DecisionAt | gateway/rate_limiting/token_bucket.py:51-81 | decision j of a run is made on the bucket its first j calls left |
| TokenBuckets.AvailableIsLeastHeadroom | gateway/rate_limiting/token_bucket.py:56-64 | the tokens call j finds are the minimum, over all i up to j, of capacity plus refill since call i minus what was admitted from i on |
| TokenBuckets.DeniedIffSomeWindowOverspends | gateway/rate_limiting/token_bucket.py:61-81 | a call is denied exactly when some window ending at it would overspend |
| TokenBuckets.WindowNeverOverspends | gateway/rate_limiting/token_bucket.py:56-64 | no window of any run admits more than the capacity plus the refill over its span |
| TokenBuckets.DenialsAreFree | gateway/rate_limiting/token_bucket.py:72-81 | deleting any denied calls from a run changes no other decision, not even its counters |
| TokenBuckets.DroppingDenials | gateway/rate_limiting/token_bucket.py:56-81 | the same from any two buckets that no later call can tell apart |
| TokenBuckets.RetryHintIsExact | gateway/rate_limiting/token_bucket.py:74-81 | after a denial and any further denied polls, the same cost is admitted at t if and only if refill is positive, the cost fits the capacity and t is at least the denial plus the hint |
| Basics.RoundsToNearest | decision/strategies/rules.py:382 | Python's rounding goes to a nearest integer, and to the even one of two |
| Basics.Round4Close | decision/strategies/rules.py:382 | rounding to four digits moves a number by at most half of the last one |
| TokenBuckets.KeysAreIsolated | gateway/rate_limiting/token_bucket.py:52-63 | in any run over many keys, the bucket of a key is what its own calls alone produce |
| TokenBuckets.RemainingIsExact | gateway/rate_limiting/token_bucket.py:66-81 | after a call, a cost is admitted at the same instant if and only if it is at most the `remaining` that was told |
| TokenBuckets.FullAgainExactly | gateway/rate_limiting/token_bucket.py:65-71 | after an admission the bucket is full again exactly from the hinted instant on |
| TokenBuckets.BurstIsExact | gateway/rate_limiting/token_bucket.py:53-64 | of calls that all come at once a fresh key admits exactly the first `capacity` |
| TokenBuckets.SpacedCallsPass | gateway/rate_limiting/token_bucket.py:56-64 | calls far enough apart for one token to flow back are all admitted |
| RedisTokenBuckets.RedisTokenBucketStore.EvalScript | gateway/rate_limiting/token_bucket.py:94-125 | the Lua script: its reply, and the hash it writes with a new expiry |
| RedisTokenBuckets.RedisTokenBucketStore.TryConsume | gateway/rate_limiting/token_bucket.py:136-161 | the client: the decision made of the script's reply |
| RedisTokenBuckets.IdleHourRefills | gateway/rate_limiting/strategies.py:47-54 | a bucket idle for the hour after which Redis forgets it is full again when the quota is at least one a minute |
| RedisTokenBuckets.StoresStayMirrored | gateway/rate_limiting/token_bucket.py:94-125 | on every run over any keys and any quotas of at least one a minute, the two stores give the same verdicts and hold the same buckets |
| RedisTokenBuckets.StoresAgreeExactlyWithAQuota | gateway/rate_limiting/token_bucket.py:101-122 | for a given quota the two stores agree on all runs if and only if it is at least one a minute |
| RedisTokenBuckets.NoQuotaTellsThemApart | gateway/rate_limiting/token_bucket.py:121-122 | a run of two calls that tells the stores apart for any quota below one |
| RedisTokenBuckets.RedisHintIsLate | gateway/rate_limiting/token_bucket.py:153-161 | on a denial the Redis hint is never early and late by less than the time of one token |
| RedisTokenBuckets.RedisHintsOnlyDenials | gateway/rate_limiting/token_bucket.py:153-161 | an admission carries no hint |
| RedisTokenBuckets.QuotaAtOnce | gateway/rate_limiting/strategies.py:47-54 | of calls at once a quota admits exactly the first `max(1, per_minute)` |
| RedisTokenBuckets.QuotaSustains | gateway/rate_limiting/strategies.py:47-54 | it admits all calls that are a `per_minute`-th of a minute apart |
| RedisTokenBuckets.QuotaPerMinute | gateway/rate_limiting/strategies.py:47-54 | in no minute it admits more than the burst and the quota together |
| SlidingWindows.AsyncRateLimiter.Allow | managers/input_manager.py:178-190 | one call: the verdict, the log kept for the key, and no other key's log changed |
| SlidingWindows.LogIsWindow | managers/input_manager.py:184-189 | after eviction the stored log is exactly the admissions of the current window, on every run |
| SlidingWindows.RefusedIffWindowIsFull | managers/input_manager.py:187-188 | a call is refused if and only if exactly the maximum of admissions already lies in its own window |
| SlidingWindows.NoWindowOverflows | managers/input_manager.py:186-189 | however a window is placed, at most the maximum of admissions falls into it |
| SlidingWindows.LogStaysSmall | managers/input_manager.py:186-189 | the stored list never exceeds the maximum |
| SlidingWindows.KeysAreIsolated | managers/input_manager.py:184-189 | in any run over many keys, the log of a key is what its own calls alone produce |
| SlidingWindows.RefusedIffOwnWindowIsFull | managers/input_manager.py:178-190 | in any run over many keys, a call is refused if and only if its own key's window is full |
| SlidingWindows.NoOwnWindowOverflows | managers/input_manager.py:178-190 | in any run over many keys, at most the maximum of admissions of a key falls into any window |
| SlidingWindows.OwnLogStaysSmall | managers/input_manager.py:184-189 | nor does the list stored for a key exceed it |
| SlidingWindows.UnlimitedAllowsAll | managers/input_manager.py:179-180 | a limit that is not positive limits nothing |
| CircuitBreakers.CircuitBreaker.Allow | gateway/circuit_breaker/breaker.py:66-82 | the answer and the new state in each of the three phases |
| CircuitBreakers.CircuitBreaker.RecordSuccess | gateway/circuit_breaker/breaker.py:84-93 | the new state in each phase |
| CircuitBreakers.CircuitBreaker.RecordFailure | gateway/circuit_breaker/breaker.py:95-105 | the new state in each phase, including when it trips |
| CircuitBreakers.CircuitBreaker.Reset | gateway/circuit_breaker/breaker.py:107-111 | the new state |
| CircuitBreakers.CircuitBreaker.TripAt | gateway/circuit_breaker/breaker.py:115-119 | opening, and the doubled and capped recovery time |
| CircuitBreakers.CircuitBreaker.TransitionTo | gateway/circuit_breaker/breaker.py:128-135 | what entering a phase forgets |
| CircuitBreakers.AlwaysConsistent | gateway/circuit_breaker/breaker.py:66-135 | in every reachable state OPEN and an opening time go together, probes are counted only in HALF_OPEN and within the quota |
| CircuitBreakers.DeadPhaseHolds | gateway/circuit_breaker/breaker.py:66-119 | with a dead upstream the breaker never closes again and its recovery time is the capped backoff of the number of trips |
| CircuitBreakers.GapsAreBackoffs | gateway/circuit_breaker/breaker.py:71-77 | consecutive trips of a dead upstream are at least min(max_recovery, base * 2^k) apart |
| CircuitBreakers.EpisodesKeepQuota | gateway/circuit_breaker/breaker.py:72-82 | between two such trips at most the probe quota is admitted, and in the current episode exactly the counted probes |
| CircuitBreakers.AdmissionsBounded | gateway/circuit_breaker/breaker.py:66-82 | admissions since the first trip are bounded by whole quotas of the past episodes plus the current count |
| CircuitBreakers.DeadUpstreamBacksOff | gateway/circuit_breaker/breaker.py:115-119 | the time since the first trip is at least the sum of the backoffs of all later trips |
| CircuitBreakers.DeadUpstreamSeesFewCalls | gateway/circuit_breaker/breaker.py:78-82 | a dead upstream is sent at most one quota of probes per trip |
| CircuitBreakers.DeadUpstreamBudget | gateway/circuit_breaker/breaker.py:66-119 | until the first n backoffs have passed since the first trip, a dead upstream is sent at most n quotas of probes |
| CircuitBreakers.CountersCountTheLog | gateway/circuit_breaker/breaker.py:66-135 | over every run, successes and resets included, `failure_count` is the number of failures since the last success in CLOSED, closing or reset; the recovery time is doubled per trip since the last closing or reset; the opening time is that of the last trip; and the probes are those of the episode |
| CircuitBreakers.PhaseMovesExactly | gateway/circuit_breaker/breaker.py:66-119 | the next phase in the terms of the log: CLOSED trips on the `failure_threshold`-th such failure and on nothing else; OPEN half-opens on a call once the recovery time has passed since the last trip; HALF_OPEN trips on any failure and closes on a success once its quota is spent |
| CircuitBreakers.CallsAdmittedExactly | gateway/circuit_breaker/breaker.py:66-82 | which calls are let in, in the same terms |
| CircuitBreakers.RecoveryIsBackoff | gateway/circuit_breaker/breaker.py:115-119 | that recovery time is the capped backoff `min(max_recovery, base * 2^n)` |
| CircuitBreakers.GoodUpstreamStaysClosed | gateway/circuit_breaker/breaker.py:84-93 | an upstream that never fails keeps the breaker CLOSED with a count of zero |
| HalfOpenProbes.RunsKeepInvariant | gateway/circuit_breaker/breaker.py:66-105 | with calls in flight interleaving, retrying and being abandoned freely: pending, abandoned and succeeded probes of the episode add up to the admitted ones, no failure is on record while HALF_OPEN, and once the quota is spent not all have succeeded |
| HalfOpenProbes.SpentHalfOpenHasProbe | gateway/circuit_breaker/breaker.py:78-93 | once the quota is spent, a probe of the episode is pending unless exactly all that did not succeed were abandoned; with none abandoned, one always is |
| HalfOpenProbes.HalfOpenMovesOnReports | gateway/circuit_breaker/breaker.py:78-105 | HALF_OPEN lets every call in until the quota is spent; then it refuses all, and any report of a call in flight, either way, leaves HALF_OPEN |
| HalfOpenProbes.HalfOpenWedgesExactly | gateway/circuit_breaker/breaker.py:78-105 | a spent HALF_OPEN can be left without a reset if and only if some call is still in flight |
| HalfOpenProbes.AbandoningAllWedges | gateway/routing/forwarder.py:81-131 | any spent HALF_OPEN is wedged once everyone in flight is abandoned |
| HalfOpenProbes.ClosingTakesTheWholeQuota | gateway/circuit_breaker/breaker.py:86-91 | HALF_OPEN closes only on a success after the whole quota was admitted with no failure recorded; all probes succeeded if and only if none is still pending and none was abandoned |
| HalfOpenProbes.OneSuccessCanClose | gateway/circuit_breaker/breaker.py:87-91 | a run that closes the breaker with one success out of a quota of three |
| HalfOpenProbes.StaleSuccessCanClose | gateway/circuit_breaker/breaker.py:84-91 | under every configuration some run closes the breaker from HALF_OPEN with its whole quota of probes still pending, on the late success of a call admitted while CLOSED |
| Forwarding.Forward | gateway/routing/forwarder.py:80-136 | a response below 500 that follows only 5xx responses and httpx failures is returned with no further request, and only clears a CLOSED breaker; without one all max_retries + 1 requests are made and the last outcome is a response, a timeout or a bad gateway; one report per attempt, in order, except for an exception that escapes both handlers; at most one trip; the final raise is reached if and only if max_retries is negative |
| Forwarding.Attempts | gateway/routing/forwarder.py:88-136 | the same of the loop alone |
| Forwarding.UnreportedProbeWedges | gateway/routing/forwarder.py:81-88 | a probe that half-opened the breaker and never reports leaves it refusing every call for good if and only if the quota is at most one |
| Forwarding.OneRequestTripsAtMostOnce | gateway/routing/forwarder.py:88-131 | one request run alone trips the breaker at most once, and a breaker it tripped is OPEN at its end |
| Forwarding.BadAttemptsAddUp | gateway/routing/forwarder.py:105-124 | n bad attempts open the breaker if and only if it was HALF_OPEN or they fill the failure threshold |
| Forwarding.AttemptsForward | gateway/routing/forwarder.py:104-131 | in constructors and numbers: the first response below 500 after only 5xx responses and httpx errors is returned with no further request; if there is none, all `max_retries + 1` requests are made and the last outcome decides between a response, a timeout and a bad gateway |
| Forwarding.GoodAnswerClears | gateway/routing/forwarder.py:104-111 | a first answer below 500 leaves a CLOSED breaker CLOSED with nothing counted, client errors included |
| OrderedDicts.TouchAppends | report/storage/memory.py:45-46 | assigning a key and moving it to the end leaves one entry for it, the newest, the others in order |
| OrderedDicts.NewestAbsorbs | decision/cache.py:42-45 | evicting early, before a key is touched, makes no difference to the newest entries afterwards |
| MemoryStorage.MemoryStorageBackend.constructor | report/storage/memory.py:21-24 | the capacity is at least one |
| MemoryStorage.MemoryStorageBackend.Put | report/storage/memory.py:44-48 | the store afterwards is the newest entries of the old store with the key touched |
| MemoryStorage.MemoryStorageBackend.Get | report/storage/memory.py:51-60 | a hit returns the object and promotes it, a miss changes nothing |
| MemoryStorage.MemoryStorageBackend.Exists | report/storage/memory.py:62-64 | whether any entry has the key |
| MemoryStorage.MemoryStorageBackend.Delete | report/storage/memory.py:66-68 | the key is gone, the others stay in order, and the answer says whether it was there |
| MemoryStorage.EvictNests | report/storage/memory.py:47-48 | eviction keeps the smaller store within the larger one, whether one of them evicts or both |
| MemoryStorage.PutNests | report/storage/memory.py:44-48 | `put` keeps the smaller store within the larger one |
| MemoryStorage.GetNests | report/storage/memory.py:52-60 | so does `get`, also when it hits only in the larger store |
| MemoryStorage.DeleteNests | report/storage/memory.py:67-68 | so does `delete` |
| MemoryStorage.LargerStoreIncludesSmaller | report/storage/memory.py:26-68 | stack inclusion: after any common run the smaller store is a subsequence of the larger |
| MemoryStorage.EnlargingKeepsHits | report/storage/memory.py:51-60 | enlarging the store never turns a hit into a miss or into another object |
| MemoryStorage.RoomyStoreIsComplete | report/storage/memory.py:26-68 | a store at least as large as the run forgets nothing |
| MemoryStorage.HitsAreLatest | report/storage/memory.py:51-60 | at any capacity a hit returns the object last put under the key and not deleted since |
| MemoryStorage.StoreHoldsExactly | report/storage/memory.py:26-68 | which keys are held, and the keys touched since each of them was, are told by the run alone; a held key has its latest object |
| MemoryStorage.RecentKeysAreKept | report/storage/memory.py:44-60 | retention: a key put or hit at some step and not deleted since is found, with its latest object, if fewer than `capacity` other keys were put or hit since |
| MemoryStorage.KeptExactly | report/storage/memory.py:44-60 | with no deletion since its last touch, it is found if and only if fewer than `capacity` other keys were put or hit since |
| DecisionCaches.DecisionCache.LruSet | decision/cache.py:39-45 | the memory tier after a write, with its eviction loop; nothing at capacity 0 |
| DecisionCaches.DecisionCache.LruGet | decision/cache.py:30-37 | a hit promotes, a miss does not |
| DecisionCaches.DecisionCache.Get | decision/cache.py:86-105 | memory first, then Redis with promotion into memory; a failing Redis is a miss |
| DecisionCaches.DecisionCache.Set | decision/cache.py:107-116 | both tiers after a write; Redis only with a positive ttl and when it takes the write |
| DecisionCaches.DecisionCache.Clear | decision/cache.py:118-124 | memory empty, and Redis too unless the flush fails |
| DecisionCaches.RunsStayFresh | decision/cache.py:86-124 | over any run, from any content of Redis, with failing reads and any Redis losses: nothing stored or touched is stale, as long as writes land and have a ttl |
| DecisionCaches.HitsAreFresh | decision/cache.py:86-105 | every hit returns the value of the latest `set` of the key since the last `clear` |
| DecisionCaches.AlwaysFreshExactly | decision/cache.py:107-116 | when no write fails, hits are fresh on all runs if and only if there is no Redis, the ttl is positive, or Redis held nothing at the start |
| DecisionCaches.OldEntryOutlivesSet | decision/cache.py:109 | with a ttl of zero, a run that serves an old Redis entry after a `set`, at any capacity |
| DecisionCaches.FailedClearServesStale | decision/cache.py:118-124 | a `clear` whose flush fails leaves old entries to be served |
| DecisionCaches.FreshDespiteFailuresExactly | decision/cache.py:107-124 | hits are fresh on all runs whichever writes fail if and only if there is no Redis or it never holds anything |
| DecisionCaches.MemoryHoldsLastTouched | decision/cache.py:39-45 | on every run the memory tier is exactly the `capacity` most recently touched keys, in order of last touch |
| DecisionCaches.RedisRemembers | decision/cache.py:107-113 | while Redis loses no key, takes every write and the ttl is positive, everything set since the last `clear` stays readable |
| DecisionCaches.GetsAnswerExactly | decision/cache.py:86-124 | on every run, with any failures and losses, a `get` answers exactly what the run says: what memory remembers, or else what a reachable Redis holds |
| DecisionCaches.MemoryAnswersExactly | decision/cache.py:30-45 | retention without Redis: a key set or hit, and not cleared since, is answered with that value if fewer than `capacity` other keys were set or hit since, and not at all otherwise |
| DecisionCaches.GetsAnswerEverySet | decision/cache.py:86-116 | with a positive ttl and Redis up, losing nothing and taking every write, a `get` answers for exactly the keys set since the last `clear`, with their latest values |
| ProviderBreakers.ProviderCircuitBreaker.Allow | llm/circuit_breaker.py:64-74 | the answer and the new state in each phase |
| ProviderBreakers.ProviderCircuitBreaker.RecordSuccess | llm/circuit_breaker.py:83-87 | the new state, closed from any phase |
| ProviderBreakers.ProviderCircuitBreaker.RecordFailure | llm/circuit_breaker.py:89-97 | the new state, opened at the threshold or from HALF_OPEN |
| ProviderBreakers.ProviderCircuitBreaker.Reset | llm/circuit_breaker.py:99-103 | the initial state |
| ProviderBreakers.CircuitBreakerRegistry.Get | llm/circuit_breaker.py:121-131 | one breaker object per provider, made on first use |
| ProviderBreakers.CircuitBreakerRegistry.EnsureAllowed | llm/circuit_breaker.py:76-81 | the provider's breaker is asked, and no other is touched |
| ProviderBreakers.CircuitBreakerRegistry.Record | llm/circuit_breaker.py:83-97 | the outcome reaches the provider's breaker, and no other |
| ProviderBreakers.CircuitBreakerRegistry.ResetAll | llm/circuit_breaker.py:137-140 | every provider is back to the initial state |
| ProviderBreakers.BreakerMemory | llm/circuit_breaker.py:64-103 | on every run the phase, the count and the opening time are determined by the failures since the last success or reset and by whether a call came late enough after the last of them |
| ProviderBreakers.BreakerIsOneRule | llm/circuit_breaker.py:64-74 | a call is let through if and only if fewer failures than the threshold followed the last success or reset, or the last of them is old enough |
| ProviderRateLimits.TokenBucket.TryAcquire | llm/rate_limiter.py:30-46 | the bucket is the gateway's bucket with refill rate / 60; a rate of 0 lets everything through |
| ProviderRateLimits.RateLimiterRegistry.Get | llm/rate_limiter.py:58-66 | one bucket object per provider, full when first used |
| ProviderRateLimits.RateLimiterRegistry.EnsureAllowed | llm/rate_limiter.py:68-77 | the provider's bucket is asked for one token, and no other is touched |
| ProviderRateLimits.FreshBucketIsFull | llm/rate_limiter.py:21-28 | a bucket made this instant behaves as an unknown key of the gateway's bucket |
| LlmRouting.LLMRouter.Begin | llm/router.py:313-342 | the breaker is asked first, a call it refuses never costs a token, and no other provider is touched |
| LlmRouting.LLMRouter.AskBreaker | llm/router.py:313-315 | the provider's breaker answers and moves, its bucket and the other providers do not |
| LlmRouting.LLMRouter.AskBucket | llm/router.py:316 | the provider's bucket answers and is charged, its breaker and the other providers are not |
| LlmRouting.LLMRouter.End | llm/router.py:354-419 | the outcome is reported to the provider's breaker |
| LlmRouting.LLMRouter.RunAttempt | llm/router.py:284-466 | a candidate comes of an attempt if and only if its provider is configured, the breaker and the bucket found let it through and it completes; exactly one entry is logged; no other provider is touched |
| LlmRouting.LLMRouter.RunFallback | llm/router.py:169-190 | a candidate is returned if and only if some target is configured, let through on the state it finds, and completes; it is the first such target's text and no later target is tried; otherwise the log decides the error; the shared state changes by the steps of the log only |
| LlmRouting.FallbackEntry | llm/router.py:284-343 | entry k in constructors and codes: not configured, refused by the breaker, refused by the bucket, on the state that the first k attempts left, and otherwise the success or the failure code of the outcome |
| LlmRouting.TraceInOrder | llm/router.py:169-190 | the steps of such a log lie in order within the request, as the budget below asks of a run |
| LlmRouting.ErrorIsLastFailure | llm/router.py:475-491 | the error names the last real failure, or says unavailable if and only if there was none |
| LlmRouting.WindowPotential | llm/rate_limiter.py:35-45 | starts in a window plus the tokens left never exceed burst plus refill, whatever requests interleave |
| LlmRouting.StartsWithinAccrual | llm/router.py:313-316 | the same without the tokens left, up to and including the last step |
| LlmRouting.StartsWithinBudget | llm/router.py:313-353 | over any run of any requests, calls started on a provider within a span number at most burst plus rate * span / 60 |
| LlmRouting.BreakerProjection | llm/router.py:313-419 | a provider's breaker depends on that provider's attempts alone |
| LlmRouting.CircuitSkipsExactly | llm/router.py:313-329 | over any run, resets included, an attempt is skipped by the breaker if and only if the threshold of failures followed the last success or reset and the last of them is too recent |
| LlmRouting.EntryTells | llm/router.py:284-466 | the entry of one attempt: each skip's reason by the guard that refused, a success on a completion, and each failure's code by the outcome |
| LlmRouting.StepsLeave | llm/router.py:313-419 | what an attempt leaves of its provider: nothing charged when the breaker refuses, one token when the bucket is asked, and the outcome on the breaker |
| LlmRouting.LogLeavesStateFound | llm/router.py:169-190 | the steps of a log leave of every provider what its own attempts leave |
| LlmRouting.RateSkipsExactly | llm/router.py:316-342 | over whole runs an attempt past the breaker is skipped by the bucket if and only if some window of the provider's started calls, this one included, exceeds burst plus rate times its span |
| LlmVoting.FirstMostConfident | llm/router.py:250-251 | Python's `max` by confidence: the first of the greatest |
| LlmVoting.RunConfidence | llm/router.py:253-266 | the first most confident candidate, or an error if and only if there is none |
| LlmVoting.Collect | llm/router.py:239-244 | tally and groups are complete, and the texts stand in order of first occurrence |
| LlmVoting.BestGroup | llm/router.py:246-249 | the first group that no other beats in (votes, best confidence) |
| LlmVoting.RunParallelVote | llm/router.py:225-251 | nobody beats the winner in (votes, confidence), with ties broken by first occurrence |
| LlmVoting.TopOfTopsWins | llm/router.py:246-251 | the two stages amount to one lexicographic choice over all candidates |
| LlmVoting.DistinctVoteIsConfidence | llm/router.py:237-266 | with pairwise distinct texts the vote and the confidence strategy return the same candidate |
| DecisionRules.CollectVotes | decision/strategies/rules.py:355-364 | the fold over the rules: votes, summed risk, matched names |
| DecisionRules.NormaliseAll | decision/strategies/rules.py:378-382 | unknown actions dropped, the rest capped and rounded, in order |
| DecisionRules.Evaluate | decision/strategies/rules.py:347-410 | the whole strategy, fallbacks included |
| DecisionRules.VotesAreTotals | decision/strategies/rules.py:355-358 | an action has an entry if and only if a matching rule votes for it, and it holds the sum of those scores |
| DecisionRules.SortDescSorts | decision/strategies/rules.py:377 | the ranking is in non-increasing order and keeps every entry |
| DecisionRules.SortDescIsStable | decision/strategies/rules.py:377 | entries of equal value keep their order |
| DecisionRules.CandidatesFollowScores | decision/strategies/rules.py:377-393 | candidates are non-empty, distinct and allowed, stand in order of uncapped totals, and miss no registered and allowed action that scored |
| DecisionRules.CandidatesAreWellFormed | decision/strategies/rules.py:374-384 | confidences never rise nor exceed 1, and none is negative unless some rule's score is |
| DecisionRules.RiskIsBounded | decision/strategies/rules.py:395 | the risk score lies in [0, 1] when no rule lowers the risk |
| DecisionRules.SumPermuted | decision/strategies/rules.py:358-359 | permuting the rules changes no sum over them |
| DecisionRules.RuleOrderMattersOnlyForTies | decision/strategies/rules.py:347-410 | permuting the rules changes no total, no risk, no candidate's confidence, and the top action only among equal totals |
| DecisionRules.FirstRuleDecides | decision/strategies/rules.py:355-377 | a matching first rule decides, if its action is shown and no shown action outscores it |
| DecisionRules.OrderDecidesExactlyOnTies | decision/strategies/rules.py:347-410 | some order of the same rules decides another action if and only if two matching rules vote for different shown actions with equal totals that no shown action exceeds |
| DecisionRules.TiesFollowRuleOrder | decision/strategies/rules.py:87-105 | an instance: two matching rules with the first two default actions and scores |
| DecisionRules.FoldsOverMatching | decision/strategies/rules.py:355-364 | votes, risk and names are those of the matching rules, in order |
| DecisionRules.EvaluationOfMatches | decision/strategies/rules.py:365-410 | the outcome by the matching rules: the risk is their sum, capped and rounded; the scores are their totals, or the two fallback scores when nothing matches |
| DecisionRules.ListedExactly | decision/strategies/rules.py:377-393 | an action is a candidate if and only if it is registered, open to the user type and scored, with its capped total to four digits; only if there is none, `no_action` stands in with zero |
| DecisionEnsemble.BlendScores | decision/strategies/ensemble.py:142-149 | the two blending loops |
| DecisionEnsemble.Evaluate | decision/strategies/ensemble.py:66-84 | the outcome in each case: no ML, failed ML, unsure ML, blend |
| DecisionEnsemble.EvaluateBatch | decision/strategies/ensemble.py:86-113 | a batch blends every item as it would be alone, and is as long as the shorter list |
| DecisionEnsemble.BlendedMeans | decision/strategies/ensemble.py:142-149 | an action's blended score is the weighted sum of its two confidences, the absent counting as zero |
| DecisionEnsemble.BlendConfidence | decision/strategies/ensemble.py:153-157 | its confidence is that sum relative to the largest |
| DecisionEnsemble.BlendRespectsUnanimity | decision/strategies/ensemble.py:129-157 | if both strategies give a at least what they give b, so does the blend, under any weights |
| DecisionEnsemble.BlendIsNormalised | decision/strategies/ensemble.py:151-157 | confidences lie in [0, 1] and never rise; the first is exactly 1 if and only if some weighted vote is positive |
| DecisionEnsemble.RiskIsAverageExactly | decision/strategies/ensemble.py:159-163 | the risk before penalty and rounding lies between the two risks, for all risks, if and only if the weights sum to at least 1e-6 |
| DecisionEnsemble.EnsembleRespectsUnanimity | decision/strategies/ensemble.py:50-84 | the configured ensemble as a whole respects unanimity, whether the ML strategy is sure or not |
| DecisionEnsemble.EnsembleIsNormalised | decision/strategies/ensemble.py:50-84 | its confidences lie in [0, 1] and never rise; the first is 1 if and only if a strategy with a positive weight has a positive confidence |
| DecisionEnsemble.EnsembleRiskIsBetween | decision/strategies/ensemble.py:159-165 | its risk lies between the two risks, with the penalty for an unsure ML strategy, the cap and the rounding applied, when the weights in force sum to at least 1e-6 |
| DecisionEnsemble.EnsembleFollowsSums | decision/strategies/ensemble.py:129-157 | the blend ranks actions by the weighted sums of their confidences, in which an unsure ML strategy counts a third |
| DecisionEnsemble.EnsembleConfidenceIsShare | decision/strategies/ensemble.py:151-157 | a blended confidence is the action's weighted sum relative to the largest, to four digits |
| DecisionEnsemble.EnsembleRiskExactly | decision/strategies/ensemble.py:159-165 | the risk is the weighted average of the two risks under the same factor, with 0.05 more for an unsure ML strategy, capped and rounded |
| DecisionEnsemble.EnsembleTells | decision/strategies/ensemble.py:66-127 | the outcome tells which way it was made, and why the ML strategy had no part in it |
| DecisionServing.DecisionService.EvaluateOne | decision/engine.py:118-172 | the engine's answer for each strategy override |
| DecisionServing.DecisionService.EvaluateBatch | decision/engine.py:174-232 | the engine's batch answers every item as it would be answered alone |
| DecisionServing.DecisionService.MaterializeOne | decision/service.py:213-273 | the response made of an engine decision |
| DecisionServing.DecisionService.Decide | decision/service.py:96-117 | invalid and unsupported requests are refused; any other is answered as if nothing were cached, whatever coherent cache there is; the cached answer is given when there is one, a fresh one is stored, and the cache stays coherent |
| DecisionServing.DecisionService.Scatter | decision/service.py:135-157 | slots answered at once are right, in the order of the lookups, and exactly the other slots are pending |
| DecisionServing.DecisionService.EvaluatePending | decision/service.py:159-171 | the shared and the mixed path give every pending item its own decision, or fail if and only if one of them is refused |
| DecisionServing.DecisionService.DecideBatch | decision/service.py:119-185 | every slot is filled, in input order, with what its item would be answered alone; it fails as a whole only when too large or when an item is refused; all lookups come before all writes, and only fresh decisions are written |
| DecisionServing.DecisionService.Recall | decision/service.py:102-109 | the cached response, if caching is on and the cache has one, made the request's own |
| DecisionServing.DecisionService.Remember | decision/service.py:115-116 | a fresh decision is stored under the request's key, and the cache stays coherent |
| DecisionServing.ResponseShowsTheRanking | decision/service.py:220-241 | materialising drops no action and rounds nothing twice, so the decided action is the strategy's first |
| DecisionServing.GetKeepsCoherent | decision/service.py:102 | a read, promotion and failure included, keeps the cache coherent |
| DecisionServing.SetKeepsCoherent | decision/service.py:177-178 | so does a write of a sane response, whether or not it reaches Redis |
| DecisionServing.FreshIsSane | decision/service.py:176-178 | what was just decided may be stored for everybody with the same key |
| DecisionServing.MaterializeAnswers | decision/service.py:176-179 | what was just decided answers the request it was decided for |
| DecisionServing.ReplayAnswers | decision/service.py:146-153 | a stored response answers the request, under the request's ids, or the stored ones where it has none |
| DecisionServing.AnswersAgree | decision/service.py:96-185 | a batch entry and the answer to the same item alone agree in action, candidates, confidence, risk and review flag |
| DecisionServing.DecisionService.Fill | decision/service.py:172-179 | every pending slot gets the decision for its item, every other slot keeps its answer, and the decisions are stored in order |
| DecisionServing.PendingMembers | decision/service.py:135-157 | exactly the items without an early answer are pending |
| DecisionServing.ProblemExactly | decision/service.py:189-195 | which requests are refused as invalid, and with which of the complaints |
| DecisionServing.AnswerTells | decision/service.py:213-287 | any answer to a valid request, cached or not, alone or in a batch: the ranking cut to its length, its first action, the confidence flag, the summed risk, and review if and only if risk or amount is too high or the action asks for it |
| DecisionServing.ApprovalsAreWithinLimits | decision/service.py:275-287 | an `approve_purchase` without review is within the limits on amount and risk |
| DecisionServing.InvalidItemTells | decision/service.py:299-325 | what an invalid item of a batch is told |
| DecisionHistory.ServedFromCacheExactly | decision/service.py:96-117 | without Redis, over any run of requests, one is served from the cache if and only if one with its key was answered and fewer than `capacity` other keys have been asked for since; either way the answer is its decision |
| DecisionHistory.BatchServedExactly | decision/service.py:135-179 | without Redis, an item of a batch is served from the cache if and only if its key was there before the batch: equal items of one batch are never answered from one another |
| DecisionHistory.CacheHoldsAsked | decision/service.py:96-117 | after any run the cache is coherent and holds exactly the keys asked for recently enough, behind each the keys asked for since |
| WebSocketHub.WebSocketManager.Connect | gateway/websocket/manager.py:66-91 | refused if and only if the hub is full; otherwise live, in no room |
| WebSocketHub.WebSocketManager.Disconnect | gateway/websocket/manager.py:93-107 | the connection is dead and in no room, everyone else as before |
| WebSocketHub.WebSocketManager.LeaveAll | gateway/websocket/manager.py:98-101 | the clean-up loop takes the connection out of all its rooms and pops the rooms it empties |
| WebSocketHub.WebSocketManager.JoinRoom | gateway/websocket/manager.py:114-121 | the room is added on both sides, for a live connection only |
| WebSocketHub.WebSocketManager.LeaveRoom | gateway/websocket/manager.py:123-132 | the room is removed on both sides, and popped when empty |
| WebSocketHub.WebSocketManager.Interleave | gateway/websocket/manager.py:66-132 | any sequence of locked sections keeps the two indexes consistent and the hub within its maximum, and of the connections there were removes exactly those it disconnects |
| WebSocketHub.WebSocketManager.SendToConnection | gateway/websocket/manager.py:134-151 | true if and only if the send went through; a connection whose send raised is dead, whatever others did meanwhile |
| WebSocketHub.WebSocketManager.SendToAll | gateway/websocket/manager.py:162-168 | the broadcast loop: one result per target, decided by exclusion, by the socket, and by whether another task disconnected the target before its turn; the count is the number of successful sends |
| WebSocketHub.WebSocketManager.BroadcastToRoom | gateway/websocket/manager.py:153-168 | under any interleaving, a target whose send raised is in no room afterwards, and a target is live at its turn if and only if nobody disconnected it since the listing |
| WebSocketHub.IndexIsDetermined | gateway/websocket/manager.py:62-63 | the connections' own rooms determine the room index |
| WebSocketHub.EnterIndexes | gateway/websocket/manager.py:119-120 | joining keeps room r listing connection c if and only if c is live and lists r |
| WebSocketHub.DiscardIndexes | gateway/websocket/manager.py:128-131 | leaving keeps it too, with no empty room stored |
| WebSocketHub.DeadAreNowhere | gateway/websocket/manager.py:95-101 | a connection that is not live is in no room |
| WebSocketHub.ResultsTell | gateway/websocket/manager.py:162-168 | a target's result says whether it was excluded, reached or failed, and the count is the number of targets reached |
| RefreshTokens.TokenBlacklist.Add | gateway/auth/token_blacklist.py:49-61 | an entry for whole seconds, none for a ttl of zero or less |
| RefreshTokens.TokenBlacklist.Contains | gateway/auth/token_blacklist.py:63-77 | whether an entry is in force; afterwards the token has an entry exactly if it is, so a lapsed one is dropped |
| RefreshTokens.JWTManager.Issue | gateway/auth/jwt_manager.py:61-126 | a fresh pair with truncated expiries |
| RefreshTokens.JWTManager.VerifyRefreshToken | gateway/auth/jwt_manager.py:156-162 | each refusal in the source's order, and acceptance |
| RefreshTokens.JWTManager.RefreshPair | gateway/auth/jwt_manager.py:166-185 | accepted if and only if verified, with the verification's error otherwise; the old token is blacklisted and a new pair signed |
| RefreshTokens.JWTManager.Revoke | gateway/auth/jwt_manager.py:187-201 | a token that still decodes is blacklisted, any other is left alone |
| RefreshTokens.AcceptedExactly | gateway/auth/jwt_manager.py:156-201 | after any run, a token is accepted if and only if it was signed, is a refresh token, has not expired, and the blacklist entry made by the latest step that spent it, by use or by revocation, has lapsed or there is none |
| RefreshTokens.ReplayExactly | gateway/auth/jwt_manager.py:172-175 | an instance: when exactly an accepted token is accepted again with no step in between |
| RefreshTokens.RevocationReplacesEntry | gateway/auth/jwt_manager.py:198-199 | revoking a used token replaces its entry: from any run, it is accepted afterwards if and only if it has not expired and the entry of the revocation has lapsed |
| RefreshTokens.RevocationRevives | gateway/api/auth_routes.py:133-144 | a run in which a used token is dead for good until it is revoked, and is then accepted again |
| RefreshTokens.ImmediateReplayOnlyInFinalSecond | gateway/auth/token_blacklist.py:49-51 | presented again at once, it is accepted if and only if less than a second of it was left |
| RefreshTokens.TtlReachesFinalSecond | gateway/auth/jwt_manager.py:174 | the truncated ttl of a token with a second left reaches into its final second |
| RefreshTokens.BlockedStays | gateway/auth/token_blacklist.py:63-77 | a later step, lookup or second revocation keeps a blocked token blocked up to exp - 1 |
| RefreshTokens.SpentStaysBlocked | gateway/auth/jwt_manager.py:166-201 | a token spent at any step of any run stays blacklisted until its final second |
| RefreshTokens.RefreshTokenIsUsedOnce | gateway/auth/jwt_manager.py:166-185 | in any run, a refresh token accepted with at least a second left is rejected at every later instant up to exp - 1 s and from exp on |
| RefreshTokens.IssuedPairLives | gateway/auth/jwt_manager.py:61-126 | a pair is two new signed tokens of the login; the access token decodes for the configured minutes and the refresh token for the configured days, each less the fraction of a second; only the second can be refreshed |
| RefreshTokens.RefusedExactly | gateway/auth/jwt_manager.py:130-162 | over every run, exactly why a token is refused, in the order of the checks |
| RefreshTokens.TtlIsWholeSeconds | gateway/auth/jwt_manager.py:174 | a revoked token's time to live is the number of whole seconds it had left |
| RefreshChains.SecondUseIsLate | gateway/auth/jwt_manager.py:156-175 | in any run, a second acceptance of a token comes in its final second |
| RefreshChains.InTimeIsOnce | gateway/auth/jwt_manager.py:166-185 | tokens of a login never refreshed in their final second are never accepted twice |
| RefreshChains.OthersAreUsed | gateway/auth/jwt_manager.py:172-175 | in a linear login, when a token is accepted for the first time every other refresh token of the login has been used |
| RefreshChains.RunsAreLinear | gateway/auth/jwt_manager.py:166-185 | if no token of a login is accepted twice, all its refresh tokens but the newest have been used, whatever other logins do |
| RefreshChains.UnusedTokensCountReuses | gateway/auth/jwt_manager.py:166-185 | conservation: a login has one unused refresh token for having been made and one more for every acceptance of a token that had been accepted before |
| RefreshChains.ChainExactly | gateway/auth/jwt_manager.py:166-185 | all refresh tokens of a login but the newest are used if and only if no token of it was ever accepted twice |
| RefreshChains.ChainInTimes | gateway/auth/jwt_manager.py:156-185 | the same in times: if and only if no used token of the login is ever presented before it expires and after its latest blacklist entry has lapsed |
| RefreshChains.OneUsableTokenPerLogin | gateway/auth/jwt_manager.py:166-185 | if no token of a login is accepted twice, at any instant at most one of its refresh tokens is usable outside its final second |
| RefreshChains.TwoUsesFork | gateway/auth/jwt_manager.py:172-185 | in any run, two consecutive acceptances of a token leave two usable refresh tokens of its login |
| RefreshChains.FinalSecondForks | gateway/auth/token_blacklist.py:49-51 | from any run, presenting a usable token twice in its final second does so, with the two new tokens far from their own |

## Left out

- HTTP, FastAPI, transports, provider adapters, metrics, logging and settings loading: no state of interest; what an upstream or a provider does is an arbitrary input.
- Signatures, password hashing, SHA-256 and JSON: tokens are records that only this manager signs, cache keys are arbitrary functions of the features, JSON is the identity. Claims other than `jti`, `typ` and `exp` are not modelled, nor is access-token verification.
- IEEE rounding and Lua's number formatting: numbers are exact reals, and Redis reads back what was written.
- The blacklist's Redis path, and a second writer of the decision cache's Redis.
- DecisionServing.DecisionService.EvaluateOne: does not model deployments with an ML model, its breaker and its fallbacks; the engine is modelled on the rules path. The ad-hoc ensemble's constructor cannot fail there, since settings validation already rejects weights that sum to zero (decision/config.py:121-127).
- DecisionServing.DecisionService.EvaluateBatch: the same, for the engine's batch path.
- The two clocks of the two token-bucket stores (`time.monotonic` and `time.time`): both stores are compared under the same readings, and Redis expires its keys by them.
- The identity of a bucket record: `_BucketState` is held by value in the map, since no reference to it leaves the store.
- Age of memory-tier hits in the decision cache: the memory tier never expires entries, so nothing is claimed about age.
- How cache keys are built: tri-state flags pass through `int()` (decision/features.py:88-92), which folds "unknown" into "false", so keys do not determine outcomes; that equal keys give equal outcomes is a hypothesis of `DecisionServing.DecisionService.Decide` and `DecisionServing.DecisionService.DecideBatch`.
- The ML strategy itself: the ensemble takes its outcome as given.
- Rationale, labels, next steps, latency and metadata of decisions; the default rule table (rules are arbitrary predicates with scores).
- `parallel_any` with its cancellations, the gathering of the parallel strategies (their candidates are given in target order), target resolution, sampling, cost accounting and the prompt guard of the LLM router. The call budget holds for any interleaving of attempts and so covers all strategies.
- The constructor errors of provider breakers with an unsound configuration appear as a precondition of the registry.
- `broadcast_to_user`, `close_all`, statistics and the closing of sockets in the WebSocket hub: would only add easy members.
- The breakers of the intent, decision, report and hub services, and the retrying and session parts of the input manager: close variants of what is modelled.
- A reset of the gateway breaker, or a success recorded, after the first trip: excluded from the runs of a dead upstream, allowed in all other results about the breaker.
- `ids` of connections and tokens are assumed never to repeat, as UUIDs; the hub remembers the ids it handed out for that purpose only.
