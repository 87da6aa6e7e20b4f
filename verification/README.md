# Verified model of the LLM inference proxy

The proxy keeps its shared state in small concurrent protocols: a Redis cache with an LRU
set, a pool of backends behind circuit breakers, a cross-worker request coalescer, and
request handlers that stream. This project models those protocols in Dafny and proves what
they guarantee over every run. `dafny verify dfyconfig.toml` checks all of it.

| files | what they hold |
|---|---|
| `Redis.dfy`, `RedisCache.dfy`, `CacheSpec.dfy`, `Recency.dfy` | the cache object over atomic Redis commands, its specification functions, the textbook LRU list and the touch history it is proved equal to |
| `CacheWorkers.dfy`, `CacheOvershoot.dfy`, `CacheUndershoot.dfy`, `OverlappingPuts.dfy`, `CacheRaces.dfy`, `ClockSkew.dfy` | any number of workers, one Redis command a step: how far the size can be missed, above and below, the runs that attain both bounds, and what badly timed puts and old scores do |
| `CircuitBreaker.dfy`, `BackendPool.dfy`, `PoolHistory.dfy`, `PoolFairness.dfy` | breakers and pool as objects, the stateless test they amount to, fairness, waiting and probe rate |
| `Coalescer.dfy`, `CoalescerOutcomes.dfy`, `LockRelease.dfy`, `RequestCoalescer.dfy` | the lock and publish protocol as a timed step system, how calls end, that locks are given back, and the control flow of one call |
| `Throttler.dfy`, `InFlight.dfy`, `Streaming.dfy`, `Replays.dfy`, `Sse.dfy` | the in-flight counter under interleaved handlers, the streaming generator, its replays, event framing |
| `Retry.dfy`, `Outliers.dfy` | the retry loop and the outlier filter |
| `Sets.dfy`, `Wrappers.dfy` | small shared facts and datatypes |

Objects that the program updates in place are classes whose methods are proved against
functions of the old state; the theorems are lemmas about those functions. Protocols that
interleave are step systems whose theorems range over all step sequences. Times are
integers, in milliseconds for the coalescer.

## Where code and documentation differ

The model follows the code.

- Eviction is documented as one atomic pipeline (docs/architecture.md:112). In the code
  ZCARD, ZRANGE, DEL and ZREM are separate commands, and so are GET and ZADD of a hit. The
  size bound is therefore false for several workers. `CacheWorkers.OvershootBound` gives the
  allowance, and `CacheOvershoot.LateRefreshOvershoots` shows that it is exact: for every
  size and TTL it is attained with any number of running puts and late refreshes, so with all
  calls finished the overshoot has no limit. `CacheOvershoot.StepOvershootsIff` says which
  single commands pass the size. It also removes too much: an eviction takes as many members
  as it once counted too many, so from a full cache p overlapping puts, each at most o over,
  can leave as little as max_size - (p - 1) o (`CacheUndershoot.UndershootBound`), and do
  (`OverlappingPuts.OverlappingPutsUndershoot`); max_size + 1 overlapping puts can leave an
  empty cache. A stored value is in the LRU set for as long as no put lands
  inside a removal of its key (`CacheRaces.CarefulRunKeepsTracked`), and any put that does
  land there can be lost to eviction and clear (`CacheRaces.CarelessPutIsLost`).
- A half-open breaker is documented to admit one probe (circuit_breaker.py:8-10). In any
  pool, a tripped backend whose cooldown is over is available to every selection until an
  outcome of it is recorded (`PoolFairness.HalfOpenAdmitsMany`); a failure recorded then
  shuts it out for exactly one cooldown (`PoolFairness.FailureEndsProbing`). Outcomes
  recorded between selections are what separates one probe from many, and `ProbeRate` states
  the rate they enforce.
- The lock's time to live is exactly the condition for mutual exclusion, and it matters only
  at the claims of the same hash (`Coalescer.MutualExclusion`,
  `Coalescer.SecondClaimIffOverrun`). After an overrun the DEL, which carries no owner
  token, lets a third call in (`Coalescer.OverrunLetsThirdIn`). A call that ends has given its
  lock back, through results, errors and cancellations (`LockRelease.FinishedOwnsNoLock`),
  unless its DEL was lost; then the hash is blocked for the rest of that time
  (`LockRelease.LostDeleteBlocks`).
- Waiters are said to receive the published result. One that is not listening at the PUBLISH
  never receives it (`CoalescerOutcomes.LateSubscriberMisses`), and one that receives it gets
  the winner's value exactly when json.loads gives back what json.dumps took
  (`CoalescerOutcomes.CoalescedIsWinnersResult`). An object json.dumps refuses is never
  returned by a winner; the handlers pass such an object (server.py:364), and with such
  producers nothing is ever coalesced (`CoalescerOutcomes.RefusedNeverCoalesced`).
- The in-flight counter returns to zero exactly when no stream was dropped before its first
  pull and no stream's cache lookup raised (`InFlight.IdleCountIsLeaks`).
- The `or values` fallback of the outlier filter is dead code exactly for thresholds of at
  least one (`Outliers.FallbackDeadIffThresholdAtLeastOne`).

## Model

| member | source | states |
|---|---|---|
| RedisCache.Cache.Create | src/llm_inference_engine/api/cache.py:50-65 | a cache is created exactly for a positive size and a positive TTL, which is cut to whole seconds |
| RedisCache.Cache.Get | src/llm_inference_engine/api/cache.py:86-106 | answers the live value, refreshes the score on a hit only, and counts each call once as hit or miss |
| RedisCache.Cache.Put | src/llm_inference_engine/api/cache.py:108-125 | a put that Redis serves to its end leaves the Redis data of the specification: value with expiry, score, and the overflow evicted; one that Redis cuts off leaves exactly the effect of the commands before |
| RedisCache.Cache.EvictIfNeeded | src/llm_inference_engine/api/cache.py:169-182 | removes exactly the count minus max_size lowest-scored keys, value and member alike, and nothing when within size; cut off between DEL and ZREM only the values are gone |
| RedisCache.Cache.Invalidate | src/llm_inference_engine/api/cache.py:127-136 | removes value and member of one key and reports whether a live value was removed |
| RedisCache.Cache.Clear | src/llm_inference_engine/api/cache.py:138-144 | deletes the values tracked by the LRU set and then the set |
| Redis.Server.ZRange | src/llm_inference_engine/api/cache.py:176-178 | the n members that are lowest by score, ties broken by member order |
| Redis.LowestIsUnique | src/llm_inference_engine/api/cache.py:175-178 | ZRANGE has a single answer for every sorted set |
| CacheSpec.RunRefinesLru | src/llm_inference_engine/api/cache.py:86-144 | over every run of gets, puts, invalidations and clears with increasing times, the cache is the textbook LRU list: same keys, same order, same answers |
| CacheSpec.ExactLru | src/llm_inference_engine/api/cache.py:86-125 | the sorted set is exactly the keys with fewer than max_size distinct keys touched since, and a get answers the latest put's text exactly when it is younger than the TTL and its key is one of them |
| CacheSpec.LruRunIsHistory | src/llm_inference_engine/api/cache.py:86-125 | the LRU list equals the reading of the whole touch history |
| CacheSpec.StepRefinesLru | src/llm_inference_engine/api/cache.py:86-182 | each operation on the Redis data is the same operation on the LRU list |
| CacheSpec.EvictionTruncates | src/llm_inference_engine/api/cache.py:169-182 | evicting by score is dropping the least recently used key |
| CacheSpec.RunKeepsTracked | src/llm_inference_engine/api/cache.py:97-144 | in every single-worker run with any clock each stored value is tracked, the set is within max_size, clear empties the store, and a hit never adds a member |
| CacheSpec.CutOffPut | src/llm_inference_engine/api/cache.py:119-182 | a put cut off between any two commands leaves no untracked value and at most one member too many, and changes no other key's answer but those it evicts |
| CacheWorkers.OvershootBound | src/llm_inference_engine/api/cache.py:119-182 | in every interleaving the LRU set exceeds max_size by at most the puts before the end of their eviction plus the uncounted hits that brought a key back |
| CacheWorkers.QuiescentWithinSize | src/llm_inference_engine/api/cache.py:119-182 | with no put running, and every key a hit brought back counted by an eviction since, the set is within max_size |
| CacheWorkers.EvictionHeals | src/llm_inference_engine/api/cache.py:169-181 | an eviction that counted every addition so far brings the set within max_size at its ZREM, whatever other workers do |
| CacheWorkers.StepKeepsBounded | src/llm_inference_engine/api/cache.py:86-182 | every Redis command of every operation keeps the inductive bound over all sets of running evictions |
| CacheWorkers.RangeKeepsBounded | src/llm_inference_engine/api/cache.py:174-178 | picking victims from a stale count keeps the bound, even when victim lists overlap |
| CacheUndershoot.StaleCountDecides | src/llm_inference_engine/api/cache.py:171-178 | whatever happens between an eviction's ZCARD and its ZRANGE, it takes as many lowest members as it counted too many, or all that are left |
| CacheUndershoot.VictimsGo | src/llm_inference_engine/api/cache.py:179-181 | exactly the members it took are deleted and removed, whatever happens before either command |
| CacheUndershoot.UndershootBound | src/llm_inference_engine/api/cache.py:119-182 | from a full cache, through every run of puts and hits with at most p puts in flight and o members too many, at least max_size - (p - 1) o members stay |
| OverlappingPuts.OverlappingPutsUndershoot | src/llm_inference_engine/api/cache.py:119-182 | the floor is attained, or zero, for every size, TTL, p and o >= p, with all calls finished |
| CacheWorkers.RemoveKeepsBounded | src/llm_inference_engine/api/cache.py:179-181 | ending an eviction keeps the bound without its own allowance |
| CacheRaces.SoloIsSequential | src/llm_inference_engine/api/cache.py:86-182 | a call whose commands run without interleaving is the sequential operation |
| CacheRaces.CutOffPutIsPrefix | src/llm_inference_engine/api/cache.py:119-181 | a put cut off after so many commands is the put that stops after those steps, and it is done exactly when its call has finished |
| CacheOvershoot.LateRefreshOvershoots | src/llm_inference_engine/api/cache.py:97-182 | the bound is attained: for every size, TTL, p and n a run leaves max_size + p + n members with p puts running and n late refreshes, n members without a value, and all calls finished when p is zero |
| CacheOvershoot.StepOvershootsIff | src/llm_inference_engine/api/cache.py:86-182 | a command takes the set past its size exactly when the set is full and the command is a ZADD, of a put or of a hit, whose key is no member |
| CacheRaces.CarefulRunKeepsTracked | src/llm_inference_engine/api/cache.py:119-144 | while no put lands inside a removal of its key, every stored value is in the LRU set |
| CacheRaces.CarelessPutIsLost | src/llm_inference_engine/api/cache.py:134-143 | any put that lands inside a removal of its key can end up live and untracked |
| ClockSkew.SkewedPutEvictsItself | src/llm_inference_engine/api/cache.py:117-125 | a put whose score is older than every member of a full cache deletes its own value again |
| ClockSkew.SkewedHitIsEvictedNext | src/llm_inference_engine/api/cache.py:103-104 | a hit with an old score makes its key the next one evicted |
| CircuitBreaker.CircuitBreaker.GetState | src/llm_inference_engine/api/circuit_breaker.py:53-61 | the getter moves OPEN to HALF_OPEN once the cooldown has passed and changes nothing else |
| CircuitBreaker.CircuitBreaker.IsAvailable | src/llm_inference_engine/api/circuit_breaker.py:63-66 | availability is any state but OPEN after the lazy transition |
| CircuitBreaker.CircuitBreaker.RecordFailure | src/llm_inference_engine/api/circuit_breaker.py:75-88 | counts the failure, restarts the cooldown, and opens at the threshold from any state |
| CircuitBreaker.CircuitBreaker.RecordSuccess | src/llm_inference_engine/api/circuit_breaker.py:68-73 | clears the failures and closes from any state |
| CircuitBreaker.ReflectsAdmits | src/llm_inference_engine/api/circuit_breaker.py:53-66 | looking at a breaker never changes its record, and its availability is the stateless test |
| CircuitBreaker.OutcomesReflect | src/llm_inference_engine/api/circuit_breaker.py:68-88 | a failure at or past the limit always opens, from half-open too, and CLOSED is exactly below the limit |
| BackendPool.BackendPool.Create | src/llm_inference_engine/integration/backend_pool.py:40-57 | an empty list is refused; otherwise every backend starts with its own closed breaker and the cursor at zero |
| BackendPool.BackendPool.GetHealthyBackend | src/llm_inference_engine/integration/backend_pool.py:85-98 | returns the first backend from the cursor on that is available when its breaker is asked, moves the cursor past it, and touches no other breaker |
| BackendPool.BackendPool.RecordFailure | src/llm_inference_engine/integration/backend_pool.py:106-110 | only the breaker of the first occurrence of the backend fails; an unknown backend changes nothing |
| BackendPool.BackendPool.RecordSuccess | src/llm_inference_engine/integration/backend_pool.py:100-104 | only the breaker of the first occurrence of the backend is closed |
| BackendPool.BackendPool.BreakerFor | src/llm_inference_engine/integration/backend_pool.py:116-120 | finds the first occurrence by identity, or none |
| BackendPool.BackendPool.HealthyCount | src/llm_inference_engine/integration/backend_pool.py:112-114 | the number of slots whose breaker is available when it is asked, with the lazy transition in each |
| BackendPool.SelectedNone | src/llm_inference_engine/integration/backend_pool.py:91-98 | a scan fails exactly when no slot at all is available |
| BackendPool.ScanIsSelection | src/llm_inference_engine/integration/backend_pool.py:91-98 | a scan over which no cooldown ends is a selection at one moment: same answer, breakers and cursor |
| BackendPool.ScanMissesNobody | src/llm_inference_engine/integration/backend_pool.py:91-98 | whatever the clock reads on the way, a scan finds a backend if one was available when it began, and no later than that one |
| PoolHistory.LazyIsStateless | src/llm_inference_engine/api/circuit_breaker.py:53-94 | after every history a slot is available exactly when its failures since the last success or reset are below the limit or the latest is a cooldown old |
| PoolHistory.OpenIffRecentFailures | src/llm_inference_engine/api/circuit_breaker.py:53-94 | after every history a slot is closed to calls exactly when over some stretch up to now without its success or reset it failed threshold times, and its latest failure is less than a cooldown old |
| PoolHistory.NoneIffAllOpen | src/llm_inference_engine/integration/backend_pool.py:85-120 | after every history a selection answers none exactly when every slot is at the limit and failed less than a cooldown ago |
| PoolHistory.HealthIsSelection | src/llm_inference_engine/api/server.py:219-230 | after every history the health count is the number of slots that pass the stateless test, and zero exactly when a selection would answer none |
| PoolHistory.RecoversAfterCooldown | src/llm_inference_engine/integration/backend_pool.py:85-98 | from one cooldown after the latest recorded failure some backend is always found |
| PoolHistory.ObservationIsInvisible | src/llm_inference_engine/integration/backend_pool.py:112-114 | dropping every health count and state query from a history changes no answer |
| PoolFairness.AnswersRotate | src/llm_inference_engine/integration/backend_pool.py:91-96 | while the available set stands still the answers run through it in cyclic order |
| PoolFairness.RoundRobinIsFair | src/llm_inference_engine/integration/backend_pool.py:85-98 | in any window two members' counts differ by at most one, and as many selections as members choose each exactly once |
| PoolFairness.BoundedWaiting | src/llm_inference_engine/integration/backend_pool.py:91-96 | a backend that is always available takes at least every n-th selection of any window, however the others flap |
| PoolFairness.ProbeRate | src/llm_inference_engine/api/circuit_breaker.py:57-88 | after any history a backend that only fails is chosen at most threshold plus one per cooldown times over a stretch |
| PoolFairness.TriesBound | src/llm_inference_engine/api/circuit_breaker.py:57-88 | the sharper count from any state: what is left of the threshold while closed, one per cooldown afterwards |
| PoolFairness.HalfOpenAdmitsMany | src/llm_inference_engine/api/circuit_breaker.py:53-66 | in any pool a tripped slot past its cooldown is available to every selection until an outcome of it is recorded, and takes at least every n-th one |
| PoolFairness.FailureEndsProbing | src/llm_inference_engine/api/circuit_breaker.py:57-88 | after a failure at the threshold, and until the next outcome of that slot, it is available exactly from one cooldown later on and not chosen before |
| Coalescer.MutualExclusion | src/llm_inference_engine/api/coalescer.py:85-118 | if nobody claims a hash while a holder of it has overrun, at most one call of that hash is between its claim and its DEL, through errors, cancellations and crashes |
| Coalescer.DeleteRemovesOwnLock | src/llm_inference_engine/api/coalescer.py:117-118 | under the same condition a DEL removes the deleting call's own lock and no other |
| LockRelease.FinishedOwnsNoLock | src/llm_inference_engine/api/coalescer.py:107-118 | over every run a call that is past its DEL owns no lock, wherever it failed or was cancelled, unless the DEL was lost |
| LockRelease.ReleasedLockIsClaimable | src/llm_inference_engine/api/coalescer.py:84-118 | if no call of a hash lost its DEL and none holds the lock, the lock is gone and the next claim wins at once |
| LockRelease.LostDeleteBlocks | src/llm_inference_engine/api/coalescer.py:84-118 | when a punctual holder's DEL raises, is cancelled or never comes, its lock stays and every claim of the hash loses until the time to live |
| Coalescer.SecondClaimIffOverrun | src/llm_inference_engine/api/coalescer.py:34-88 | a held hash can be claimed again exactly when its holder has reached the lock's time to live |
| Coalescer.OverrunLetsThirdIn | src/llm_inference_engine/api/coalescer.py:117-118 | after an overrun the DEL removes a punctual holder's lock and a third call gets in |
| Coalescer.StepKeepsLocks | src/llm_inference_engine/api/coalescer.py:84-149 | every step keeps the lock of each holder of a hash in Redis with its own expiry; only a claim of that hash needs prompt holders |
| CoalescerOutcomes.StepKeepsInv | src/llm_inference_engine/api/coalescer.py:60-149 | every step, a DEL that raises included, keeps the invariant on calls, messages and counters |
| CoalescerOutcomes.FallbackWaited | src/llm_inference_engine/api/coalescer.py:92-149 | a loser runs its producer only 25 s after its failed claim or after a message that reads as null |
| CoalescerOutcomes.GivesUpOnTime | src/llm_inference_engine/api/coalescer.py:132-137 | in every continuation a listener can give up exactly from 25 s after its SUBSCRIBE on, and then runs its producer |
| CoalescerOutcomes.CrashedStaysCrashed | src/llm_inference_engine/api/coalescer.py:84-149 | a call whose worker dies leaves Redis as it is and never ends, publishes or deletes anything |
| CoalescerOutcomes.SingleFlight | src/llm_inference_engine/api/coalescer.py:84-149 | of two producers of one hash running at once, one belongs to a waiter that gave up after 25 s |
| CoalescerOutcomes.LateSubscriberMisses | src/llm_inference_engine/api/coalescer.py:111-149 | in every continuation, a call that a PUBLISH did not reach, for one because it was not listening, never ends with that message |
| CoalescerOutcomes.ListenerHears | src/llm_inference_engine/api/coalescer.py:111-149 | in every continuation, a listener with an empty inbox that a PUBLISH reaches can act on that message until it has ended or given up, and never acts on another |
| CoalescerOutcomes.LateSubscriberRunsAgain | src/llm_inference_engine/api/coalescer.py:94-149 | a call still subscribing can always go on to run its own producer |
| CoalescerOutcomes.CoalescedValueIsPublished | src/llm_inference_engine/api/coalescer.py:111-147 | a coalesced value decodes a message that a lock winner of the same hash published while the waiter was subscribed, and the winner ends with that outcome unless it is cancelled, crashes or its DEL raises |
| CoalescerOutcomes.DecodeEncode | src/llm_inference_engine/api/coalescer.py:110-147 | for any JSON codec, a result survives the channel exactly when it is text that is not JSON, or data that json.loads gives back as itself |
| CoalescerOutcomes.CoalescedIsWinnersResult | src/llm_inference_engine/api/coalescer.py:108-147 | a waiter's value is the winner's result exactly when that result survives the channel |
| CoalescerOutcomes.SentinelIsWinnersError | src/llm_inference_engine/api/coalescer.py:113-144 | a waiter raises exactly the error a winner's message states |
| CoalescerOutcomes.UnserialisableNeverReturnedByWinner | src/llm_inference_engine/api/coalescer.py:109-116 | a winner never returns an object json.dumps refuses |
| CoalescerOutcomes.RefusedNeverCoalesced | src/llm_inference_engine/api/coalescer.py:101-147 | when every producer raises or returns an object json.dumps refuses, no winner returns a result, nothing is ever coalesced and every count stays zero |
| CoalescerOutcomes.EveryCallAccountedOnce | src/llm_inference_engine/api/coalescer.py:85-118 | without disturbances each finished call ran its producer once and ended with what it did (an error if json.dumps refused it), or returned a coalesced value, or raised from a sentinel, and each worker's count is the second kind |
| RequestCoalescer.RequestCoalescer.WaitForResult | src/llm_inference_engine/api/coalescer.py:120-149 | the answer is the first message, decoded, if every turn up to it began before the deadline, and nothing otherwise |
| RequestCoalescer.RequestCoalescer.ExecuteAndPublish | src/llm_inference_engine/api/coalescer.py:101-118 | the payload and the end for every outcome of the producer, each stating the other |
| RequestCoalescer.SoloWinner | src/llm_inference_engine/api/coalescer.py:101-118 | in the step system a winner left to itself publishes one message with that payload, deletes its lock and ends that way |
| RequestCoalescer.SoloWaiter | src/llm_inference_engine/api/coalescer.py:91-99 | in the step system a waiter with a message ends, counts and runs its producer as Coalesce does after that reply |
| RequestCoalescer.SoloTimeOut | src/llm_inference_engine/api/coalescer.py:91-99 | in the step system a waiter past its deadline ends as Coalesce does without a reply |
| RequestCoalescer.SoloCancel | src/llm_inference_engine/api/coalescer.py:107-118 | a winner cancelled before its DEL deletes its lock, publishes nothing and ends as cancelled; any other call ends at once and leaves the locks alone |
| RequestCoalescer.SoloPublishFails | src/llm_inference_engine/api/coalescer.py:111-118 | a result whose PUBLISH raises is replaced by an error sentinel with that error, and by the Redis error if that fails too; the lock is deleted |
| RequestCoalescer.SoloFail | src/llm_inference_engine/api/coalescer.py:128-149 | an error of SUBSCRIBE or listening ends the call without a run of its producer |
| RequestCoalescer.SoloLostDelete | src/llm_inference_engine/api/coalescer.py:117-118 | a DEL that raises or is cancelled replaces the call's end and leaves the lock |
| RequestCoalescer.RequestCoalescer.Coalesce | src/llm_inference_engine/api/coalescer.py:60-99 | the producer runs unless a message settled the call, and the counter moves exactly with a coalesced value |
| Throttler.AdaptiveThrottler.Create | src/llm_inference_engine/optimization/throttler.py:76-93 | limits are accepted exactly when 0 < soft < hard <= 1 |
| Throttler.AdaptiveThrottler.Check | src/llm_inference_engine/optimization/throttler.py:125-136 | rejects exactly from the hard limit on and accepts exactly below the soft limit |
| Throttler.AdaptiveThrottler.DecrementActive | src/llm_inference_engine/optimization/throttler.py:142-144 | one less, never below zero |
| InFlight.ActiveIsInFlight | src/llm_inference_engine/api/server.py:313-374 | in every interleaving the counter is the number of requests past their increment and before their decrement, and the clamp never changes a decrement |
| InFlight.StepKeepsCount | src/llm_inference_engine/api/server.py:570-633 | every step of plain and streaming handlers keeps the counter equal to the open requests |
| InFlight.IdleCountIsLeaks | src/llm_inference_engine/api/server.py:570-600 | once all requests have ended the counter is the number of streams that were never started or whose lookup raised |
| InFlight.CounterMissesWork | src/llm_inference_engine/api/server.py:366-374 | any number of requests can be writing the cache, or of streams sending their last events, while the counter is zero |
| InFlight.LeaksAccumulate | src/llm_inference_engine/api/server.py:570-600 | for every n a run ends all its n streams and leaves the counter at n, by streams never pulled or by lookups that raised |
| Streaming.Stream | src/llm_inference_engine/api/server.py:558-635 | replay on a hit, an error event without backend, otherwise the relay's contract, and one decrement in every case |
| Streaming.Relay | src/llm_inference_engine/api/server.py:602-635 | what a relay that completes, fails or is closed has emitted, recorded and stored, with the cache write failing or cancelled after any command |
| Streaming.RelayOnly | src/llm_inference_engine/api/server.py:690-724 | each chunk is emitted as it comes, the collected texts are the emitted ones, and one outcome is recorded unless the client leaves |
| Streaming.Join | src/llm_inference_engine/api/server.py:626-627 | succeeds exactly when no text is missing, and its result can be cut, left to right, into just the given texts in their order |
| Replays.ReplayIsStream | src/llm_inference_engine/api/server.py:570-627 | after a completed stream, and any operations that do not store its key again, a hit is answered with one event whose text can be cut, left to right, into the texts of the emitted events, and comes within the TTL |
| Replays.ReplayedExactly | src/llm_inference_engine/api/server.py:570-627 | over gets and puts with increasing times the replay is served exactly while the text is younger than the TTL and fewer than max_size other keys were touched since |
| Replays.NextRequestHits | src/llm_inference_engine/api/server.py:570-627 | the very next request within the TTL is a hit, in any store within its size |
| Replays.OnlyCompleteStreamsStore | src/llm_inference_engine/api/server.py:602-633 | a relay completes exactly when the client stays, the backend does not raise, no text is missing and the write goes through; any other one leaves every lookup as it was, unless its write was cut off: then its key may already give the whole text and others may be evicted |
| Replays.RelayFates | src/llm_inference_engine/api/server.py:602-635 | events are the chunks one for one; leaving during the relay changes nothing; completing closes the breaker; a raising backend is booked once more and nothing is stored |
| Replays.ServedFailureCostsOne | src/llm_inference_engine/api/server.py:625-630 | a missing text or a refused write after a served stream counts as one failure of the backend, which opens it exactly for a threshold of at most one |
| Sse.FramingRoundTrip | src/llm_inference_engine/api/server.py:623-635 | reading what the server emits with the backend client's parser gives back every list of single-line objects in order, and nothing for the end marker |
| Sse.EmittedLines | src/llm_inference_engine/api/server.py:588-635 | the response is exactly one data line and one blank line for each payload and for the end marker |
| Sse.DispatchRoundTrip | src/llm_inference_engine/api/server.py:588-635 | a client that follows the event-stream rules dispatches exactly the payloads, in order, and then the end marker |
| Sse.FrameIsOneEvent | src/llm_inference_engine/api/server.py:623 | each frame alone dispatches its payload |
| Sse.ReadStream | src/llm_inference_engine/integration/vllm_backend.py:260-269 | the loop yields the payloads of the data lines that are JSON, in order |
| Sse.OtherLinesIgnored | src/llm_inference_engine/integration/vllm_backend.py:260-264 | a line that is not a data line changes nothing |
| Sse.LineMeaning | src/llm_inference_engine/integration/vllm_backend.py:260-269 | what each line gives, whatever white space surrounds it: nothing for blank lines, the end marker, other fields and data that is not JSON, and the data otherwise |
| Sse.CrlfReadsAlike | src/llm_inference_engine/integration/vllm_backend.py:260-269 | a data line that ends with CR LF gives the same payload |
| Retry.PostWithRetry | src/llm_inference_engine/integration/vllm_backend.py:221-249 | stops at the first attempt that is not transient, with the body, the status error or the uncaught error of that attempt, or gives up after max_retries + 1, having slept the backoff times a triangular number |
| Retry.SettledOrExhausted | src/llm_inference_engine/integration/vllm_backend.py:227-249 | one of the two ends always applies |
| Outliers.RemoveOutliers | src/llm_inference_engine/utils/benchmark_utils.py:89-99 | short and constant lists unchanged, otherwise the near values in order, never an empty list |
| Outliers.KeptIsSubsequence | src/llm_inference_engine/utils/benchmark_utils.py:98 | the kept values stand at strictly increasing places of the list, and those places are exactly the values between mean - k std and mean + k std |
| Outliers.KeptAsOften | src/llm_inference_engine/utils/benchmark_utils.py:98 | each value between those two is kept as often as it occurs, and no other is kept |
| Outliers.Chebyshev | src/llm_inference_engine/utils/benchmark_utils.py:94-98 | at most n / k^2 values are removed, strictly fewer if any |
| Outliers.KeepsSomething | src/llm_inference_engine/utils/benchmark_utils.py:98-99 | with a threshold of at least one the filter keeps something |
| Outliers.FallbackDeadIffThresholdAtLeastOne | src/llm_inference_engine/utils/benchmark_utils.py:99 | the fallback never applies exactly for thresholds of at least one |

## Left out

- RedisCache.Cache.Create: a TTL below one second, which the constructor cuts to zero, gives entries that are never live; Redis itself rejects such an expiry with an error, which is not modelled.
- PoolHistory.LazyIsStateless: a selection or health count of a history happens at one moment, while the code reads the clock at each breaker; `BackendPool.ScanIsSelection` says when that is the same.
- Streaming.Stream: a Redis error of the lookup is not modelled here (in `InFlight` it is one way to leak the counter); the generator is modelled from its start, with a cache. `RelayOnly` is the try block without one.
- RedisCache.Cache.Put: a command that raises is taken to have had no effect; in the coalescer likewise, so a PUBLISH or DEL whose reply is lost is not modelled.
- RequestCoalescer.RequestCoalescer.Coalesce: the answers of Redis, the clock and the producer are parameters; the lock's DEL, cancellation and interleaving are in the step system of `Coalescer`.
- CacheSpec.ExactLru: times must increase strictly, because equal scores are ordered by key and not by recency.
- Outliers.Chebyshev: the standard deviation is a parameter tied to the values by its square; floating-point rounding is left out.
- The key functions: SHA-256 and the normalisation of prompts; keys and request hashes are opaque, and whether different requests share one is not considered.
- JSON itself: encoding and decoding are parameters with a failure outcome.
- The exact moment at which Redis expires a key; a value is live while less than the TTL has passed.
- The poll loop and the metric parser of the throttler, API-key checks, metrics and logging.
- Model routing and the fallback router: single branches that would only add easy members.
- The QUEUE decision has no effect in the handlers, so the model has none either.
- Response builders, configuration, percentiles and timers.
