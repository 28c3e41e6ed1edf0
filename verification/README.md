# Kaka in Dafny

A model of the rate limiters of Kaka and proofs of what they promise: the in-memory key store as a
concurrent protocol and as a sequential object, the three decision algorithms over whole runs, the
Redis scripts against them, and the layered limiter on top. `dafny verify dfyconfig.toml` checks
all of it.

## What is modelled

**The decision algorithms** (`Buckets.dfy`, `SlidingWindow.dfy`, `Numeric.dfy`). Each is a pair of
closures, `create` and `decide`, gathered in `Limiter.Algorithm`; the state objects are classes
whose methods update their fields in place, and `decide` is the function those methods are proved
to compute. Time is an unbounded integer of nanoseconds and float64 is `real`. Most theorems speak
of `KeyResults(alg, times)`: everything the requests on one key return.

**The key store as a protocol** (`Protocol.dfy` to `ProtocolTheorems.dfy`, `RealTime.dfy`,
`Rejections.dfy`, `AbsentKeys.dfy`, `StoredRejected.dfy`, `FullStores.dfy`, `NotYetFull.dfy`,
`IdleKeys.dfy`, `Guarantees.dfy`, `Cleanups.dfy`, `EvictionOrder.dfy`, `EvictionCount.dfy`,
`SoloRuns.dfy`). Any number of goroutines call `withState`. A step is one lock or unlock, one
atomic operation on `live` or `evicts`, or one access to a shard whose lock is held; an `Execution`
is any interleaving. The invariant has independent parts: lock ownership, counting, shard shape,
program counters, history of the state objects, answers given. Each step is proved to keep each
(`ProtocolSteps.InvStep`). On top of it stand results about whole runs: what cleanups and sweeps
have removed when they end, which keys are evicted, when and how many, and that a goroutine running
alone returns and does what one call of the sequential store does.

**The key store as an object** (`ShardedStore.dfy`, with its proofs in `Shards.dfy`,
`StoreView.dfy`, `StoreLemmas.dfy`). One caller at a time, shards and counters updated in place,
loops as in the source. It is proved to refine a flat capped map (`FlatStore.dfy`) that loses
exactly the keys a call has to drop (`StoreLemmas.Drops`) and the one it evicts. Two references
leave nothing open: a map with cleanup times, while a cleanup covers a whole shard and nothing is
evicted (`SmallStores.dfy`), and, under EvictLRU with one shard, an exact LRU cache
(`LruCache.dfy`, `CacheRefinement.dfy`). Laws of the
algorithms, such as "an idle state decides as a fresh one", carry over to the store; how long a TTL
must be not to show is settled in `ExactTtl.dfy`.

**The compositions** (`Redis.dfy`, `RedisWindow.dfy`, `Layered.dfy`). A Lua script is one atomic
step on the stored value; its milliseconds are compared with the nanoseconds of the in-memory
limiters, at the latest server time so far when that clock steps back. The layered limiter takes
two layers as functions, so that a local layer can be anything.

Where the source needs an assumption, it is a `requires`: a clock that does not step back for the
sliding window and for transparency, fresh members for the sorted set, validated options
everywhere. The buckets need no such assumption: at any times, each answer is the one the admissions
so far imply (`TokenBucket.RefinesHistory`), and none of the protocol theorems
limits the number of goroutines, keys, shards or steps. For claims that fail without an assumption
there are runs that break them, and the condition under which they hold:

- A bucket keeps its rate bound at denied requests too if and only if the clock never steps back;
  a step back by d costs at most what the rate yields in d (`StepBackBound`, `RateBoundSlack`).
- The sliding window keeps its bound under steps back of at most d if and only if d is zero or the
  limit is one (`SlidingWindow.StepBackBound`), and its Remaining is exact if and only if d is zero
  or the limit is at most two (`StepBackRemaining`).
- A rejected request never has its key in the store if and only if the store has no TTL, no cap,
  or evicts (`RejectsOnlyAbsentIff`). It always overlaps an instant with as many keys stored as
  the cap if and only if all keys share a shard, or nothing is rejected
  (`RejectsOnlyWhenFullIff`). Linearizability to a capped map is therefore not claimed: served
  requests are ordered as in real time, and a rejected one has an instant at which its key is
  absent and the counter, not always the store, is at the cap (`RealTimeOrder`,
  `RejectedAtInstant`).
- An idle bucket decides as a fresh one, which is what makes a TTL invisible, if and only if the
  idle time fills every level a flood leaves, which for a whole capacity means that it yields the
  capacity (`ReachedForgetsLaw`); other capacities can forget sooner (`FractionForgetsSooner`).
  For whole capacities and for the window a shorter TTL does show (`ExactTtl`).

The documentation says that a layered limiter drifts stricter than its remote layer
(`layered/limiter.go:28-31`). With two equal in-memory layers, one clock and no other client it
does not drift at all (`TokenTransparent` and its siblings).

## Model

| member | source | states |
|---|---|---|
| `Numeric.DurationBounds` | memory/numeric.go:19-33 | the rounded duration is less than a nanosecond too long, too short by less than the epsilon, zero exactly below the epsilon, and clamped exactly from the largest duration on |
| `Numeric.DurationExact` | memory/numeric.go:24-33 | an unclamped duration within the epsilon of a whole number of nanoseconds becomes that number, any other is rounded up |
| `TokenBucket.Bucket.RefillAndDecide` | memory/token_bucket.go:90-117 | the updates in place compute `Decide` |
| `TokenBucket.RefinesHistory` | memory/token_bucket.go:90-117 | at any times, every answer is the one implied by the least slack between what capacity and rate allow since an earlier request and what was admitted since |
| `TokenBucket.AdmitsExactly` | memory/token_bucket.go:90-117 | at any times, a request is admitted if and only if, counted from each earlier request, the rate bound still holds with it |
| `TokenBucket.PotentialStep` | memory/token_bucket.go:90-117 | tokens minus rate times last refill drops by one per admission and never rises, at any times |
| `TokenBucket.SegmentBound` | memory/token_bucket.go:90-117 | from any state, a run that ends with an admission admits at most capacity plus the yield between its ends |
| `TokenBucket.RateBound` | memory/token_bucket.go:90-117 | requests i to j of any run at any times, j admitted: at most capacity + rate * (t_j - t_i) admissions |
| `TokenBucket.RateBoundMonotone` | memory/token_bucket.go:90-117 | with an ordered clock the same bound holds for every i and j |
| `TokenBucket.RateBoundSlack` | memory/token_bucket.go:90-117 | at every request, admitted or not: a clock that steps back by at most d costs at most the yield of d |
| `TokenBucket.StepBackExceeds` | memory/token_bucket.go:90-117 | for all parameters and every d >= 1, a run with steps back of at most d breaks the plain bound at a denied request |
| `TokenBucket.StepBackBound` | memory/token_bucket.go:90-117 | the plain bound holds at every request of all runs with steps back of at most d if and only if d is zero |
| `TokenBucket.AdmittedAfterWait` | memory/token_bucket.go:90-117 | a wait suffices if and only if it is at least the exact wait for the missing part of a token |
| `TokenBucket.RetryAfterTight` | memory/token_bucket.go:102-116 | a nanosecond before RetryAfter is denied, at it the answer is settled exactly, a nanosecond after an unclamped one is admitted |
| `TokenBucket.RemainingExact` | memory/token_bucket.go:102-116 | from any state, of any number of further requests at the same instant exactly Remaining are admitted |
| `TokenBucket.RefillComposes` | memory/token_bucket.go:90-100 | refilling lazily in one go equals refilling in between |
| `TokenBucket.FitLaw` | memory/token_bucket.go:49-54 | a fresh bucket is well formed and admits; decisions keep buckets well formed |
| `TokenBucket.DenialsLaw` | memory/token_bucket.go:90-117 | no later decision can tell whether a denied request was made |
| `TokenBucket.ForgetsLaw` | memory/token_bucket.go:90-117 | all levels from zero to the capacity decide as a fresh bucket after an idle time if and only if it fills the bucket |
| `TokenBucket.ReachedForgetsLaw` | memory/token_bucket.go:90-117 | the levels requests really lead to decide as a fresh bucket after an idle time if and only if it fills every level a flood leaves; if the capacity is whole, if and only if it yields the capacity |
| `TokenBucket.FloodReached` | memory/token_bucket.go:90-117 | every level of a flood, in which requests take all they can at every nanosecond, is reached |
| `TokenBucket.FloodedStep` | memory/token_bucket.go:90-117 | every reached level is a whole number of tokens above one of a flood |
| `TokenBucket.FractionForgetsSooner` | memory/token_bucket.go:90-117 | a capacity of one and a half can forget sooner than the rate yields it |
| `LeakyBucket.Bucket.LeakAndDecide` | memory/leaky_bucket.go:89-119 | the updates in place compute `Decide` |
| `LeakyBucket.Bisimulation` | memory/leaky_bucket.go:89-119 | tokens = capacity - water is kept by every step at any time, backward ones included, with equal results |
| `LeakyBucket.SameRuns` | memory/leaky_bucket.go:89-119 | every run returns what the token bucket returns, result for result |
| `LeakyBucket.SameKeyResults` | memory/leaky_bucket.go:89-119 | likewise from the creation of a key |
| `LeakyBucket.RefinesHistory` | memory/leaky_bucket.go:89-119 | at any times every answer is read off the admissions of the key as for the token bucket |
| `LeakyBucket.RateBound` | memory/leaky_bucket.go:89-119 | the rate bound at any times |
| `LeakyBucket.StepBackBound` | memory/leaky_bucket.go:89-119 | at every request of all runs with steps back of at most d, if and only if d is zero |
| `LeakyBucket.RetryAfterTight` | memory/leaky_bucket.go:103-118 | RetryAfter is tight for the water that has still to leak |
| `LeakyBucket.RemainingExact` | memory/leaky_bucket.go:103-118 | Remaining is exact from any state |
| `LeakyBucket.LawsHold` | memory/leaky_bucket.go:89-119 | well-formedness kept, fresh buckets admit, denials leave no trace |
| `LeakyBucket.ForgetsLaw` | memory/leaky_bucket.go:89-119 | all levels decide as a fresh bucket after an idle time if and only if it drains the bucket |
| `LeakyBucket.ReachedForgetsLaw` | memory/leaky_bucket.go:89-119 | the two buckets forget alike, exactly under the same condition |
| `SlidingWindow.WindowState.RecordAndDecide` | memory/sliding_window_log.go:86-125 | search, compaction and append in place compute `Decide`, and length and capacity stay within the limit |
| `SlidingWindow.WindowState.Trim` | memory/sliding_window_log.go:89-105 | the entries from the found index on remain, in order |
| `SlidingWindow.WindowState.FindValid` | memory/sliding_window_log.go:89-100 | the loop ends with the index `Search` defines, for any log, and looks at no more timestamps than the length has binary digits |
| `SlidingWindow.SearchFindsBoundary` | memory/sliding_window_log.go:89-100 | for any log, in order or not, the entry found is after the start of the window and the one before it is not |
| `SlidingWindow.WindowState.Compact` | memory/sliding_window_log.go:101-105 | the overlapping copy within one buffer moves a suffix to the front |
| `SlidingWindow.WindowState.AppendWindowLog` | memory/sliding_window_log.go:127-146 | growth keeps the contents and the bounds; all growth steps of a state copy fewer than twice the limit timestamps |
| `SlidingWindow.SearchSorted` | memory/sliding_window_log.go:89-100 | on a sorted log the search finds the boundary of the window |
| `SlidingWindow.PruneIsRecent` | memory/sliding_window_log.go:89-105 | pruning a sorted log is filtering it |
| `SlidingWindow.LogFollowsHistory` | memory/sliding_window_log.go:86-125 | a decision keeps the log equal to the recent part of the admission history and answers as the history says |
| `SlidingWindow.RefinesHistory` | memory/sliding_window_log.go:86-125 | with an ordered clock every run is answered as the full history of admissions says |
| `SlidingWindow.WindowNeverExceeded` | memory/sliding_window_log.go:86-146 | with an ordered clock no half-open window, wherever laid, holds more than the limit |
| `SlidingWindow.OneAtATime` | memory/sliding_window_log.go:86-125 | with a limit of one, admissions are a window apart at any times |
| `SlidingWindow.StepBackExceeds` | memory/sliding_window_log.go:86-125 | for every larger limit and every step back of up to a window, a run puts limit + 1 admissions in a window |
| `SlidingWindow.StepBackBound` | memory/sliding_window_log.go:86-125 | the window bound holds of all runs with steps back of at most d if and only if d is zero or the limit is one |
| `SlidingWindow.AnyClockBound` | memory/sliding_window_log.go:86-125 | under an arbitrary clock the window bound holds of all runs if and only if the limit is one |
| `SlidingWindow.RetryAfterPositive` | memory/sliding_window_log.go:117-124 | a denial asks for a positive wait, even with a log out of order |
| `SlidingWindow.RetryAfterExact` | memory/sliding_window_log.go:117-124 | a nanosecond less than RetryAfter is denied, RetryAfter is admitted |
| `SlidingWindow.RemainingExact` | memory/sliding_window_log.go:89-124 | for any log, in order or not: exactly Remaining further requests at the same instant are admitted if and only if the search leaves the log alone while the burst fills it |
| `SlidingWindow.RemainingExactInOrder` | memory/sliding_window_log.go:107-124 | so always with an ordered clock |
| `SlidingWindow.StepBackRemaining` | memory/sliding_window_log.go:89-124 | Remaining is exact in every state of all runs with steps back of at most d if and only if d is zero or the limit is at most two |
| `SlidingWindow.AnyClockRemaining` | memory/sliding_window_log.go:89-124 | under an arbitrary clock, if and only if the limit is at most two |
| `SlidingWindow.DenialInvisible` | memory/sliding_window_log.go:86-125 | a denial leaves any log, in order or not, as it is, so nothing can tell it was made |
| `SlidingWindow.LawsHold` | memory/sliding_window_log.go:86-125 | logs stay sorted and short, fresh logs admit, denials leave no trace |
| `SlidingWindow.ForgetsLaw` | memory/sliding_window_log.go:86-125 | an idle log decides as a fresh one if and only if the idle time covers the window |
| `Shards.TouchHomes` | memory/sharded_store.go:144-148 | touching keeps list and index in step, keys at home, and the number of keys |
| `Shards.InsertHomes` | memory/sharded_store.go:166-169 | inserting a new key keeps the shape and adds one key |
| `Shards.RemoveHomes` | memory/sharded_store.go:337-344 | removing a stored key keeps the shape and removes one key |
| `Shards.ScanAll` | memory/sharded_store.go:297-307 | a cleanup of a shard with no more keys than a batch looks at every key |
| `Shards.BatchTakesAll` | memory/sharded_store.go:288-313 | a due cleanup of a shard with no more keys than a batch removes exactly the expired ones |
| `Shards.OncePerInterval` | memory/sharded_store.go:292-295 | whatever the times, cleanups or sweeps that are carried out are an interval apart |
| `Shards.NeverLate` | memory/sharded_store.go:292-295 | one is not carried out only if another was less than an interval before |
| `ProtocolSteps.InvStep` | memory/sharded_store.go:77-345 | every step of every goroutine keeps the whole invariant |
| `ProtocolTheorems.ReachableInv` | memory/sharded_store.go:77-345 | the invariant holds in every state of every interleaving |
| `ProtocolTheorems.ExactCap` | memory/sharded_store.go:111-345 | at every step `live` = stored keys + debts, within the cap; exact once all goroutines have returned |
| `ProtocolTheorems.LifeIsSequential` | memory/sharded_store.go:77-93 | the results of one life of a key are those of a sequential run from a fresh state |
| `ProtocolTheorems.Serializable` | memory/sharded_store.go:77-170 | a returned result is the last one of a sequential run, in lock order, over the requests since the creation of its key; each goroutine decides exactly once, a rejected one never |
| `RealTime.RealTimeOrder` | memory/sharded_store.go:77-93 | served requests are ordered as in real time: one that returned before another began is decided first, in every later log |
| `ProtocolTheorems.OneStatePerKey` | memory/sharded_store.go:111-170 | a key has a state if and only if it was created and not removed since, the state its history made, shared with no other key |
| `ProtocolTheorems.OnlyRejectRejects` | memory/sharded_store.go:183-228 | in every interleaving only EvictReject with a cap turns a request away |
| `ProtocolTheorems.LockDiscipline` | memory/sharded_store.go:205-269 | no goroutine owns two shard locks, one that wants a shard lock owns none, one that wants sweepMu owns none at all |
| `ProtocolTheorems.CanStep` | memory/sharded_store.go:77-345 | a goroutine that waits for no lock, or for a free one, can step |
| `ProtocolTheorems.OwnerCanStep` | memory/sharded_store.go:205-269 | the owner of a shard lock waits for nothing |
| `ProtocolTheorems.DeadlockFree` | memory/sharded_store.go:205-269 | while some goroutine has not returned, some goroutine can step |
| `Rejections.RejectedForCause` | memory/sharded_store.go:111-122 | a rejected request found its key absent at its first look and later, after making room was tried, the counter at the cap |
| `Cleanups.HomeCleanedUp` | memory/sharded_store.go:111-137 | in every interleaving, a goroutine past the cleanup of its home shard has removed from the shard it found exactly a batch of expired keys, if that was due |
| `Cleanups.SweptFirst` | memory/sharded_store.go:198-253 | in every interleaving with a TTL, a goroutine that is rejected or evicts elsewhere has been at the sweep gate and, if a sweep was due there, has then removed exactly a batch of expired keys from every due shard |
| `Cleanups.RejectedSweptClean` | memory/sharded_store.go:216-253 | so of the shards due when a rejected goroutine visited them, those a batch covers had no expired key left when it unlocked them |
| `Cleanups.SweepsOnce` | memory/sharded_store.go:188-226 | in every interleaving a request sweeps at most once |
| `EvictionOrder.OrderedByTouch` | memory/sharded_store.go:143-170 | in every interleaving every list runs from the key touched or created last to the one touched first |
| `EvictionOrder.EvictsLeastRecent` | memory/sharded_store.go:257-284 | in every interleaving an eviction removes just the key of its shard whose last touch or creation lies furthest back, and fails only on an empty shard |
| `EvictionCount.EvictsOnlyWhenFull` | memory/sharded_store.go:189-215 | in every interleaving a goroutine evicts only after it has itself seen the counter at the cap, at home while it holds the lock |
| `EvictionCount.EvictsCounted` | memory/sharded_store.go:273-284 | in every interleaving `evicts` is the number of evicted keys less those still to be counted, so exact once all have returned |
| `SoloRuns.AloneAnswers` | memory/sharded_store.go:77-345 | a goroutine running while no other holds a lock drops exactly what the sequential store drops, evicts the same key, counts it, and serves or rejects the call by the same rule, with one decision on the state the key had or a new one |
| `SoloRuns.AloneReturns` | memory/sharded_store.go:77-345 | such a goroutine always returns: every run of it alone extends to one that ends |
| `FullStores.RejectedAtInstant` | memory/sharded_store.go:183-226 | a rejected request has an instant, after its first look, at which it holds the lock of its shard, its key is absent and the counter is at the cap |
| `FullStores.InstantInRealTime` | memory/sharded_store.go:183-226 | that instant lies between its beginning and its rejection: requests served before it began are in the log by then |
| `FullStores.FullAtInstant` | memory/sharded_store.go:183-226 | if all keys share a shard, as many keys as the cap are stored at that instant |
| `NotYetFull.TurnsAwayEarly` | memory/sharded_store.go:189-226 | if keys of different shards exist, some execution, with or without a TTL and for every cap, rejects a request while another sits on a reserved slot all the time |
| `NotYetFull.RejectsOnlyWhenFullIff` | memory/sharded_store.go:75-93 | rejected requests always overlap an instant with as many keys stored as the cap if and only if all keys share a shard, there is no cap, or the policy is EvictLRU |
| `AbsentKeys.KeptStep` | memory/sharded_store.go:183-228 | without a TTL a full EvictReject store stays full, and the key of a request that found it so stays absent |
| `AbsentKeys.AbsentWhenRejected` | memory/sharded_store.go:183-228 | under EvictReject without a TTL the key of a rejected request is absent when it is rejected and in every later state |
| `StoredRejected.TurnsStoredAway` | memory/sharded_store.go:216-226 | in every configuration with EvictReject, a cap and a TTL, some execution rejects a request while its key is stored |
| `StoredRejected.RejectsOnlyAbsentIff` | memory/sharded_store.go:183-228 | only absent keys are rejected, in all executions, if and only if the policy is EvictLRU, there is no cap, or there is no TTL |
| `Guarantees.ConcurrentRateBound` | memory/token_bucket.go:65-117 | the rate bound for each life of a token bucket key in every interleaving of the concurrent store |
| `Guarantees.ConcurrentLeakBound` | memory/leaky_bucket.go:64-119 | likewise for a leaky bucket key |
| `Guarantees.ConcurrentWindowBound` | memory/sliding_window_log.go:61-125 | the window bound for each life of a sliding window key in every interleaving, if its times arrive in order |
| `IdleKeys.IdleStep` | memory/sharded_store.go:111-170 | without a cap every step keeps: an entry was last seen when its key was last served, and only keys idle for the TTL are dropped |
| `IdleKeys.DropsInvisible` | memory/sharded_store.go:288-345 | in a legal log whose drops are of idle keys, the answers for a key over all its lives are those of one run |
| `IdleKeys.ConcurrentTtlInvisible` | memory/sharded_store.go:77-137 | so in every interleaving without a cap, if idle states decide as fresh ones and the events on the key, removals included, arrive in order |
| `Guarantees.ConcurrentTokenTtl` | memory/token_bucket.go:65-117 | without a cap, and if the events on the key, removals included, arrive in order: with TTL * rate >= capacity no interleaving shows the TTL |
| `Guarantees.ConcurrentLeakTtl` | memory/leaky_bucket.go:64-119 | likewise for the leaky bucket |
| `Guarantees.ConcurrentWindowTtl` | memory/sliding_window_log.go:61-125 | likewise for the sliding window, with TTL >= window |
| `ShardedStore.Store.WithState` | memory/sharded_store.go:77-93 | one flat capped map loses exactly a batch of expired keys of the home shard if due, of the other shards if a sweep has to be made and is due, and at most one oldest key, then serves the request; EvictLRU never rejects, EvictReject only when full; evictions are counted |
| `ShardedStore.Store.GetOrCreate` | memory/sharded_store.go:111-170 | the key ends in front with its own state or a fresh one; a due home shard is cleaned up, and left without an expired key if a batch covers it; the other shards are swept exactly if they have to be; the re-check never finds the key |
| `ShardedStore.Store.ReserveSlot` | memory/sharded_store.go:183-228 | terminates with an exact reservation, after at most one eviction, or rejects at the cap under EvictReject only; sweeps if and only if the store is full with nothing to evict at home, and a sweep is due |
| `ShardedStore.Store.MakeRoom` | memory/sharded_store.go:198-215 | a full EvictLRU store always gets room, from home, by the sweep if home is empty, or else from the first other shard that has keys; a due sweep removes a batch of every due shard |
| `ShardedStore.Store.SweepExpired` | memory/sharded_store.go:233-253 | nothing unless due; else every due shard loses exactly a batch of expired keys, all of them if a batch covers it |
| `ShardedStore.Store.EvictAnyOther` | memory/sharded_store.go:257-269 | the oldest key of the first other shard that has keys goes; if none has, nothing changes |
| `ShardedStore.Store.EvictFrom` | memory/sharded_store.go:273-284 | evicts the back of the list if there is one, and counts it |
| `ShardedStore.Store.Cleanup` | memory/sharded_store.go:288-345 | nothing unless due; else exactly the expired keys of the scanned batch go |
| `ShardedStore.Store.ScanMap` | memory/sharded_store.go:297-307 | the expired ones of a batch of distinct keys in arbitrary order |
| `ShardedStore.Store.ScanList` | memory/sharded_store.go:328-336 | the expired ones among the newest keys of the list, up to a batch |
| `ShardedStore.Store.RemoveBatch` | memory/sharded_store.go:308-313 | exactly the batch goes, each key with its slot |
| `ShardedStore.Store.ServeCalls` | memory/sharded_store.go:69-170 | any call sequence is answered by a flat map that on each call loses exactly the expired keys the call has to drop and, only if a new key finds it full under EvictLRU, the oldest one, never the served one; under EvictReject without TTL nothing |
| `ShardedStore.Store.ServeExactly` | memory/sharded_store.go:69-345 | without evictions and while no shard outgrows a batch, with any TTL and cap, every call sequence is answered as one map with a cleanup time per shard answers it |
| `ShardedStore.ServeBoth` | memory/sharded_store.go:69-137 | two EvictReject stores without TTL, with the same algorithm, cap and contents, answer every call sequence alike, whatever their shard counts and hash functions |
| `ShardedStore.Store.ServeUncapped` | memory/sharded_store.go:69-170 | without a cap, and with a TTL if calls are ordered and idle states decide as fresh ones, the answers for each key are those of a limiter that only saw that key and never dropped it |
| `ShardedStore.Store.ServeCached` | memory/sharded_store.go:143-170 | one EvictLRU shard without TTL answers as, and holds what, the exact LRU cache does |
| `LruCache.RequestKeys` | memory/sharded_store.go:143-170 | a request moves or puts its key in front; a new key displaces only the last of a full cache |
| `LruCache.HoldsMostRecent` | memory/sharded_store.go:143-170 | after any requests the cache holds exactly the most recently used distinct keys that fit, in order |
| `CacheRefinement.CacheStep` | memory/sharded_store.go:143-284 | one call on one EvictLRU shard is one request on the exact LRU cache |
| `StoreLemmas.OldestIsLeastRecent` | memory/sharded_store.go:273-284 | with any shard count the evicted key is the least recently accessed of its shard |
| `StoreLemmas.CleanupSweeps` | memory/sharded_store.go:288-345 | a due cleanup of a shard no larger than a batch leaves nothing expired |
| `StoreLemmas.MissDrops` | memory/sharded_store.go:111-137 | a call that does not find its key drops a batch at home and then what making room drops, and no more |
| `SmallStores.StepIsExact` | memory/sharded_store.go:77-345 | one call of a store whose shards a batch covers, without eviction, is one step of the map with cleanup times |
| `FlatStore.CleanupInvisible` | memory/sharded_store.go:288-345 | without a cap and with ordered calls: whatever expired keys each cleanup drops, the answers are those of no cleanup, if idle states decide as fresh ones |
| `FlatStore.TokenTtlInvisible` | memory/token_bucket.go:90-117 | without a cap and with ordered calls: with TTL * rate >= capacity every run answers as without TTL |
| `FlatStore.LeakyTtlInvisible` | memory/leaky_bucket.go:89-119 | likewise for the leaky bucket |
| `FlatStore.WindowTtlInvisible` | memory/sliding_window_log.go:86-125 | without a cap and with ordered calls: with TTL >= window every run answers as without TTL |
| `ExactTtl.DropShows` | memory/sharded_store.go:288-345 | a TTL shows if some state left alone for it answers a burst otherwise than a fresh one |
| `ExactTtl.WindowTtlExact` | memory/sliding_window_log.go:86-125 | without a cap, the TTL never shows in ordered calls if and only if cleanup is off or TTL >= window |
| `ExactTtl.TokenTtlExact` | memory/token_bucket.go:90-117 | without a cap and for a whole capacity, if and only if cleanup is off or TTL * rate >= capacity |
| `ExactTtl.LeakyTtlExact` | memory/leaky_bucket.go:89-119 | likewise for the leaky bucket |
| `FlatStore.KeysIsolated` | memory/sharded_store.go:77-93 | without cap or TTL the answers for a key in any interleaving of keys are those of its own calls alone |
| `RedisCommon.MillisCoverNanos` | redis/scripts/token_bucket.lua:37-46 | a wait rounded up to milliseconds covers the in-memory one and is at most a millisecond longer |
| `RedisToken.Key.Eval` | redis/scripts/token_bucket.lua:7-52 | the script's assignments compute `Script` |
| `RedisToken.StepAgrees` | redis/scripts/token_bucket.lua:14-52 | one script call answers as the in-memory bucket at the same level and time, and leaves the same level |
| `RedisToken.HeldReplies` | redis/scripts/token_bucket.lua:21-26 | for any server clock, the replies are those at the latest server time so far |
| `RedisCommon.MaximaBounds` | redis/scripts/token_bucket.lua:21-26 | the latest times so far never step back, are never early, and leave ordered clocks alone |
| `RedisToken.AgreesWithMemory` | redis/scripts/token_bucket.lua:14-52 | for any server clock, rollbacks included: every run agrees with the in-memory bucket asked at the latest server time so far; Allowed and Remaining equal, RetryAfter up to a millisecond more |
| `RedisToken.ScriptPotential` | redis/scripts/token_bucket.lua:14-48 | the potential drops by one per admission and never rises, even when the server clock steps back |
| `RedisLeaky.Key.Eval` | redis/scripts/leaky_bucket.lua:7-54 | the script's assignments compute `Script` |
| `RedisLeaky.Bisimulation` | redis/scripts/leaky_bucket.lua:14-54 | the two bucket scripts move in lock step for any server clock |
| `RedisLeaky.AgreesWithMemory` | redis/scripts/leaky_bucket.lua:14-54 | for any server clock every run agrees likewise with the in-memory leaky bucket |
| `RedisWindow.Key.Eval` | redis/scripts/sliding_window_log.lua:8-36 | the script's commands compute `Script` |
| `RedisWindow.InsertNewest` | redis/scripts/sliding_window_log.lua:24-27 | the newest score goes last, wherever its member sorts among equal scores |
| `RedisWindow.InsertByScore` | redis/scripts/sliding_window_log.lua:24-27 | an insertion at any clock keeps the set ordered by score |
| `RedisWindow.AnyClockReplies` | redis/scripts/sliding_window_log.lua:17-36 | for any server clock and distinct members, every reply is the one read off the unordered bag of admissions that no later call has cut away |
| `RedisWindow.SurvivorsIn` | redis/scripts/sliding_window_log.lua:17-27 | an admission that no later call has cut away is in that bag |
| `RedisWindow.InSurvives` | redis/scripts/sliding_window_log.lua:17-27 | and nothing else is |
| `RedisWindow.StepAgrees` | redis/scripts/sliding_window_log.lua:17-36 | one script call answers as the in-memory log with the same entries, and leaves the same entries |
| `RedisWindow.AgreesWithMemory` | redis/scripts/sliding_window_log.lua:17-36 | with fresh members and ordered times every run returns the same results, waits included |
| `Layered.RemoteDecides` | layered/limiter.go:78-109 | any number of instances with arbitrary, even failing, local layers: the remote sees exactly the calls not denied locally and its replies are returned as they are |
| `Layered.LayersApart` | layered/limiter.go:78-109 | for any two layers and any calls: the local states and replies are those of the local layer serving all calls alone, the remote ones those of the remote layer serving the calls passed on, and a local denial is returned as it is |
| `Layered.BehindStep` | layered/limiter.go:78-98 | a remote layer that missed only denials still answers alike |
| `Layered.Transparent` | layered/limiter.go:78-109 | without a cap and with ordered calls: if denials leave no trace and fresh states admit, the layered limiter returns what the remote alone would, on every sequence of calls |
| `Layered.TokenTransparent` | layered/limiter.go:78-109 | so for two equal token buckets without a cap, on ordered calls |
| `Layered.LeakyTransparent` | layered/limiter.go:78-109 | so for two equal leaky buckets without a cap, on ordered calls |
| `Layered.WindowTransparent` | layered/limiter.go:78-109 | so for two equal sliding windows without a cap, on ordered calls |
| `DistributedQuota.StretchBound` | redis/scripts/token_bucket.lua:14-48 | from any stored level, a stretch of arrivals is granted at most capacity plus the yield of its guarded time |
| `DistributedQuota.QuotaHolds` | layered/limiter.go:78-109 | any instances, local layers, interleaving and server clock: between remote calls i and j at most capacity + rate * (now_j - now_i) / 1000 are granted, in guarded time |

## Left out

- HTTP, Gin, Echo and Fiber middleware, and the example programs.
- The Redis client: EVALSHA and NOSCRIPT handling, decoding of replies, the error-policy fallback.
- Expiry of Redis keys and failures of the server. A script is one atomic step on a key that stays.
- Metric sinks, `WithOnError`, and `drainEvictions`. The pending-eviction counter itself is modelled.
- Key validation and option setters. What a constructor panics on is a precondition, so the blank-key error of `Allow` is not modelled.
- Floating-point rounding, NaN and infinities, int64 overflow, and the saturation of `time.Sub`. Quantities are reals and unbounded integers; the clamp to the largest duration is kept.
- The FNV-1a hash. Shards are chosen by any function into the shard indices, so the theorems hold of FNV-1a too.
- The random members of the Redis sliding window. They are inputs, required to be distinct where that matters.
- Fairness. That some goroutine can always step, and that one running alone returns, is proved; not that a given one eventually does under contention.
- Aliasing between shards and entries. A shard is a value in the `shards` field of the store, its linked list a sequence; the protocol keeps references to state objects as indices into a heap.
- ShardedStore.Store.GetOrCreate: models `getOrCreateMap` and `getOrCreateLRU` together, since they differ in the list only; run by one caller, so the re-check of a key after reserving is shown to find nothing instead of being a branch. The branch is in the protocol.
- ShardedStore.Store.ReserveSlot: the compare-and-swap always succeeds for one caller; the failing branch is in the protocol.
- Rejections.RejectedForCause: does not say that the key is absent or the store full when the request is rejected; exactly when those hold is `StoredRejected.RejectsOnlyAbsentIff` and `NotYetFull.RejectsOnlyWhenFullIff`.
- SoloRuns.AloneAnswers: states the answer on references to state objects, with the relations `Drops`, `Evicted` and `Placed` that the contract of the sequential store uses on states.
- DistributedQuota.QuotaHolds: states the quota of one Redis key; keys do not share state.
- TokenBucket.RateBound: requires the last request to be admitted; at a denied one the bound holds exactly when the clock never steps back (`TokenBucket.StepBackBound`).
- ExactTtl.TokenTtlExact: for whole capacities only. With a fractional one two levels can differ and still answer alike, so that a TTL may stay unseen although it does not fill the bucket.
