/** The guarantees of the limiters on top of the concurrent store: whatever the
    interleaving, eviction policy and cap, each life of a key obeys its algorithm's bound. */
module Guarantees {
  import opened Limiter
  import opened Shards
  import opened Protocol
  import opened ProtocolInvariant
  import opened ProtocolTheorems
  import opened IdleKeys
  import TokenBucket
  import LeakyBucket
  import SlidingWindow
  import BucketParams

  /** The requests served since the state of `key` was created, in lock order. */
  lemma {:induction false} LifeInRun<S>(c: Config<S>, run: seq<State<S>>, i: nat, key: Key)
    requires Execution(c, run) && i < |run| && LifeOf(run[i].log, key).Some?
    ensures var life := LifeOf(run[i].log, key).value;
            life.results == Results(c.alg, c.alg.create(life.created), life.times)
  {
    ReachableInv(c, run, i);
    hide Execution, LifeOf, Locks, AllPcs, AllHomes, Counted, Answers;
    LifeIsSequential(c.alg, run[i].log, key);
  }

  /** The rate bound of a token bucket run from any fresh state. */
  lemma {:induction false} LifeRateBound(p: BucketParams.Params, created: int, times: seq<int>, i: nat, j: nat)
    requires p.Valid() && i <= j < |times|
    requires Results(TokenBucket.Alg(p), TokenBucket.Fresh(p, created), times)[j].allowed
    ensures CountAllowed(Results(TokenBucket.Alg(p), TokenBucket.Fresh(p, created), times)[i..j + 1]) as real
            <= p.capacity + p.Yield(times[j] - times[i])
  {
    var s, segment := RunSegment(TokenBucket.Alg(p), TokenBucket.Fresh(p, created), times, i, j);
    hide *;
    TokenBucket.SegmentBound(p, s, segment, times[i], times[j]);
  }

  /** In every interleaving, a token bucket key admits, between any two of the requests it
      has served since its creation of which the second was admitted, at most the capacity
      plus the rate times the time between them. The times, read before the shard lock is
      taken, need not be in order. */
  lemma {:induction false} ConcurrentRateBound(p: BucketParams.Params, c: Config<TokenBucket.State>,
                                               run: seq<State<TokenBucket.State>>, n: nat, key: Key, i: nat, j: nat)
    requires p.Valid() && c.alg == TokenBucket.Alg(p)
    requires Execution(c, run) && n < |run| && LifeOf(run[n].log, key).Some?
    requires var life := LifeOf(run[n].log, key).value;
             i <= j < |life.times| && life.results[j].allowed
    ensures var life := LifeOf(run[n].log, key).value;
            CountAllowed(life.results[i..j + 1]) as real <= p.capacity + p.Yield(life.times[j] - life.times[i])
  {
    LifeInRun(c, run, n, key);
    var life := LifeOf(run[n].log, key).value;
    assert c.alg.create(life.created) == TokenBucket.Fresh(p, life.created);
    hide *;
    LifeRateBound(p, life.created, life.times, i, j);
  }

  /** So does a leaky bucket key. */
  lemma {:induction false} ConcurrentLeakBound(p: BucketParams.Params, c: Config<LeakyBucket.State>,
                                               run: seq<State<LeakyBucket.State>>, n: nat, key: Key, i: nat, j: nat)
    requires p.Valid() && c.alg == LeakyBucket.Alg(p)
    requires Execution(c, run) && n < |run| && LifeOf(run[n].log, key).Some?
    requires var life := LifeOf(run[n].log, key).value;
             i <= j < |life.times| && life.results[j].allowed
    ensures var life := LifeOf(run[n].log, key).value;
            CountAllowed(life.results[i..j + 1]) as real <= p.capacity + p.Yield(life.times[j] - life.times[i])
  {
    LifeInRun(c, run, n, key);
    var life := LifeOf(run[n].log, key).value;
    assert c.alg.create(life.created) == LeakyBucket.Fresh(p, life.created);
    LeakyBucket.Bisimulation(p, LeakyBucket.Fresh(p, life.created), life.created);
    hide *;
    LeakyBucket.SameRuns(p, LeakyBucket.Fresh(p, life.created), life.times);
    LifeRateBound(p, life.created, life.times, i, j);
  }

  /** A sliding window key never admits more than `limit` requests in any window, provided
      the times reach it in order. */
  lemma {:induction false} ConcurrentWindowBound(p: SlidingWindow.Params, c: Config<seq<int>>,
                                                 run: seq<State<seq<int>>>, n: nat, key: Key, t: int)
    requires p.Valid() && c.alg == SlidingWindow.Alg(p)
    requires Execution(c, run) && n < |run| && LifeOf(run[n].log, key).Some?
    requires Nondecreasing(LifeOf(run[n].log, key).value.times)
    ensures var life := LifeOf(run[n].log, key).value;
            SlidingWindow.CountIn(SlidingWindow.Admitted(life.times, life.results), t, p.window) <= p.limit
  {
    LifeInRun(c, run, n, key);
    var life := LifeOf(run[n].log, key).value;
    assert c.alg.create(life.created) == [];
    hide *;
    SlidingWindow.WindowNeverExceeded(p, life.times, t);
  }

  /** In every interleaving without a cap, a TTL that fills the bucket never shows. */
  lemma {:induction false} ConcurrentTokenTtl(p: BucketParams.Params, c: Config<TokenBucket.State>,
                                              run: seq<State<TokenBucket.State>>, n: nat, key: Key)
    requires p.Valid() && c.alg == TokenBucket.Alg(p) && c.maxKeys == 0 && p.Yield(c.keyTTL) >= p.capacity
    requires Execution(c, run) && n < |run| && InOrder(run[n].log, key)
    ensures ResultsIn(run[n].log, key) == KeyResults(c.alg, TimesIn(run[n].log, key))
  {
    TokenBucket.FitLaw(p);
    TokenBucket.ForgetsLaw(p, c.keyTTL);
    hide *;
    ConcurrentTtlInvisible(c, TokenBucket.FitFor(p), run, n, key);
  }

  lemma {:induction false} ConcurrentLeakTtl(p: BucketParams.Params, c: Config<LeakyBucket.State>,
                                             run: seq<State<LeakyBucket.State>>, n: nat, key: Key)
    requires p.Valid() && c.alg == LeakyBucket.Alg(p) && c.maxKeys == 0 && p.Yield(c.keyTTL) >= p.capacity
    requires Execution(c, run) && n < |run| && InOrder(run[n].log, key)
    ensures ResultsIn(run[n].log, key) == KeyResults(c.alg, TimesIn(run[n].log, key))
  {
    LeakyBucket.LawsHold(p);
    LeakyBucket.ForgetsLaw(p, c.keyTTL);
    hide *;
    ConcurrentTtlInvisible(c, LeakyBucket.FitFor(p), run, n, key);
  }

  lemma {:induction false} ConcurrentWindowTtl(p: SlidingWindow.Params, c: Config<seq<int>>, run: seq<State<seq<int>>>,
                                               n: nat, key: Key)
    requires p.Valid() && c.alg == SlidingWindow.Alg(p) && c.maxKeys == 0 && c.keyTTL >= p.window
    requires Execution(c, run) && n < |run| && InOrder(run[n].log, key)
    ensures ResultsIn(run[n].log, key) == KeyResults(c.alg, TimesIn(run[n].log, key))
  {
    SlidingWindow.LawsHold(p);
    SlidingWindow.ForgetsLaw(p, c.keyTTL);
    hide *;
    ConcurrentTtlInvisible(c, SlidingWindow.FitFor(p), run, n, key);
  }
}
