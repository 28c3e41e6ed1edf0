/** How long a TTL must be for cleanup never to show: without a cap, exactly. */
module ExactTtl {
  import opened Limiter
  import opened Shards
  import opened FlatStore
  import TokenBucket
  import LeakyBucket
  import SlidingWindow
  import BucketParams

  /** Whatever expired keys each cleanup drops, ordered calls are answered as if none were. */
  ghost predicate TtlInvisible<S>(c: Config<S>) {
    forall calls: seq<Call>, drops: seq<set<Key>> ::
      |calls| == |drops| && Ordered(calls) && MayDropAll(c, map[], calls, drops) ==>
        ServeAll(c, map[], calls, drops) == ServeAll(c, map[], calls, NoDrops(|calls|))
  }

  // ---- Serving in parts ----

  function AfterCalls<S>(c: Config<S>, m: Flat<S>, calls: seq<Call>, drops: seq<set<Key>>): Flat<S>
    requires |calls| == |drops|
    decreases |calls|
  {
    if calls == [] then m else AfterCalls(c, Serve(c, m, calls[0], drops[0]).0, calls[1..], drops[1..])
  }

  lemma {:induction false} ServeSplit<S>(c: Config<S>, m: Flat<S>, calls: seq<Call>, drops: seq<set<Key>>,
                                         calls': seq<Call>, drops': seq<set<Key>>)
    requires |calls| == |drops| && |calls'| == |drops'|
    ensures ServeAll(c, m, calls + calls', drops + drops')
            == ServeAll(c, m, calls, drops) + ServeAll(c, AfterCalls(c, m, calls, drops), calls', drops')
    decreases |calls|
  {
    hide Serve;
    if calls == [] {
      assert calls + calls' == calls' && drops + drops' == drops';
    } else {
      TailsOf(calls, calls');
      TailsOf(drops, drops');
      ServeSplit(c, Serve(c, m, calls[0], drops[0]).0, calls[1..], drops[1..], calls', drops');
    }
  }

  lemma {:induction false} DropSplit<S>(c: Config<S>, m: Flat<S>, calls: seq<Call>, drops: seq<set<Key>>,
                                        calls': seq<Call>, drops': seq<set<Key>>)
    requires |calls| == |drops| && |calls'| == |drops'|
    requires MayDropAll(c, m, calls, drops) && MayDropAll(c, AfterCalls(c, m, calls, drops), calls', drops')
    ensures MayDropAll(c, m, calls + calls', drops + drops')
    decreases |calls|
  {
    hide Serve, MayDrop;
    if calls == [] {
      assert calls + calls' == calls' && drops + drops' == drops';
    } else {
      TailsOf(calls, calls');
      TailsOf(drops, drops');
      DropSplit(c, Serve(c, m, calls[0], drops[0]).0, calls[1..], drops[1..], calls', drops');
    }
  }

  lemma TailsOf<T>(a: seq<T>, b: seq<T>)
    requires a != []
    ensures (a + b)[0] == a[0] && (a + b)[1..] == a[1..] + b
  {}

  /** Calls on one key. */
  function CallsOn(key: Key, times: seq<int>): (calls: seq<Call>)
    ensures |calls| == |times| && forall i :: 0 <= i < |times| ==> calls[i] == Call(key, times[i])
  {
    seq(|times|, i requires 0 <= i < |times| => Call(key, times[i]))
  }

  /** The state of `key` before its next request at `now`. */
  function StateOf<S>(c: Config<S>, m: Flat<S>, key: Key, now: int): S {
    if key in m then m[key].value else c.alg.create(now)
  }

  /** One call that drops nothing. */
  lemma OneCall<S>(c: Config<S>, m: Flat<S>, key: Key, now: int)
    requires c.maxKeys == 0
    ensures var (s, r) := c.alg.decide(StateOf(c, m, key, now), now);
            && Serve(c, m, Call(key, now), {}) == (m[key := Entry(s, now)], Ok(r))
            && MayDrop(c, m, Call(key, now), {})
  {
    assert m - {} == m;
  }

  lemma {:induction false} OneKey<S>(c: Config<S>, m: Flat<S>, key: Key, times: seq<int>)
    requires c.maxKeys == 0 && times != []
    ensures var (calls, none, s) := (CallsOn(key, times), NoDrops(|times|), StateOf(c, m, key, times[0]));
            && AfterCalls(c, m, calls, none)
               == m[key := Entry(After(c.alg, s, times), times[|times| - 1])]
            && ServeAll(c, m, calls, none) == Served(Results(c.alg, s, times))
            && MayDropAll(c, m, calls, none)
    decreases |times|
  {
    hide Serve, MayDrop, NoDrops, CallsOn;
    var (calls, none, s) := (CallsOn(key, times), NoDrops(|times|), StateOf(c, m, key, times[0]));
    var (s', r) := c.alg.decide(s, times[0]);
    var m' := m[key := Entry(s', times[0])];
    OneCall(c, m, key, times[0]);
    NoDropsTail(|times|);
    assert calls[1..] == CallsOn(key, times[1..]);
    var rest := Results(c.alg, s', times[1..]);
    assert ([r] + rest)[1..] == rest;
    if |times| > 1 {
      OneKey(c, m', key, times[1..]);
      var last := Entry(After(c.alg, s', times[1..]), times[|times| - 1]);
      assert m'[key := last] == m[key := last];
    }
  }

  lemma {:induction false} ServedInjective(a: seq<Result>, b: seq<Result>)
    requires Served(a) == Served(b)
    ensures a == b
  {
    if a != [] {
      assert Served(a)[1..] == Served(a[1..]) && Served(b)[1..] == Served(b[1..]);
      ServedInjective(a[1..], b[1..]);
    }
  }

  // ---- A drop that shows ----

  /** Requests on `a`, one on `b` after the TTL, and again requests on `a`. */
  function Visit(a: Key, times: seq<int>, b: Key, now: int, k: nat): seq<Call> {
    CallsOn(a, times) + ([Call(b, now)] + CallsOn(a, Burst(now, k)))
  }

  lemma VisitOrdered(a: Key, times: seq<int>, b: Key, now: int, k: nat)
    requires Nondecreasing(times) && times != [] && times[|times| - 1] <= now
    ensures Ordered(Visit(a, times, b, now, k))
  {
    BurstAt(now, k);
    assert forall i :: 0 <= i < |times| ==> times[i] <= now;
  }

  /** The request on `b`, which drops `a` or does not, and what comes after it. */
  lemma {:induction false} AfterDrop<S>(c: Config<S>, m: Flat<S>, a: Key, b: Key, now: int, k: nat, dropped: set<Key>)
    requires c.maxKeys == 0 && a != b && b !in m && a in m && k > 0 && (dropped == {} || dropped == {a})
    requires MayDrop(c, m, Call(b, now), dropped)
    ensures var s := if dropped == {} then m[a].value else c.alg.create(now);
            var (calls, drops) := ([Call(b, now)] + CallsOn(a, Burst(now, k)), [dropped] + NoDrops(k));
            && |CallsOn(a, Burst(now, k))| == k && MayDropAll(c, m, calls, drops)
            && ServeAll(c, m, calls, drops)
               == [Ok(c.alg.decide(c.alg.create(now), now).1)] + Served(Results(c.alg, s, Burst(now, k)))
  {
    BurstAt(now, k);
    var (calls, drops) := ([Call(b, now)] + CallsOn(a, Burst(now, k)), [dropped] + NoDrops(k));
    var (m', out) := Serve(c, m, calls[0], dropped);
    assert calls[1..] == CallsOn(a, Burst(now, k)) && drops[1..] == NoDrops(k);
    assert out == Ok(c.alg.decide(c.alg.create(now), now).1);
    assert a in m' <==> dropped == {};
    assert a in m' ==> m'[a] == m[a];
    hide Serve, MayDrop, NoDrops;
    OneKey(c, m', a, Burst(now, k));
  }

  /** All answers of a visit. */
  lemma {:induction false} VisitAnswers<S>(c: Config<S>, a: Key, b: Key, times: seq<int>, now: int, k: nat,
                                           dropped: set<Key>)
    requires c.maxKeys == 0 && c.CleanupEnabled() && a != b && k > 0 && (dropped == {} || dropped == {a})
    requires times != [] && times[|times| - 1] + c.keyTTL <= now
    ensures var kept := After(c.alg, c.alg.create(times[0]), times);
            var s := if dropped == {} then kept else c.alg.create(now);
            var (calls, drops) := (Visit(a, times, b, now, k), NoDrops(|times|) + ([dropped] + NoDrops(k)));
            && |calls| == |drops| && MayDropAll(c, map[], calls, drops)
            && ServeAll(c, map[], calls, drops)
               == Served(Results(c.alg, c.alg.create(times[0]), times))
                  + ([Ok(c.alg.decide(c.alg.create(now), now).1)] + Served(Results(c.alg, s, Burst(now, k))))
  {
    BurstAt(now, k);
    OneKey(c, map[], a, times);
    var kept := After(c.alg, c.alg.create(times[0]), times);
    var m := map[a := Entry(kept, times[|times| - 1])];
    assert map[][a := Entry(kept, times[|times| - 1])] == m;
    assert MayDrop(c, m, Call(b, now), dropped);
    hide Serve, MayDrop, After, Results, AfterCalls, ServeAll, MayDropAll, NoDrops, CallsOn, Served;
    AfterDrop(c, m, a, b, now, k, dropped);
    var (calls, drops) := ([Call(b, now)] + CallsOn(a, Burst(now, k)), [dropped] + NoDrops(k));
    ServeSplit(c, map[], CallsOn(a, times), NoDrops(|times|), calls, drops);
    DropSplit(c, map[], CallsOn(a, times), NoDrops(|times|), calls, drops);
  }

  /** If a state left alone for the TTL answers some burst otherwise than a fresh one, the
      TTL shows. */
  lemma {:induction false} DropShows<S>(c: Config<S>, times: seq<int>, now: int, k: nat)
    requires c.maxKeys == 0 && c.CleanupEnabled() && k > 0
    requires times != [] && Nondecreasing(times) && times[|times| - 1] + c.keyTTL <= now
    requires Results(c.alg, After(c.alg, c.alg.create(times[0]), times), Burst(now, k))
          != Results(c.alg, c.alg.create(now), Burst(now, k))
    ensures !TtlInvisible(c)
  {
    hide After, Results, ServeAll, MayDropAll, Served, Ordered, TtlInvisible;
    var (a, b, n) := ("a", "b", |times|);
    var calls := Visit(a, times, b, now, k);
    VisitOrdered(a, times, b, now, k);
    VisitAnswers(c, a, b, times, now, k, {a});
    VisitAnswers(c, a, b, times, now, k, {});
    assert NoDrops(n) + ([{}] + NoDrops(k)) == NoDrops(|calls|);
    Differ(c, calls, NoDrops(n) + ([{a}] + NoDrops(k)), Served(Results(c.alg, c.alg.create(times[0]), times)),
           Ok(c.alg.decide(c.alg.create(now), now).1), Results(c.alg, c.alg.create(now), Burst(now, k)),
           Results(c.alg, After(c.alg, c.alg.create(times[0]), times), Burst(now, k)));
  }

  lemma {:induction false} Differ<S>(c: Config<S>, calls: seq<Call>, drops: seq<set<Key>>, x: seq<Outcome>, o: Outcome,
                                     y: seq<Result>, z: seq<Result>)
    requires |calls| == |drops| && Ordered(calls) && MayDropAll(c, map[], calls, drops) && y != z
    requires ServeAll(c, map[], calls, drops) == x + ([o] + Served(y))
    requires ServeAll(c, map[], calls, NoDrops(|calls|)) == x + ([o] + Served(z))
    ensures !TtlInvisible(c)
  {
    hide ServeAll, MayDropAll, Ordered;
    if x + ([o] + Served(y)) == x + ([o] + Served(z)) {
      assert Served(y) == (x + ([o] + Served(y)))[|x| + 1..];
      assert Served(z) == (x + ([o] + Served(z)))[|x| + 1..];
      ServedInjective(y, z);
    }
  }

  // ---- The three algorithms ----

  lemma NoCleanupInvisible<S>(c: Config<S>)
    requires !c.CleanupEnabled()
    ensures TtlInvisible(c)
  {
    forall calls: seq<Call>, drops: seq<set<Key>> | |calls| == |drops| && MayDropAll(c, map[], calls, drops)
      ensures drops == NoDrops(|calls|)
    {
      OnlyEmptyDrops(c, map[], calls, drops);
    }
  }

  /** A sliding window never shows its TTL exactly when the TTL covers the window. */
  lemma WindowTtlExact(p: SlidingWindow.Params, c: Config<seq<int>>)
    requires p.Valid() && c.alg == SlidingWindow.Alg(p) && c.maxKeys == 0
    ensures TtlInvisible(c) <==> !c.CleanupEnabled() || c.keyTTL >= p.window
  {
    if !c.CleanupEnabled() {
      NoCleanupInvisible(c);
    } else if c.keyTTL >= p.window {
      forall calls: seq<Call>, drops: seq<set<Key>>
        | |calls| == |drops| && Ordered(calls) && MayDropAll(c, map[], calls, drops)
        ensures ServeAll(c, map[], calls, drops) == ServeAll(c, map[], calls, NoDrops(|calls|))
      {
        WindowTtlInvisible(p, c, calls, drops);
      }
    } else {
      WindowRemembers(p, c.keyTTL);
      DropShows(c, [0], c.keyTTL, 1);
    }
  }

  lemma {:induction false} WindowRemembers(p: SlidingWindow.Params, ttl: nat)
    requires p.Valid() && ttl < p.window
    ensures var alg := SlidingWindow.Alg(p);
            Results(alg, After(alg, alg.create(0), [0]), Burst(ttl, 1)) != Results(alg, alg.create(ttl), Burst(ttl, 1))
  {
    var alg := SlidingWindow.Alg(p);
    hide SlidingWindow.Decide, SlidingWindow.Prune, Results, After;
    SlidingWindow.PairUnmoved([], 0 - p.window);
    SlidingWindow.PairUnmoved([], ttl - p.window);
    SlidingWindow.PairUnmoved([0], ttl - p.window);
    SlidingWindow.DecideLength(p, [], 0);
    SlidingWindow.DecideLength(p, [], ttl);
    SlidingWindow.DecideLength(p, [0], ttl);
    assert [] + [0] == [0] && [] + [ttl] == [ttl];
    AfterOne(alg, [], 0);
    BurstOfOne(alg, [0], ttl);
    BurstOfOne(alg, [], ttl);
  }

  lemma {:induction false} BurstOfOne<S>(alg: Algorithm<S>, s: S, now: int)
    ensures Results(alg, s, Burst(now, 1)) == [alg.decide(s, now).1]
  {
    assert Burst(now, 1) == [now];
    assert [now][1..] == [];
  }

  /** A token bucket of whole capacity never shows its TTL exactly when the TTL fills it. */
  lemma TokenTtlExact(p: BucketParams.Params, c: Config<TokenBucket.State>)
    requires p.Valid() && c.alg == TokenBucket.Alg(p) && c.maxKeys == 0 && p.capacity == p.capacity.Floor as real
    ensures TtlInvisible(c) <==> !c.CleanupEnabled() || p.Yield(c.keyTTL) >= p.capacity
  {
    if !c.CleanupEnabled() {
      NoCleanupInvisible(c);
    } else if p.Yield(c.keyTTL) >= p.capacity {
      forall calls: seq<Call>, drops: seq<set<Key>>
        | |calls| == |drops| && Ordered(calls) && MayDropAll(c, map[], calls, drops)
        ensures ServeAll(c, map[], calls, drops) == ServeAll(c, map[], calls, NoDrops(|calls|))
      {
        TokenTtlInvisible(p, c, calls, drops);
      }
    } else {
      var k: nat := p.capacity.Floor;
      TokenRemembers(p, c.keyTTL, k);
      BurstAt(0, k);
      hide TtlInvisible;
      DropShows(c, Burst(0, k), c.keyTTL, k);
    }
  }

  lemma {:induction false} TokenRemembers(p: BucketParams.Params, ttl: nat, k: nat)
    requires p.Valid() && p.capacity == k as real && p.Yield(ttl) < p.capacity
    ensures var alg := TokenBucket.Alg(p);
            Results(alg, After(alg, alg.create(0), Burst(0, k)), Burst(ttl, k))
            != Results(alg, alg.create(ttl), Burst(ttl, k))
  {
    hide BucketParams.Params.Yield, TokenBucket.Decide, Results, After, CountAllowed;
    var alg := TokenBucket.Alg(p);
    BucketParams.YieldMono(p, 0, ttl);
    TokenBucket.BurstSpends(p, TokenBucket.Fresh(p, 0), k);
    TokenBucket.BurstLater(p, TokenBucket.State(0.0, 0), ttl, k);
    TokenBucket.BurstSpends(p, TokenBucket.Fresh(p, ttl), k);
  }

  lemma LeakyTtlExact(p: BucketParams.Params, c: Config<LeakyBucket.State>)
    requires p.Valid() && c.alg == LeakyBucket.Alg(p) && c.maxKeys == 0 && p.capacity == p.capacity.Floor as real
    ensures TtlInvisible(c) <==> !c.CleanupEnabled() || p.Yield(c.keyTTL) >= p.capacity
  {
    if !c.CleanupEnabled() {
      NoCleanupInvisible(c);
    } else if p.Yield(c.keyTTL) >= p.capacity {
      forall calls: seq<Call>, drops: seq<set<Key>>
        | |calls| == |drops| && Ordered(calls) && MayDropAll(c, map[], calls, drops)
        ensures ServeAll(c, map[], calls, drops) == ServeAll(c, map[], calls, NoDrops(|calls|))
      {
        LeakyTtlInvisible(p, c, calls, drops);
      }
    } else {
      var k: nat := p.capacity.Floor;
      LeakyRemembers(p, c.keyTTL, k);
      BurstAt(0, k);
      hide TtlInvisible;
      DropShows(c, Burst(0, k), c.keyTTL, k);
    }
  }

  lemma {:induction false} LeakyRemembers(p: BucketParams.Params, ttl: nat, k: nat)
    requires p.Valid() && p.capacity == k as real && p.Yield(ttl) < p.capacity
    ensures var alg := LeakyBucket.Alg(p);
            Results(alg, After(alg, alg.create(0), Burst(0, k)), Burst(ttl, k))
            != Results(alg, alg.create(ttl), Burst(ttl, k))
  {
    hide BucketParams.Params.Yield, TokenBucket.Decide, LeakyBucket.Decide, Results, After;
    var alg := LeakyBucket.Alg(p);
    TokenRemembers(p, ttl, k);
    LeakyBucket.Bisimulation(p, LeakyBucket.Fresh(p, 0), 0);
    LeakyBucket.Bisimulation(p, LeakyBucket.Fresh(p, ttl), ttl);
    LeakyBucket.SameRuns(p, LeakyBucket.Fresh(p, 0), Burst(0, k));
    LeakyBucket.SameRuns(p, After(alg, LeakyBucket.Fresh(p, 0), Burst(0, k)), Burst(ttl, k));
    LeakyBucket.SameRuns(p, LeakyBucket.Fresh(p, ttl), Burst(ttl, k));
  }
}
