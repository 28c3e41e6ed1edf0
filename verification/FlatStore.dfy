/** The key store as its callers see it: one capped map, without shards or hashing, and
    what cleanup, other keys and long idle times can and cannot change about it. */
module FlatStore {
  import opened Limiter
  import opened Laws
  import opened Shards
  import TokenBucket
  import LeakyBucket
  import SlidingWindow
  import BucketParams

  datatype Call = Call(key: Key, now: int)

  type Flat<S> = map<Key, Entry<S>>

  /** One request on a flat capped map that first loses the keys `dropped`. */
  function Serve<S>(c: Config<S>, m: Flat<S>, call: Call, dropped: set<Key>): (Flat<S>, Outcome) {
    var kept := m - dropped;
    if call.key in kept then
      var (s, r) := c.alg.decide(kept[call.key].value, call.now);
      (kept[call.key := Entry(s, call.now)], Ok(r))
    else if c.maxKeys > 0 && |kept| >= c.maxKeys then
      (kept, MaxKeysExceeded)
    else
      var (s, r) := c.alg.decide(c.alg.create(call.now), call.now);
      (kept[call.key := Entry(s, call.now)], Ok(r))
  }

  /** Cleanup may drop any expired keys, but not the one being served. */
  ghost predicate MayDrop<S>(c: Config<S>, m: Flat<S>, call: Call, dropped: set<Key>) {
    && call.key !in dropped
    && (forall k :: k in dropped ==> k in m && Expired(c, m[k], call.now))
    && (!c.CleanupEnabled() ==> dropped == {})
  }

  function ServeAll<S>(c: Config<S>, m: Flat<S>, calls: seq<Call>, drops: seq<set<Key>>): seq<Outcome>
    requires |calls| == |drops|
    decreases |calls|
  {
    if calls == [] then [] else
    var (m', out) := Serve(c, m, calls[0], drops[0]);
    [out] + ServeAll(c, m', calls[1..], drops[1..])
  }

  ghost predicate MayDropAll<S>(c: Config<S>, m: Flat<S>, calls: seq<Call>, drops: seq<set<Key>>)
    requires |calls| == |drops|
    decreases |calls|
  {
    calls == [] ||
    (MayDrop(c, m, calls[0], drops[0]) && MayDropAll(c, Serve(c, m, calls[0], drops[0]).0, calls[1..], drops[1..]))
  }

  /** What one call may lose whatever the policy: expired keys, and, if the key is new and
      the map still full, one more key. */
  ghost predicate MayLose<S>(c: Config<S>, m: Flat<S>, call: Call, gone: set<Key>) {
    exists dropped: set<Key>, evicted: set<Key> ::
      && gone == dropped + evicted && MayDrop(c, m, call, dropped)
      && (evicted != {} ==>
            && c.policy == EvictLRU && |evicted| == 1 && evicted <= (m - dropped).Keys
            && call.key !in m && |m - dropped| == c.maxKeys > 0)
  }

  ghost predicate MayLoseAll<S>(c: Config<S>, m: Flat<S>, calls: seq<Call>, gone: seq<set<Key>>)
    requires |calls| == |gone|
    decreases |calls|
  {
    calls == [] ||
    (MayLose(c, m, calls[0], gone[0]) && MayLoseAll(c, Serve(c, m, calls[0], gone[0]).0, calls[1..], gone[1..]))
  }

  /** Without eviction only expired keys are lost. */
  lemma {:induction false} LosesOnlyExpired<S>(c: Config<S>, m: Flat<S>, calls: seq<Call>, gone: seq<set<Key>>)
    requires |calls| == |gone| && MayLoseAll(c, m, calls, gone) && (c.policy == EvictReject || c.maxKeys == 0)
    ensures MayDropAll(c, m, calls, gone)
    decreases |calls|
  {
    hide Serve;
    if calls != [] {
      var dropped: set<Key>, evicted: set<Key> :| gone[0] == dropped + evicted && MayDrop(c, m, calls[0], dropped)
        && (evicted != {} ==> c.policy == EvictLRU && c.maxKeys > 0);
      assert gone[0] == dropped;
      LosesOnlyExpired(c, Serve(c, m, calls[0], gone[0]).0, calls[1..], gone[1..]);
    }
  }

  /** Once it is known which keys are lost, the answers depend on algorithm and cap alone. */
  lemma {:induction false} SameFlat<S>(c: Config<S>, d: Config<S>, m: Flat<S>, calls: seq<Call>, gone: seq<set<Key>>)
    requires |calls| == |gone| && c.alg == d.alg && c.maxKeys == d.maxKeys
    ensures ServeAll(c, m, calls, gone) == ServeAll(d, m, calls, gone)
    decreases |calls|
  {
    if calls != [] {
      SameFlat(c, d, Serve(c, m, calls[0], gone[0]).0, calls[1..], gone[1..]);
    }
  }

  /** Nothing is dropped. */
  function NoDrops(n: nat): (d: seq<set<Key>>)
    ensures |d| == n
  {
    seq(n, i => {})
  }

  ghost predicate Ordered(calls: seq<Call>) {
    forall i, j :: 0 <= i < j < |calls| ==> calls[i].now <= calls[j].now
  }

  lemma OrderedTail(calls: seq<Call>)
    requires Ordered(calls) && calls != []
    ensures Ordered(calls[1..]) && (calls[1..] != [] ==> calls[0].now <= calls[1..][0].now)
  {}

  lemma NoDropsTail(n: nat)
    requires n > 0
    ensures NoDrops(n)[0] == {} && NoDrops(n)[1..] == NoDrops(n - 1)
  {}

  lemma {:induction false} OnlyEmptyDrops<S>(c: Config<S>, m: Flat<S>, calls: seq<Call>, drops: seq<set<Key>>)
    requires |calls| == |drops| && MayDropAll(c, m, calls, drops) && !c.CleanupEnabled()
    ensures drops == NoDrops(|calls|)
    decreases |calls|
  {
    hide Serve, NoDrops;
    if calls != [] {
      OnlyEmptyDrops(c, Serve(c, m, calls[0], drops[0]).0, calls[1..], drops[1..]);
      NoDropsTail(|calls|);
      assert NoDrops(|calls|) == [{}] + NoDrops(|calls| - 1);
    } else {
      assert NoDrops(0) == [];
    }
  }

  // ---- Cleanup is invisible when the TTL is long enough ----

  /** The map with cleanup misses only keys of the other that have been idle for the TTL. */
  ghost predicate Covers<S>(c: Config<S>, fit: (S, int) -> bool, m: Flat<S>, n: Flat<S>, t: int) {
    && (forall k :: k in m ==> k in n && m[k] == n[k])
    && (forall k :: k in n ==> n[k].lastSeen <= t && fit(n[k].value, n[k].lastSeen))
    && (forall k :: k in n && k !in m ==> n[k].lastSeen + c.keyTTL <= t)
  }

  lemma CoversPut<S>(c: Config<S>, fit: (S, int) -> bool, m: Flat<S>, n: Flat<S>, t: int, call: Call, dropped: set<Key>,
                     s: S)
    requires Covers(c, fit, m, n, t) && t <= call.now && MayDrop(c, m, call, dropped) && fit(s, call.now)
    ensures Covers(c, fit, (m - dropped)[call.key := Entry(s, call.now)], n[call.key := Entry(s, call.now)], call.now)
  {}

  /** A key that only the map without cleanup still has decides as a fresh one. */
  lemma SameDecision<S(!new)>(c: Config<S>, fit: (S, int) -> bool, m: Flat<S>, n: Flat<S>, t: int, call: Call)
    requires Fits(c.alg, fit) && Forgets(c.alg, fit, c.keyTTL) && Covers(c, fit, m, n, t) && t <= call.now
    ensures call.key in n && call.key !in m ==>
              c.alg.decide(n[call.key].value, call.now) == c.alg.decide(c.alg.create(call.now), call.now)
    ensures var s := if call.key in n then n[call.key].value else c.alg.create(call.now);
            fit(c.alg.decide(s, call.now).0, call.now)
  {
    if call.key in n {
      assert fit(n[call.key].value, n[call.key].lastSeen);
    } else {
      assert fit(c.alg.create(call.now), call.now);
    }
  }

  lemma CoversStep<S(!new)>(c: Config<S>, fit: (S, int) -> bool, m: Flat<S>, n: Flat<S>, t: int, call: Call,
                            dropped: set<Key>)
    requires c.maxKeys == 0 && Fits(c.alg, fit) && Forgets(c.alg, fit, c.keyTTL)
    requires Covers(c, fit, m, n, t) && t <= call.now && MayDrop(c, m, call, dropped)
    ensures var ((m', o), (n', p)) := (Serve(c, m, call, dropped), Serve(c, n, call, {}));
            o == p && Covers(c, fit, m', n', call.now)
  {
    SameDecision(c, fit, m, n, t, call);
    var s := c.alg.decide(if call.key in n then n[call.key].value else c.alg.create(call.now), call.now).0;
    CoversPut(c, fit, m, n, t, call, dropped, s);
    hide Fits, Forgets;
    assert n - {} == n;
    assert call.key in m ==> call.key in n && m[call.key] == n[call.key];
    hide Covers;
    assert call.key !in dropped;
    hide MayDrop;
  }

  /** Without a cap and with a clock that never steps back, dropping idle keys is
      invisible: whatever expired keys each cleanup picks, every request is answered as
      if none had ever been dropped, provided idle states decide as fresh ones do. */
  lemma {:induction false} CleanupInvisible<S(!new)>(c: Config<S>, fit: (S, int) -> bool, m: Flat<S>, n: Flat<S>,
                                                     t: int, calls: seq<Call>, drops: seq<set<Key>>)
    requires c.maxKeys == 0 && Fits(c.alg, fit) && Forgets(c.alg, fit, c.keyTTL)
    requires Covers(c, fit, m, n, t) && Ordered(calls) && (calls != [] ==> t <= calls[0].now)
    requires |calls| == |drops| && MayDropAll(c, m, calls, drops)
    ensures ServeAll(c, m, calls, drops) == ServeAll(c, n, calls, NoDrops(|calls|))
    decreases |calls|
  {
    hide Serve, Covers, MayDrop, Fits, Forgets, Ordered, NoDrops;
    if calls != [] {
      OrderedTail(calls);
      CoversStep(c, fit, m, n, t, calls[0], drops[0]);
      NoDropsTail(|calls|);
      CleanupInvisible(c, fit, Serve(c, m, calls[0], drops[0]).0, Serve(c, n, calls[0], {}).0,
                       calls[0].now, calls[1..], drops[1..]);
    }
  }

  /** From an empty store: any admissible drops give the answers of no drops. */
  lemma {:induction false} CleanupInvisibleFromEmpty<S(!new)>(c: Config<S>, fit: (S, int) -> bool, calls: seq<Call>,
                                                              drops: seq<set<Key>>)
    requires c.maxKeys == 0 && Fits(c.alg, fit) && Forgets(c.alg, fit, c.keyTTL) && Ordered(calls)
    requires |calls| == |drops| && MayDropAll(c, map[], calls, drops)
    ensures ServeAll(c, map[], calls, drops) == ServeAll(c, map[], calls, NoDrops(|calls|))
  {
    CleanupInvisible(c, fit, map[], map[], if calls == [] then 0 else calls[0].now, calls, drops);
  }

  lemma {:induction false} TokenTtlInvisible(p: BucketParams.Params, c: Config<TokenBucket.State>, calls: seq<Call>,
                                             drops: seq<set<Key>>)
    requires p.Valid() && c.alg == TokenBucket.Alg(p) && c.maxKeys == 0 && p.Yield(c.keyTTL) >= p.capacity
    requires Ordered(calls) && |calls| == |drops| && MayDropAll(c, map[], calls, drops)
    ensures ServeAll(c, map[], calls, drops) == ServeAll(c, map[], calls, NoDrops(|calls|))
  {
    TokenBucket.FitLaw(p);
    TokenBucket.ForgetsLaw(p, c.keyTTL);
    hide *;
    CleanupInvisibleFromEmpty(c, TokenBucket.FitFor(p), calls, drops);
  }

  lemma {:induction false} LeakyTtlInvisible(p: BucketParams.Params, c: Config<LeakyBucket.State>, calls: seq<Call>,
                                             drops: seq<set<Key>>)
    requires p.Valid() && c.alg == LeakyBucket.Alg(p) && c.maxKeys == 0 && p.Yield(c.keyTTL) >= p.capacity
    requires Ordered(calls) && |calls| == |drops| && MayDropAll(c, map[], calls, drops)
    ensures ServeAll(c, map[], calls, drops) == ServeAll(c, map[], calls, NoDrops(|calls|))
  {
    LeakyBucket.LawsHold(p);
    LeakyBucket.ForgetsLaw(p, c.keyTTL);
    hide *;
    CleanupInvisibleFromEmpty(c, LeakyBucket.FitFor(p), calls, drops);
  }

  lemma {:induction false} WindowTtlInvisible(p: SlidingWindow.Params, c: Config<seq<int>>, calls: seq<Call>,
                                              drops: seq<set<Key>>)
    requires p.Valid() && c.alg == SlidingWindow.Alg(p) && c.maxKeys == 0 && c.keyTTL >= p.window
    requires Ordered(calls) && |calls| == |drops| && MayDropAll(c, map[], calls, drops)
    ensures ServeAll(c, map[], calls, drops) == ServeAll(c, map[], calls, NoDrops(|calls|))
  {
    SlidingWindow.LawsHold(p);
    SlidingWindow.ForgetsLaw(p, c.keyTTL);
    hide *;
    CleanupInvisibleFromEmpty(c, SlidingWindow.FitFor(p), calls, drops);
  }

  // ---- Keys do not influence each other ----

  function TimesOf(calls: seq<Call>, key: Key): seq<int> {
    if calls == [] then [] else
    (if calls[0].key == key then [calls[0].now] else []) + TimesOf(calls[1..], key)
  }

  /** The outcomes of the calls on `key`. */
  function OutcomesOf(calls: seq<Call>, outs: seq<Outcome>, key: Key): seq<Outcome>
    requires |calls| == |outs|
  {
    if calls == [] then [] else
    (if calls[0].key == key then [outs[0]] else []) + OutcomesOf(calls[1..], outs[1..], key)
  }

  function Served(rs: seq<Result>): (os: seq<Outcome>)
    ensures |os| == |rs|
  {
    if rs == [] then [] else [Ok(rs[0])] + Served(rs[1..])
  }

  /** What `key` returns from here on, looking only at its own state and its own calls. */
  function Alone<S>(c: Config<S>, m: Flat<S>, times: seq<int>, key: Key): seq<Result> {
    if key in m then Results(c.alg, m[key].value, times) else KeyResults(c.alg, times)
  }

  lemma {:induction false} ServeAllLength<S>(c: Config<S>, m: Flat<S>, calls: seq<Call>, drops: seq<set<Key>>)
    requires |calls| == |drops|
    ensures |ServeAll(c, m, calls, drops)| == |calls|
    decreases |calls|
  {
    hide Serve;
    if calls != [] {
      ServeAllLength(c, Serve(c, m, calls[0], drops[0]).0, calls[1..], drops[1..]);
    }
  }

  /** Without a cap and without a TTL, the answers for a key in any interleaving of calls
      on any keys are those of a limiter that only ever saw that key. */
  lemma {:induction false} KeysIsolated<S>(c: Config<S>, m: Flat<S>, calls: seq<Call>, key: Key)
    requires c.maxKeys == 0
    ensures var outs := ServeAll(c, m, calls, NoDrops(|calls|));
            && |outs| == |calls|
            && OutcomesOf(calls, outs, key) == Served(Alone(c, m, TimesOf(calls, key), key))
    decreases |calls|
  {
    ServeAllLength(c, m, calls, NoDrops(|calls|));
    if calls != [] {
      NoDropsTail(|calls|);
      assert m - {} == m;
      var (m', out) := Serve(c, m, calls[0], {});
      var rest := ServeAll(c, m', calls[1..], NoDrops(|calls| - 1));
      KeysIsolated(c, m', calls[1..], key);
      hide Serve, Alone;
      var outs := ServeAll(c, m, calls, NoDrops(|calls|));
      assert outs == [out] + rest && outs[1..] == rest;
      AloneStep(c, m, calls[0], key, TimesOf(calls[1..], key));
      if calls[0].key == key {
        var rs := Alone(c, m', TimesOf(calls[1..], key), key);
        assert ([out.result] + rs)[1..] == rs;
      } else {
        assert TimesOf(calls, key) == TimesOf(calls[1..], key);
      }
    }
  }

  lemma AloneStep<S>(c: Config<S>, m: Flat<S>, call: Call, key: Key, later: seq<int>)
    requires c.maxKeys == 0
    ensures var (m', out) := Serve(c, m, call, {});
            if call.key == key then
              out.Ok? && Alone(c, m, [call.now] + later, key) == [out.result] + Alone(c, m', later, key)
            else Alone(c, m', later, key) == Alone(c, m, later, key)
  {
    assert m - {} == m;
    assert ([call.now] + later)[1..] == later;
  }

  lemma {:induction false} IsolatedFromEmpty<S>(c: Config<S>, calls: seq<Call>, key: Key)
    requires c.maxKeys == 0
    ensures var outs := ServeAll(c, map[], calls, NoDrops(|calls|));
            && |outs| == |calls|
            && OutcomesOf(calls, outs, key) == Served(KeyResults(c.alg, TimesOf(calls, key)))
  {
    KeysIsolated(c, map[], calls, key);
  }
}
