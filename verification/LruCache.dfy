/** The exact LRU cache that the EvictLRU policy promises, and what it keeps. */
module LruCache {
  import opened Limiter
  import opened Shards
  import opened FlatStore

  /** Keys from the most to the least recently used. */
  datatype Cache<S> = Cache(keys: seq<Key>, states: map<Key, S>)

  function Last(keys: seq<Key>): Key
    requires keys != []
  {
    keys[|keys| - 1]
  }

  /** Drop the least recently used key of a full cache. */
  function MakeRoom<S>(cap: nat, cache: Cache<S>): Cache<S> {
    if cap > 0 && |cache.keys| >= cap
    then Cache(cache.keys[..|cache.keys| - 1], cache.states - {Last(cache.keys)})
    else cache
  }

  function Request<S>(alg: Algorithm<S>, cap: nat, cache: Cache<S>, call: Call): (Cache<S>, Result) {
    if call.key in cache.states then
      var (s, r) := alg.decide(cache.states[call.key], call.now);
      (Cache([call.key] + Without(cache.keys, call.key), cache.states[call.key := s]), r)
    else
      var room := MakeRoom(cap, cache);
      var (s, r) := alg.decide(alg.create(call.now), call.now);
      (Cache([call.key] + room.keys, room.states[call.key := s]), r)
  }

  function AfterAll<S>(alg: Algorithm<S>, cap: nat, cache: Cache<S>, calls: seq<Call>): Cache<S> {
    if calls == [] then cache else
    Request(alg, cap, AfterAll(alg, cap, cache, calls[..|calls| - 1]), calls[|calls| - 1]).0
  }

  function AnswersAll<S>(alg: Algorithm<S>, cap: nat, cache: Cache<S>, calls: seq<Call>): seq<Result> {
    if calls == [] then [] else
    var init := calls[..|calls| - 1];
    AnswersAll(alg, cap, cache, init)
    + [Request(alg, cap, AfterAll(alg, cap, cache, init), calls[|calls| - 1]).1]
  }

  /** The distinct keys of a history, the latest use first. */
  function Recency(calls: seq<Call>): seq<Key> {
    if calls == [] then [] else
    var key := calls[|calls| - 1].key;
    [key] + Without(Recency(calls[..|calls| - 1]), key)
  }

  function Take(s: seq<Key>, n: nat): seq<Key> {
    if n == 0 || s == [] then [] else [s[0]] + Take(s[1..], n - 1)
  }

  ghost predicate Consistent<S>(cache: Cache<S>) {
    NoDup(cache.keys) && forall k :: k in cache.keys <==> k in cache.states
  }

  lemma {:induction false} RecencyNoDup(calls: seq<Call>)
    ensures NoDup(Recency(calls))
  {
    if calls != [] {
      var init, key := calls[..|calls| - 1], calls[|calls| - 1].key;
      RecencyNoDup(init);
      WithoutNoDup(Recency(init), key);
      WithoutMembers(Recency(init), key);
    }
  }

  lemma {:induction false} TakeIsPrefix(s: seq<Key>, n: nat)
    ensures Take(s, n) == if n < |s| then s[..n] else s
  {
    if n > 0 && s != [] {
      TakeIsPrefix(s[1..], n - 1);
    }
  }

  lemma {:induction false} WithoutCons(head: Key, tail: seq<Key>, key: Key)
    ensures Without([head] + tail, key) == (if head == key then [] else [head]) + Without(tail, key)
  {
    assert ([head] + tail)[1..] == tail;
  }

  lemma {:induction false} TakeCons(head: Key, tail: seq<Key>, n: nat)
    requires n > 0
    ensures Take([head] + tail, n) == [head] + Take(tail, n - 1)
  {
    assert ([head] + tail)[1..] == tail;
  }

  lemma {:induction false} TakeMembers(s: seq<Key>, key: Key, n: nat)
    requires key !in s
    ensures key !in Take(s, n)
  {
    if n > 0 && s != [] {
      TakeMembers(s[1..], key, n - 1);
    }
  }

  lemma {:induction false} TakeTake(s: seq<Key>, n: nat)
    ensures Take(Take(s, n + 1), n) == Take(s, n)
  {
    if n > 0 && s != [] {
      TakeTake(s[1..], n - 1);
      TakeCons(s[0], Take(s[1..], n), n);
    }
  }

  /** Taking a prefix and removing a key of it, in either order. */
  lemma {:induction false} TakeWithout(s: seq<Key>, key: Key, n: nat)
    requires NoDup(s) && n > 0
    ensures key in Take(s, n) ==> Take(Without(s, key), n - 1) == Without(Take(s, n), key)
    ensures key !in Take(s, n) ==> Take(Without(s, key), n - 1) == Take(s, n - 1)
    decreases |s|
  {
    hide NoDup;
    if s != [] {
      var head, tail := s[0], s[1..];
      assert s == [head] + tail;
      NoDupTail(s);
      WithoutCons(head, tail, key);
      TakeCons(head, tail, n);
      WithoutCons(head, Take(tail, n - 1), key);
      if head == key {
        WithoutMembers(tail, key);
        TakeMembers(tail, key, n - 1);
        WithoutMembers(Take(tail, n - 1), key);
        assert Without(s, key) == tail;
        assert Without(Take(s, n), key) == Take(tail, n - 1);
      } else if n > 1 {
        TakeWithout(tail, key, n - 1);
        TakeCons(head, tail, n - 1);
        TakeCons(head, Without(tail, key), n - 1);
      }
    }
  }

  lemma {:induction false} MakeRoomKeys<S>(cap: nat, cache: Cache<S>)
    requires Consistent(cache) && (cap > 0 ==> |cache.keys| <= cap)
    ensures Consistent(MakeRoom(cap, cache))
    ensures MakeRoom(cap, cache).keys == if cap > 0 then Take(cache.keys, cap - 1) else cache.keys
  {
    hide Take;
    if cap > 0 {
      TakeIsPrefix(cache.keys, cap - 1);
      if |cache.keys| >= cap {
        NoDupInit(cache.keys);
      }
    }
  }

  lemma NoDupInit(keys: seq<Key>)
    requires NoDup(keys) && keys != []
    ensures var init := keys[..|keys| - 1];
            NoDup(init) && forall k :: k in init <==> k in keys && k != Last(keys)
  {
    assert keys == keys[..|keys| - 1] + [Last(keys)];
  }

  lemma {:induction false} RequestKeys<S>(alg: Algorithm<S>, cap: nat, cache: Cache<S>, call: Call)
    requires Consistent(cache) && (cap > 0 ==> |cache.keys| <= cap)
    ensures var cache' := Request(alg, cap, cache, call).0;
            && Consistent(cache')
            && cache'.keys == [call.key] + if call.key in cache.keys then Without(cache.keys, call.key)
                                           else if cap > 0 then Take(cache.keys, cap - 1) else cache.keys
  {
    hide Take;
    if call.key in cache.states {
      WithoutMembers(cache.keys, call.key);
      WithoutNoDup(cache.keys, call.key);
    } else {
      MakeRoomKeys(cap, cache);
    }
  }

  /** After any sequence of requests the cache holds exactly the most recently used
      distinct keys, as many as fit, in order of their last use. */
  lemma {:induction false} HoldsMostRecent<S>(alg: Algorithm<S>, cap: nat, calls: seq<Call>)
    ensures var cache := AfterAll(alg, cap, Cache([], map[]), calls);
            && Consistent(cache)
            && cache.keys == if cap > 0 then Take(Recency(calls), cap) else Recency(calls)
    decreases |calls|
  {
    if calls != [] {
      var init, call := calls[..|calls| - 1], calls[|calls| - 1];
      HoldsMostRecent(alg, cap, init);
      var cache := AfterAll(alg, cap, Cache([], map[]), init);
      assert AfterAll(alg, cap, Cache([], map[]), calls) == Request(alg, cap, cache, call).0;
      RequestKeys(alg, cap, cache, call) by { TakeIsPrefix(Recency(init), cap); }
      RecencyNoDup(init);
      RecencyTake(Recency(init), call.key, cap);
    }
  }

  /** Using a key moves it to the front of the keys that fit, whether it was there or not. */
  lemma RecencyTake(s: seq<Key>, key: Key, cap: nat)
    requires NoDup(s)
    ensures cap > 0 ==>
              Take([key] + Without(s, key), cap) ==
              [key] + if key in Take(s, cap) then Without(Take(s, cap), key) else Take(Take(s, cap), cap - 1)
    ensures key !in s ==> Without(s, key) == s
  {
    hide NoDup, Take, Without;
    WithoutMembers(s, key);
    if cap > 0 {
      TakeWithout(s, key, cap);
      TakeCons(key, Without(s, key), cap);
      TakeTake(s, cap - 1);
    }
  }
}
