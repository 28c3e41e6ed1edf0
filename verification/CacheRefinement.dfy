/** One call on a single EvictLRU shard is one request on the exact LRU cache. */
module CacheRefinement {
  import opened Shards
  import opened FlatStore
  import opened StoreView
  import opened StoreLemmas
  import LruCache

  function StatesOf<S>(items: Flat<S>): map<Key, S> { map k | k in items :: items[k].value }

  function CacheOf<S>(sh: Shard<S>): LruCache.Cache<S> { LruCache.Cache(sh.order, StatesOf(sh.items)) }

  lemma StatesPut<S>(items: Flat<S>, gone: set<Key>, key: Key, e: Entry<S>)
    ensures StatesOf((items - gone)[key := e]) == (StatesOf(items) - gone)[key := e.value]
  {}

  lemma NothingDropped<S>(c: Config<S>, m: Flat<S>, call: Call, dropped: set<Key>)
    requires MayDrop(c, m, call, dropped)
    ensures !c.CleanupEnabled() ==> dropped == {}
  {}

  lemma {:induction false} FlattenSingle<S>(shards: seq<Shard<S>>)
    requires |shards| == 1
    ensures Flatten(shards) == shards[0].items
  {
    assert shards[..0] == [];
    assert Flatten(shards[..0]) == map[];
  }

  /** Serving a key that is in the cache. */
  lemma HitStep<S>(c: Config<S>, sh: Shard<S>, after: Shard<S>, call: Call, out: Outcome)
    requires WellFormed(EvictLRU, sh) && call.key in sh.items
    requires Serve(c, sh.items, call, {}) == (after.items, out)
    requires after.order == [call.key] + Without(sh.order, call.key)
    ensures out.Ok? && LruCache.Request(c.alg, c.maxKeys, CacheOf(sh), call) == (CacheOf(after), out.result)
  {
    assert sh.items - {} == sh.items;
    var value := c.alg.decide(sh.items[call.key].value, call.now).0;
    StatesPut(sh.items, {}, call.key, Entry(value, call.now));
    assert StatesOf(sh.items) - {} == StatesOf(sh.items);
  }

  /** Serving a new key after making the room the cache makes. */
  lemma {:induction false} MissStep<S>(c: Config<S>, sh: Shard<S>, after: Shard<S>, call: Call, evicted: set<Key>,
                                       out: Outcome)
    requires WellFormed(EvictLRU, sh) && call.key !in sh.items && out.Ok?
    requires Serve(c, sh.items, call, evicted) == (after.items, out)
    requires LruCache.MakeRoom(c.maxKeys, CacheOf(sh)) ==
             LruCache.Cache(WithoutAll(sh.order, evicted), StatesOf(sh.items) - evicted)
    requires after.order == [call.key] + WithoutAll(sh.order, evicted)
    ensures LruCache.Request(c.alg, c.maxKeys, CacheOf(sh), call) == (CacheOf(after), out.result)
  {
    hide WithoutAll, LruCache.MakeRoom;
    assert call.key !in StatesOf(sh.items);
    hide StatesOf;
    var value := c.alg.decide(c.alg.create(call.now), call.now).0;
    StatesPut(sh.items, evicted, call.key, Entry(value, call.now));
  }

  /** The shard evicts exactly when the cache makes room, and the same key. */
  lemma {:induction false} SameRoom<S>(c: Config<S>, sh: Shard<S>, evicted: set<Key>)
    requires WellFormed(EvictLRU, sh)
    requires if evicted == {} then c.maxKeys > 0 ==> |sh.items| < c.maxKeys
             else sh.order != [] && evicted == {LruCache.Last(sh.order)} && |sh.items| == c.maxKeys > 0
    ensures LruCache.MakeRoom(c.maxKeys, CacheOf(sh)) ==
            LruCache.Cache(WithoutAll(sh.order, evicted), StatesOf(sh.items) - evicted)
  {
    hide WithoutAll, Without;
    ListSize(sh.order, sh.items.Keys);
    if evicted == {} {
      WithoutAllMembers(sh.order, {});
    } else {
      WithoutAllOne(sh.order, LruCache.Last(sh.order));
      WithoutLast(sh.order);
    }
  }

  lemma {:induction false} CacheStep<S>(c: Config<S>, before: seq<Shard<S>>, after: seq<Shard<S>>, call: Call,
                                        evicted: set<Key>, out: Outcome)
    requires c.Valid() && c.shardCount == 1 == |before| == |after| && c.policy == EvictLRU && AllHomes(c, before)
    requires out.Ok? && Serve(c, Flatten(before), call, evicted) == (Flatten(after), out)
    requires Evicted(c, before, c.hash(call.key), {}, evicted)
    requires evicted != {} ==> call.key !in Flatten(before) && |Flatten(before) - {}| == c.maxKeys > 0
    requires after[0].order == ToFront(EvictLRU, WithoutAll(before[0].order, evicted), call.key)
    ensures LruCache.Request(c.alg, c.maxKeys, CacheOf(before[0]), call) == (CacheOf(after[0]), out.result)
  {
    hide WithoutAll, Without, LruCache.Request, CacheOf, LruCache.MakeRoom, Evicted, WellFormed, AllHomes;
    var sh := before[0];
    FlattenSingle(before);
    FlattenSingle(after);
    HomesAt(c, before, 0);
    assert sh.items - {} == sh.items;
    ServeRoom(c, sh.items, call, evicted, out);
    ListedStored(sh, call.key);
    hide Homes, Flatten, Serve;
    if call.key in sh.items {
      WithoutAllMembers(sh.order, {});
      HitStep(c, sh, after[0], call, out);
    } else {
      EvictsLast(c, before, call.key, evicted);
      SameRoom(c, sh, evicted);
      WithoutAllMembers(sh.order, evicted);
      WithoutMembers(WithoutAll(sh.order, evicted), call.key);
      MissStep(c, sh, after[0], call, evicted, out);
    }
  }

  lemma ListedStored<S>(sh: Shard<S>, key: Key)
    requires WellFormed(EvictLRU, sh)
    ensures key in sh.order <==> key in sh.items
  {}

  lemma ServeRoom<S>(c: Config<S>, m: Flat<S>, call: Call, gone: set<Key>, out: Outcome)
    requires Serve(c, m, call, gone).1 == out && out.Ok?
    ensures call.key !in m && gone == {} && c.maxKeys > 0 ==> |m| < c.maxKeys
  {
    assert gone == {} ==> m - gone == m;
  }

  lemma EvictsLast<S>(c: Config<S>, shards: seq<Shard<S>>, key: Key, evicted: set<Key>)
    requires c.Valid() && c.shardCount == 1 == |shards| && Evicted(c, shards, c.hash(key), {}, evicted)
    ensures evicted != {} ==> shards[0].order != [] && evicted == {LruCache.Last(shards[0].order)}
  {
    hide WithoutAll;
    WithoutAllMembers(shards[0].order, {});
  }
}
