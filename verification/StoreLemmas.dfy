/** What the operations of the sequential store do to the shards, seen as relations. */
module StoreLemmas {
  import opened Limiter
  import opened Shards
  import opened FlatStore
  import opened StoreView

  /** Every key of `gone` is stored and has been idle for the TTL. */
  ghost predicate AllExpired<S, V>(c: Config<S>, shards: seq<Shard<V>>, now: int, gone: set<Key>)
    requires c.Valid() && |shards| == c.shardCount
  {
    forall k :: k in gone ==> k in shards[c.hash(k)].items && Expired(c, shards[c.hash(k)].items[k], now)
  }

  /** `e` is the oldest key left in its shard, which is the home shard or, if that is empty,
      the first one that is not. */
  ghost predicate Oldest<S, V>(c: Config<S>, shards: seq<Shard<V>>, home: nat, dropped: set<Key>, e: Key)
    requires c.Valid() && |shards| == c.shardCount && home < c.shardCount
  {
    var left := WithoutAll(shards[c.hash(e)].order, dropped);
    && left != [] && e == left[|left| - 1]
    && (c.hash(e) == home ||
        (&& WithoutAll(shards[home].order, dropped) == []
         && forall i :: 0 <= i < c.hash(e) ==> WithoutAll(shards[i].order, dropped) == []))
  }

  /** At most one key is evicted, and it is the oldest. */
  ghost predicate Evicted<S, V>(c: Config<S>, shards: seq<Shard<V>>, home: nat, dropped: set<Key>, evicted: set<Key>)
    requires c.Valid() && |shards| == c.shardCount && home < c.shardCount
  {
    evicted == {} || exists e: Key :: evicted == {e} && Oldest(c, shards, home, dropped, e)
  }

  /** The shards have lost `gone` and `key` has entry `e`, in front of its shard's list. */
  ghost predicate Placed<S, V>(c: Config<S>, before: seq<Shard<V>>, after: seq<Shard<V>>, home: nat, key: Key,
                               e: Entry<V>, gone: set<Key>)
  {
    && |before| == |after| && home < |before|
    && (forall i :: 0 <= i < |before| && i != home ==>
          after[i].items == before[i].items - gone && after[i].order == WithoutAll(before[i].order, gone))
    && after[home].items == (before[home].items - gone)[key := e]
    && after[home].order == ToFront(c.policy, WithoutAll(before[home].order, gone), key)
  }

  /** What one cleanup of shard `i` does. */
  ghost predicate CleanedUp<S, V>(c: Config<S>, before: seq<Shard<V>>, after: seq<Shard<V>>, i: nat, now: int,
                                  gone: set<Key>)
    requires i < |before|
  {
    && |after| == |before| && Batch(c, before[i], now, gone) && after[i].lastCleanup == MarkAfter(c, before[i], now)
    && forall j :: 0 <= j < |before| && j != i ==> after[j] == before[j]
  }

  /** The keys of `gone` that live in shard `i`. */
  ghost function OfShard<S>(c: Config<S>, gone: set<Key>, i: nat): set<Key> { set k | k in gone && c.hash(k) == i }

  /** Every shard has been through a cleanup; together they lost `gone`. */
  ghost predicate SweptAll<S, V>(c: Config<S>, before: seq<Shard<V>>, after: seq<Shard<V>>, now: int, gone: set<Key>) {
    |before| == |after| &&
    forall i :: 0 <= i < |before| ==> SweptShard(c, before[i], after[i], now, OfShard(c, gone, i))
  }

  ghost predicate SameMarks<S>(before: seq<Shard<S>>, after: seq<Shard<S>>) {
    |before| == |after| && forall i :: 0 <= i < |before| ==> after[i].lastCleanup == before[i].lastCleanup
  }

  /** What a sweep does: nothing unless it is due. */
  ghost predicate Sweeps<S, V>(c: Config<S>, before: seq<Shard<V>>, after: seq<Shard<V>>, last: Option<int>,
                               last': Option<int>, now: int, gone: set<Key>)
  {
    if CleanupDue(c, last, now) then last' == Some(now) && SweptAll(c, before, after, now, gone)
    else last' == last && gone == {} && SameMarks(before, after)
  }

  /** What making room on a full store drops: a sweep is tried unless home has a key to evict. */
  ghost predicate RoomDrops<S, V>(c: Config<S>, before: seq<Shard<V>>, after: seq<Shard<V>>, last: Option<int>,
                                  last': Option<int>, home: nat, now: int, full: bool, gone: set<Key>)
    requires home < |before|
  {
    if full && (c.policy == EvictReject || before[home].order == []) then
      Sweeps(c, before, after, last, last', now, gone)
    else last' == last && gone == {} && SameMarks(before, after)
  }

  /** The home shard as its cleanup finds it. */
  ghost function Seen<S, V>(c: Config<S>, sh: Shard<V>, key: Key, now: int): Shard<V> {
    if key in sh.items then Touch(c.policy, sh, key, now) else sh
  }

  /** A call has to sweep: its key is new, the store is still full after the home shard's own
      cleanup, there is nothing to evict there, and the last sweep is long enough ago. */
  ghost predicate MustSweep<S, V>(c: Config<S>, before: seq<Shard<V>>, last: Option<int>, key: Key, now: int,
                                  batch: set<Key>)
    requires c.Valid() && |before| == c.shardCount
  {
    var sh := before[c.hash(key)];
    && key !in sh.items && 0 < c.maxKeys <= Stored(before) - |batch| && CleanupDue(c, last, now)
    && (c.policy == EvictReject || WithoutAll(sh.order, batch) == [])
  }

  /** Exactly what a call on `key` drops: a batch of its home shard and, if it has to sweep, of
      every other shard; no more and no less. */
  ghost predicate Drops<S, V>(c: Config<S>, before: seq<Shard<V>>, after: seq<Shard<V>>, last: Option<int>,
                              last': Option<int>, key: Key, now: int, dropped: set<Key>)
    requires c.Valid() && |before| == c.shardCount
  {
    var home := c.hash(key);
    && |after| == |before|
    && SweptShard(c, Seen(c, before[home], key, now), after[home], now, OfShard(c, dropped, home))
    && if MustSweep(c, before, last, key, now, OfShard(c, dropped, home)) then
         && last' == Some(now)
         && forall i :: 0 <= i < |before| && i != home ==>
              SweptShard(c, before[i], after[i], now, OfShard(c, dropped, i))
       else
         && last' == last
         && forall i :: 0 <= i < |before| && i != home ==>
              after[i].lastCleanup == before[i].lastCleanup && OfShard(c, dropped, i) == {}
  }

  /** All that decides what later calls do, except the counters. */
  datatype Snapshot<S> = Snapshot(shards: seq<Shard<S>>, lastSweep: Option<int>)

  ghost predicate Sound<S>(c: Config<S>, a: Snapshot<S>) {
    && c.Valid() && |a.shards| == c.shardCount && AllHomes(c, a.shards)
    && (c.maxKeys > 0 ==> Stored(a.shards) <= c.maxKeys)
  }

  /** One call takes the store from `a` to `b`: it loses `gone`, exactly what it has to drop
      and at most one evicted key, and is answered from what is left. */
  ghost predicate Stepped<S>(c: Config<S>, a: Snapshot<S>, b: Snapshot<S>, call: Call, gone: set<Key>, out: Outcome) {
    && Sound(c, a) && Sound(c, b)
    && (Flatten(b.shards), out) == Serve(c, Flatten(a.shards), call, gone)
    && exists dropped: set<Key>, evicted: set<Key> ::
         && gone == dropped + evicted
         && Drops(c, a.shards, b.shards, a.lastSweep, b.lastSweep, call.key, call.now, dropped)
         && Evicted(c, a.shards, c.hash(call.key), dropped, evicted)
         && (evicted != {} ==> c.policy == EvictLRU && c.maxKeys > 0)
  }

  lemma CleanupSweeps<S, V>(c: Config<S>, before: seq<Shard<V>>, after: seq<Shard<V>>, i: nat, now: int, gone: set<Key>)
    requires AllHomes(c, before) && i < |before| && CleanedUp(c, before, after, i, now, gone)
    requires Lost(before, after, gone)
    ensures SweptShard(c, before[i], after[i], now, gone)
    ensures OfShard(c, gone, i) == gone && forall j: nat :: j != i ==> OfShard(c, gone, j) == {}
  {
    hide WithoutAll, Batch, WellFormed;
    HomesAt(c, before, i);
    BatchMembers(c, before[i], now, gone);
    SweptByBatch(c, before[i], after[i], now, gone);
  }

  lemma OfShardUnion<S>(c: Config<S>, x: set<Key>, y: set<Key>, i: nat)
    ensures OfShard(c, x + y, i) == OfShard(c, x, i) + OfShard(c, y, i)
  {}

  /** A shard has lost keys since, or had some served now. */
  ghost predicate LaterShard<S>(mid: Shard<S>, after: Shard<S>, now: int) {
    forall k :: k in after.items ==>
      (k in mid.items && after.items[k].lastSeen == mid.items[k].lastSeen) || after.items[k].lastSeen == now
  }

  ghost predicate Later<S>(mid: seq<Shard<S>>, after: seq<Shard<S>>, now: int) {
    |mid| == |after| && forall i :: 0 <= i < |mid| ==> LaterShard(mid[i], after[i], now)
  }

  lemma SweptLater<S, V>(c: Config<S>, before: Shard<V>, mid: Shard<V>, after: Shard<V>, now: int, gone: set<Key>)
    requires SweptShard(c, before, mid, now, gone) && after.lastCleanup == mid.lastCleanup
    requires LaterShard(mid, after, now)
    ensures SweptShard(c, before, after, now, gone)
  {
    hide Batch;
  }

  lemma SweptAllLater<S, V>(c: Config<S>, before: seq<Shard<V>>, mid: seq<Shard<V>>, after: seq<Shard<V>>, now: int,
                            gone: set<Key>)
    requires SweptAll(c, before, mid, now, gone) && Later(mid, after, now) && SameMarks(mid, after)
    ensures SweptAll(c, before, after, now, gone)
  {
    hide SweptShard, LaterShard;
    forall i | 0 <= i < |before| ensures SweptShard(c, before[i], after[i], now, OfShard(c, gone, i)) {
      SweptLater(c, before[i], mid[i], after[i], now, OfShard(c, gone, i));
    }
  }

  lemma SweepsLater<S, V>(c: Config<S>, before: seq<Shard<V>>, mid: seq<Shard<V>>, after: seq<Shard<V>>,
                          last: Option<int>, last': Option<int>, now: int, gone: set<Key>)
    requires Sweeps(c, before, mid, last, last', now, gone) && Later(mid, after, now) && SameMarks(mid, after)
    ensures Sweeps(c, before, after, last, last', now, gone)
  {
    hide SweptAll;
    if CleanupDue(c, last, now) {
      SweptAllLater(c, before, mid, after, now, gone);
    }
  }

  lemma DropsLater<S, V>(c: Config<S>, before: seq<Shard<V>>, mid: seq<Shard<V>>, after: seq<Shard<V>>,
                         last: Option<int>, last': Option<int>, key: Key, now: int, dropped: set<Key>)
    requires c.Valid() && |before| == c.shardCount
    requires Drops(c, before, mid, last, last', key, now, dropped) && Later(mid, after, now) && SameMarks(mid, after)
    ensures Drops(c, before, after, last, last', key, now, dropped)
  {
    hide SweptShard, MustSweep, Seen, LaterShard;
    var home := c.hash(key);
    SweptLater(c, Seen(c, before[home], key, now), mid[home], after[home], now, OfShard(c, dropped, home));
    forall i | 0 <= i < |before| && i != home && MustSweep(c, before, last, key, now, OfShard(c, dropped, home))
      ensures SweptShard(c, before[i], after[i], now, OfShard(c, dropped, i))
    {
      SweptLater(c, before[i], mid[i], after[i], now, OfShard(c, dropped, i));
    }
  }

  lemma LostIsLater<S>(before: seq<Shard<S>>, after: seq<Shard<S>>, gone: set<Key>, now: int)
    requires Lost(before, after, gone)
    ensures Later(before, after, now)
  {
    hide WithoutAll;
  }

  lemma InsertIsLater<S, V>(c: Config<S>, shards: seq<Shard<V>>, home: nat, key: Key, value: V, now: int)
    requires home < |shards|
    ensures var after := shards[home := Insert(c.policy, shards[home], key, value, now)];
            Later(shards, after, now) && SameMarks(shards, after)
  {
    hide ToFront;
  }

  lemma ReplaceIsLater<S>(shards: seq<Shard<S>>, home: nat, key: Key, value: S, now: int)
    requires home < |shards| && key in shards[home].items
    ensures var sh := shards[home];
            var after := shards[home := sh.(items := sh.items[key := sh.items[key].(value := value)])];
            Later(shards, after, now) && SameMarks(shards, after)
  {}

  /** A call that finds its key only cleans up at home. */
  lemma HitDrops<S, V>(c: Config<S>, before: seq<Shard<V>>, after: seq<Shard<V>>, last: Option<int>, key: Key, now: int,
                       dropped: set<Key>)
    requires c.Valid() && |before| == c.shardCount && key in before[c.hash(key)].items
    requires var touched := before[c.hash(key) := Touch(c.policy, before[c.hash(key)], key, now)];
             && AllHomes(c, touched) && CleanedUp(c, touched, after, c.hash(key), now, dropped)
             && Lost(touched, after, dropped)
    ensures Drops(c, before, after, last, last, key, now, dropped)
  {
    hide AllHomes, Lost, Touch;
    var touched := before[c.hash(key) := Touch(c.policy, before[c.hash(key)], key, now)];
    CleanupSweeps(c, touched, after, c.hash(key), now, dropped);
    hide SweptShard, Batch, OfShard, CleanupDue;
  }

  /** A shard just cleaned up is not due again. */
  lemma NotDueAgain<S, V>(c: Config<S>, before: Shard<V>, mid: Shard<V>, after: Shard<V>, now: int, more: set<Key>)
    requires mid.lastCleanup == MarkAfter(c, before, now)
    ensures SweptShard(c, mid, after, now, more) ==> after.lastCleanup == mid.lastCleanup && more == {}
  {}

  /** After the home shard's own cleanup, making room drops nothing more there. */
  lemma MissHome<S, V>(c: Config<S>, before: seq<Shard<V>>, mid: seq<Shard<V>>, after: seq<Shard<V>>, last: Option<int>,
                       last': Option<int>, home: nat, now: int, gone: set<Key>, more: set<Key>, full: bool)
    requires AllHomes(c, before) && home < |before| && CleanedUp(c, before, mid, home, now, gone)
    requires Lost(before, mid, gone) && Later(mid, after, now)
    requires RoomDrops(c, mid, after, last, last', home, now, full, more)
    ensures OfShard(c, gone + more, home) == gone && SweptShard(c, before[home], after[home], now, gone)
  {
    hide AllHomes, Batch, SweptShard, WithoutAll, LaterShard, CleanupDue, MarkAfter, OfShard;
    CleanupSweeps(c, before, mid, home, now, gone);
    NotDueAgain(c, before[home], mid[home], after[home], now, OfShard(c, more, home));
    OfShardUnion(c, gone, more, home);
    OfShardNone(c, home);
    SweptLater(c, before[home], mid[home], after[home], now, gone);
  }

  lemma OfShardNone<S>(c: Config<S>, i: nat)
    ensures OfShard(c, {}, i) == {}
  {}

  /** Elsewhere, making room drops what it drops. */
  lemma MissElsewhere<S, V>(c: Config<S>, before: seq<Shard<V>>, mid: seq<Shard<V>>, home: nat, now: int,
                            gone: set<Key>, more: set<Key>, i: nat)
    requires AllHomes(c, before) && home < |before| && CleanedUp(c, before, mid, home, now, gone)
    requires Lost(before, mid, gone) && i < |before| && i != home
    ensures OfShard(c, gone + more, i) == OfShard(c, more, i) && mid[i] == before[i]
  {
    hide AllHomes, Batch, SweptShard, WithoutAll, CleanupDue, MarkAfter;
    CleanupSweeps(c, before, mid, home, now, gone);
    OfShardUnion(c, gone, more, i);
  }

  /** A call that does not find its key cleans up at home, and may then have to make room. */
  lemma {:induction false} MissDrops<S, V>(c: Config<S>, before: seq<Shard<V>>, mid: seq<Shard<V>>,
                                           after: seq<Shard<V>>, last: Option<int>, last': Option<int>, key: Key,
                                           now: int, gone: set<Key>, more: set<Key>)
    requires c.Valid() && |before| == c.shardCount && AllHomes(c, before) && key !in before[c.hash(key)].items
    requires CleanedUp(c, before, mid, c.hash(key), now, gone) && Lost(before, mid, gone)
    requires Stored(mid) == Stored(before) - |gone| && Later(mid, after, now)
    requires RoomDrops(c, mid, after, last, last', c.hash(key), now, 0 < c.maxKeys <= Stored(mid), more)
    ensures Drops(c, before, after, last, last', key, now, gone + more)
  {
    hide AllHomes, Stored, OfShard, SweptShard, WithoutAll, Later, CleanupDue, CleanedUp;
    var home := c.hash(key);
    MissHome(c, before, mid, after, last, last', home, now, gone, more, 0 < c.maxKeys <= Stored(mid));
    forall i | 0 <= i < |before| && i != home
      ensures OfShard(c, gone + more, i) == OfShard(c, more, i) && mid[i] == before[i]
    {
      MissElsewhere(c, before, mid, home, now, gone, more, i);
    }
    forall i: nat ensures OfShard(c, {}, i) == {} {
      OfShardNone(c, i);
    }
    assert mid[home].order == WithoutAll(before[home].order, gone);
    assert Seen(c, before[home], key, now) == before[home];
    hide Seen, Lost;
    var full := 0 < c.maxKeys <= Stored(mid) && (c.policy == EvictReject || mid[home].order == []);
    assert MustSweep(c, before, last, key, now, gone) <==> full && CleanupDue(c, last, now);
    hide MustSweep;
  }

  // ---- A sweep, shard by shard ----

  /** The first `n` shards have been swept, the others not touched. */
  ghost predicate SweptUpTo<S, V>(c: Config<S>, before: seq<Shard<V>>, after: seq<Shard<V>>, now: int, gone: set<Key>,
                                  n: nat)
  {
    && |before| == |after|
    && (forall i :: 0 <= i < n && i < |before| ==> SweptShard(c, before[i], after[i], now, OfShard(c, gone, i)))
    && (forall i :: n <= i < |before| ==> after[i] == before[i] && OfShard(c, gone, i) == {})
  }

  lemma SweptNext<S, V>(c: Config<S>, before: seq<Shard<V>>, mid: seq<Shard<V>>, after: seq<Shard<V>>, now: int,
                        gone: set<Key>, n: nat, more: set<Key>)
    requires SweptUpTo(c, before, mid, now, gone, n) && n < |mid| && AllHomes(c, mid)
    requires CleanedUp(c, mid, after, n, now, more) && Lost(mid, after, more)
    ensures SweptUpTo(c, before, after, now, gone + more, n + 1)
  {
    hide AllHomes, Batch, SweptShard, Lost, CleanupDue, MarkAfter, OfShard;
    CleanupSweeps(c, mid, after, n, now, more);
    forall i | 0 <= i < |before|
      ensures OfShard(c, gone + more, i) == if i == n then more else OfShard(c, gone, i)
    {
      OfShardUnion(c, gone, more, i);
    }
  }

  lemma ExpiredCompose<S, V>(c: Config<S>, a: seq<Shard<V>>, b: seq<Shard<V>>, now: int, x: set<Key>, y: set<Key>)
    requires c.Valid() && |a| == |b| == c.shardCount
    requires Lost(a, b, x) && AllExpired(c, a, now, x) && AllExpired(c, b, now, y)
    ensures AllExpired(c, a, now, x + y)
  {
    hide WithoutAll;
  }

  lemma EvictedCompose<S, V>(c: Config<S>, a: seq<Shard<V>>, b: seq<Shard<V>>, home: nat, x: set<Key>, y: set<Key>,
                             evicted: set<Key>)
    requires c.Valid() && |a| == |b| == c.shardCount && home < c.shardCount
    requires Lost(a, b, x) && Evicted(c, b, home, y, evicted)
    ensures Evicted(c, a, home, x + y, evicted)
  {
    hide WithoutAll;
    if evicted != {} {
      var e: Key :| evicted == {e} && Oldest(c, b, home, y, e);
      WithoutAllCompose(a[c.hash(e)].order, x, y);
      WithoutAllCompose(a[home].order, x, y);
      forall i | 0 <= i < c.shardCount ensures WithoutAll(a[i].order, x + y) == WithoutAll(b[i].order, y) {
        WithoutAllCompose(a[i].order, x, y);
      }
      assert Oldest(c, a, home, x + y, e);
    }
  }

  lemma {:induction false} ToFrontCommutes(policy: Policy, order: seq<Key>, key: Key, gone: set<Key>)
    requires key !in gone
    ensures WithoutAll(ToFront(policy, order, key), gone) == ToFront(policy, WithoutAll(order, gone), key)
  {
    if policy == EvictLRU {
      WithoutAllOne(order, key);
      WithoutAllOne(WithoutAll(order, gone), key);
      WithoutAllCompose(order, {key}, gone);
      WithoutAllCompose(order, gone, {key});
      assert {key} + gone == gone + {key};
      assert ([key] + Without(order, key))[1..] == Without(order, key);
    }
  }

  /** Touching a key before a cleanup is placing it in front after the cleanup. */
  lemma PlacedByTouch<S, V>(c: Config<S>, before: seq<Shard<V>>, after: seq<Shard<V>>, home: nat, key: Key, now: int,
                            gone: set<Key>)
    requires home < |before| && key in before[home].items && key !in gone
    requires Lost(before[home := Touch(c.policy, before[home], key, now)], after, gone)
    ensures Placed(c, before, after, home, key, before[home].items[key].(lastSeen := now), gone)
  {
    hide WithoutAll, ToFront;
    ToFrontCommutes(c.policy, before[home].order, key, gone);
    var items := before[home].items;
    var e := items[key].(lastSeen := now);
    assert items[key := e] - gone == (items - gone)[key := e];
  }

  lemma PlacedByInsert<S, V>(c: Config<S>, before: seq<Shard<V>>, mid: seq<Shard<V>>, home: nat, key: Key, value: V,
                             now: int, gone: set<Key>)
    requires home < |before| && Lost(before, mid, gone)
    ensures var after := mid[home := Insert(c.policy, mid[home], key, value, now)];
            Placed(c, before, after, home, key, Entry(value, now), gone)
  {
    hide WithoutAll, ToFront;
  }

  /** Placing a key is updating the flat map. */
  lemma {:induction false} FlattenPlaced<S>(c: Config<S>, before: seq<Shard<S>>, after: seq<Shard<S>>, key: Key,
                                            e: Entry<S>, gone: set<Key>)
    requires c.Valid() && AllHomes(c, before) && AllHomes(c, after) && |before| == c.shardCount
    requires Placed(c, before, after, c.hash(key), key, e, gone)
    ensures Flatten(after) == (Flatten(before) - gone)[key := e]
  {
    hide AllHomes, Flatten, WithoutAll, ToFront;
    var (m, n) := ((Flatten(before) - gone)[key := e], Flatten(after));
    forall k: Key ensures k in m <==> k in n {
      FlattenAt(c, before, k);
      FlattenAt(c, after, k);
    }
    forall k: Key | k in m ensures m[k] == n[k] {
      FlattenAt(c, before, k);
      FlattenAt(c, after, k);
    }
    SameMap(m, n);
  }

  // ---- Order of last access ----

  /** The list runs from the latest access to the earliest. */
  ghost predicate Descending(order: seq<Key>, stamp: map<Key, nat>, accesses: nat) {
    && (forall i :: 0 <= i < |order| ==> order[i] in stamp && stamp[order[i]] < accesses)
    && (forall i, j :: 0 <= i < j < |order| ==> stamp[order[i]] > stamp[order[j]])
  }

  ghost predicate ByRecency<S>(shards: seq<Shard<S>>, stamp: map<Key, nat>, accesses: nat) {
    forall i :: 0 <= i < |shards| ==> Descending(shards[i].order, stamp, accesses)
  }

  lemma DescendingTail(order: seq<Key>, stamp: map<Key, nat>, accesses: nat)
    requires Descending(order, stamp, accesses) && order != []
    ensures Descending(order[1..], stamp, stamp[order[0]])
    ensures Descending(order[1..], stamp, accesses)
  {}

  lemma DescendingCons(key: Key, rest: seq<Key>, stamp: map<Key, nat>, accesses: nat)
    requires key in stamp && stamp[key] < accesses && Descending(rest, stamp, stamp[key])
    ensures Descending([key] + rest, stamp, accesses)
  {}

  lemma {:induction false} DescendingWithoutAll(order: seq<Key>, stamp: map<Key, nat>, accesses: nat, gone: set<Key>)
    requires Descending(order, stamp, accesses)
    ensures Descending(WithoutAll(order, gone), stamp, accesses)
    decreases |order|
  {
    if order != [] {
      DescendingTail(order, stamp, accesses);
      var key, rest := order[0], WithoutAll(order[1..], gone);
      if key in gone {
        DescendingWithoutAll(order[1..], stamp, accesses, gone);
        assert [] + rest == rest;
      } else {
        DescendingWithoutAll(order[1..], stamp, stamp[key], gone);
        DescendingCons(key, rest, stamp, accesses);
      }
    }
  }

  /** A new access, later than all others, belongs in front. */
  lemma DescendingFront(order: seq<Key>, stamp: map<Key, nat>, accesses: nat, key: Key)
    requires Descending(order, stamp, accesses)
    ensures Descending(ToFront(EvictLRU, order, key), stamp[key := accesses], accesses + 1)
  {
    WithoutAllOne(order, key);
    DescendingWithoutAll(order, stamp, accesses, {key});
    WithoutMembers(order, key);
    var rest := Without(order, key);
    assert forall i :: 0 <= i < |rest| ==> rest[i] in rest;
    assert Descending(rest, stamp[key := accesses], accesses);
    DescendingCons(key, rest, stamp[key := accesses], accesses + 1);
  }

  /** An access keeps every list in order of last access. */
  lemma RecencyPlaced<S>(c: Config<S>, before: seq<Shard<S>>, after: seq<Shard<S>>, key: Key, e: Entry<S>,
                         gone: set<Key>, stamp: map<Key, nat>, accesses: nat)
    requires c.Valid() && c.policy == EvictLRU && AllHomes(c, after) && |before| == c.shardCount
    requires ByRecency(before, stamp, accesses) && Placed(c, before, after, c.hash(key), key, e, gone)
    ensures ByRecency(after, stamp[key := accesses], accesses + 1)
  {
    hide Descending, WithoutAll, ToFront, WellFormed;
    var home := c.hash(key);
    forall i | 0 <= i < |after| ensures Descending(after[i].order, stamp[key := accesses], accesses + 1) {
      DescendingWithoutAll(before[i].order, stamp, accesses, gone);
      if i == home {
        DescendingFront(WithoutAll(before[i].order, gone), stamp, accesses, key);
      } else {
        assert Homes(c, i, after[i]);
        ListedKeys(c, after[i], key, i);
        DescendingElsewhere(after[i].order, stamp, accesses, key);
      }
    }
  }

  lemma ListedKeys<S, V>(c: Config<S>, sh: Shard<V>, key: Key, i: nat)
    requires Homes(c, i, sh) && c.hash(key) != i
    ensures key !in sh.order
  {}

  lemma DescendingElsewhere(order: seq<Key>, stamp: map<Key, nat>, accesses: nat, key: Key)
    requires Descending(order, stamp, accesses) && key !in order
    ensures Descending(order, stamp[key := accesses], accesses + 1)
  {
    assert forall i :: 0 <= i < |order| ==> order[i] in order;
  }

  /** The evicted key was accessed before every other key left in its shard. */
  lemma OldestIsLeastRecent<S, V>(c: Config<S>, shards: seq<Shard<V>>, home: nat, dropped: set<Key>, e: Key,
                                  stamp: map<Key, nat>, accesses: nat, k: Key)
    requires c.Valid() && c.policy == EvictLRU && |shards| == c.shardCount && home < c.shardCount
    requires AllHomes(c, shards) && ByRecency(shards, stamp, accesses)
    requires Oldest(c, shards, home, dropped, e)
    requires c.hash(k) == c.hash(e) && k in shards[c.hash(k)].items && k !in dropped
    ensures e in stamp && k in stamp && stamp[e] <= stamp[k]
  {
    hide WithoutAll;
    var i := c.hash(e);
    var left := WithoutAll(shards[i].order, dropped);
    assert Homes(c, i, shards[i]);
    DescendingWithoutAll(shards[i].order, stamp, accesses, dropped);
    WithoutAllMembers(shards[i].order, dropped);
    var j :| 0 <= j < |left| && left[j] == k;
  }

  // ---- Summaries of the steps of one call ----

  lemma NoneExpired<S, V>(c: Config<S>, shards: seq<Shard<V>>, now: int)
    requires c.Valid() && |shards| == c.shardCount
    ensures AllExpired(c, shards, now, {})
  {}

  lemma NoneEvicted<S, V>(c: Config<S>, shards: seq<Shard<V>>, home: nat, dropped: set<Key>)
    requires c.Valid() && |shards| == c.shardCount && home < c.shardCount
    ensures Evicted(c, shards, home, dropped, {})
  {}

  /** An eviction after some drops. */
  lemma EvictionSummary<S, V>(c: Config<S>, before: seq<Shard<V>>, start: seq<Shard<V>>, after: seq<Shard<V>>,
                              home: nat, dropped: set<Key>, evicted: set<Key>)
    requires c.Valid() && |before| == |start| == c.shardCount && home < c.shardCount
    requires Lost(before, start, dropped) && Lost(start, after, evicted)
    requires Evicted(c, start, home, {}, evicted)
    ensures Lost(before, after, dropped + evicted) && Evicted(c, before, home, dropped, evicted)
  {
    hide Lost, Oldest, Evicted;
    LostCompose(before, start, after, dropped, evicted);
    EvictedCompose(c, before, start, home, dropped, {}, evicted);
    assert dropped + {} == dropped;
  }

  /** The last key of a shard's list is the oldest, if the shard is home, or home and all
      shards before it are empty. */
  lemma LastIsOldest<S, V>(c: Config<S>, shards: seq<Shard<V>>, i: nat, home: nat)
    requires c.Valid() && |shards| == c.shardCount && home < c.shardCount && i < c.shardCount
    requires AllHomes(c, shards) && c.policy == EvictLRU && shards[i].order != []
    requires i == home || (shards[home].order == [] && forall j :: 0 <= j < i ==> shards[j].order == [])
    ensures var e := shards[i].order[|shards[i].order| - 1];
            e in shards[i].items && c.hash(e) == i && Evicted(c, shards, home, {}, {e})
  {
    hide AllHomes, Homes, WithoutAll;
    var e := shards[i].order[|shards[i].order| - 1];
    HomesAt(c, shards, i);
    LastStored(c, shards[i], i);
    WithoutAllMembers(shards[i].order, {});
    forall j | 0 <= j < c.shardCount ensures WithoutAll(shards[j].order, {}) == shards[j].order {
      WithoutAllMembers(shards[j].order, {});
    }
    assert Oldest(c, shards, home, {}, e);
  }

  lemma LastStored<S, V>(c: Config<S>, sh: Shard<V>, i: nat)
    requires Homes(c, i, sh) && c.policy == EvictLRU && sh.order != []
    ensures var e := sh.order[|sh.order| - 1]; e in sh.items && c.hash(e) == i
  {
    hide NoDup;
    assert sh.order[|sh.order| - 1] in sh.order;
  }

  lemma ReserveSummary<S, V>(c: Config<S>, before: seq<Shard<V>>, mid: seq<Shard<V>>, after: seq<Shard<V>>, home: nat,
                             now: int, dropped: set<Key>, more: set<Key>, evicted: set<Key>)
    requires c.Valid() && |before| == |mid| == c.shardCount && home < c.shardCount
    requires Lost(before, mid, dropped) && Lost(mid, after, more + evicted)
    requires AllExpired(c, before, now, dropped) && AllExpired(c, mid, now, more)
    requires Evicted(c, mid, home, more, evicted)
    ensures Lost(before, after, dropped + more + evicted)
    ensures AllExpired(c, before, now, dropped + more)
    ensures Evicted(c, before, home, dropped + more, evicted)
  {
    hide Lost, Oldest, Evicted, AllExpired;
    LostCompose(before, mid, after, dropped, more + evicted);
    assert dropped + (more + evicted) == dropped + more + evicted;
    ExpiredCompose(c, before, mid, now, dropped, more);
    EvictedCompose(c, before, mid, home, dropped, more, evicted);
  }

  /** Only stored keys are dropped or evicted. */
  lemma AbsentStaysAbsent<S, V>(c: Config<S>, shards: seq<Shard<V>>, home: nat, key: Key, now: int, dropped: set<Key>,
                                evicted: set<Key>)
    requires c.Valid() && |shards| == c.shardCount && home < c.shardCount && AllHomes(c, shards)
    requires AllExpired(c, shards, now, dropped) && Evicted(c, shards, home, dropped, evicted)
    requires evicted != {} ==> c.policy == EvictLRU
    requires key !in shards[c.hash(key)].items
    ensures key !in dropped && key !in evicted
  {
    if evicted != {} {
      var e: Key :| evicted == {e} && Oldest(c, shards, home, dropped, e);
      EvictedStored(c, shards, home, dropped, e);
    }
  }

  lemma EvictedStored<S, V>(c: Config<S>, shards: seq<Shard<V>>, home: nat, dropped: set<Key>, e: Key)
    requires c.Valid() && |shards| == c.shardCount && home < c.shardCount && AllHomes(c, shards)
    requires c.policy == EvictLRU && Oldest(c, shards, home, dropped, e)
    ensures e in shards[c.hash(e)].items && e !in dropped
  {
    hide WithoutAll;
    var i := c.hash(e);
    assert Homes(c, i, shards[i]);
    WithoutAllMembers(shards[i].order, dropped);
    var left := WithoutAll(shards[i].order, dropped);
    assert left[|left| - 1] in left;
  }

  /** A key touched now is not among the expired ones, and touching it changes no other. */
  lemma TouchExpired<S, V>(c: Config<S>, shards: seq<Shard<V>>, home: nat, key: Key, now: int, dropped: set<Key>)
    requires c.Valid() && |shards| == c.shardCount && home == c.hash(key) && key in shards[home].items
    requires AllExpired(c, shards[home := Touch(c.policy, shards[home], key, now)], now, dropped)
    requires !c.CleanupEnabled() ==> dropped == {}
    ensures key !in dropped && AllExpired(c, shards, now, dropped)
  {
    hide ToFront;
  }

  /** Replacing the state of a stored key keeps everything else. */
  lemma ReplaceKeeps<S>(c: Config<S>, shards: seq<Shard<S>>, home: nat, key: Key, value: S)
    requires AllHomes(c, shards) && home < |shards| && key in shards[home].items
    ensures var sh := shards[home];
            var after := shards[home := sh.(items := sh.items[key := sh.items[key].(value := value)])];
            AllHomes(c, after) && Stored(after) == Stored(shards)
  {
    hide Stored;
    var sh := shards[home];
    var sh' := sh.(items := sh.items[key := sh.items[key].(value := value)]);
    assert Homes(c, home, sh);
    assert sh'.items.Keys == sh.items.Keys;
    assert |sh'.items.Keys| == |sh.items.Keys|;
    HomesPut(c, shards, home, sh');
    StoredPut(shards, home, sh');
  }

  // ---- One call on the flat map ----

  lemma {:induction false} MayDropFlat<S>(c: Config<S>, shards: seq<Shard<S>>, key: Key, now: int, dropped: set<Key>)
    requires c.Valid() && |shards| == c.shardCount && AllHomes(c, shards)
    requires AllExpired(c, shards, now, dropped) && key !in dropped && (!c.CleanupEnabled() ==> dropped == {})
    ensures MayDrop(c, Flatten(shards), Call(key, now), dropped)
  {
    hide AllHomes, Flatten;
    forall k | k in dropped ensures k in Flatten(shards) && Expired(c, Flatten(shards)[k], now) {
      FlattenAt(c, shards, k);
    }
  }

  lemma {:induction false} RejectedFlat<S>(c: Config<S>, before: seq<Shard<S>>, after: seq<Shard<S>>, key: Key,
                                           now: int, dropped: set<Key>)
    requires c.Valid() && |before| == c.shardCount && AllHomes(c, before) && AllHomes(c, after)
    requires Lost(before, after, dropped) && key !in before[c.hash(key)].items
    requires 0 < c.maxKeys <= Stored(after)
    ensures Serve(c, Flatten(before), Call(key, now), dropped) == (Flatten(after), MaxKeysExceeded)
  {
    hide AllHomes, Flatten, Stored, Lost;
    FlattenLost(c, before, after, dropped) by { assert |after| == |before| by { LostLength(before, after, dropped); } }
    FlattenCount(c, after);
    FlattenAt(c, before, key);
  }

  lemma LostLength<V>(before: seq<Shard<V>>, after: seq<Shard<V>>, gone: set<Key>)
    requires Lost(before, after, gone)
    ensures |before| == |after|
  {}

  /** Serving a key from the state it has, or a fresh one if there is room. */
  lemma ServeFrom<S>(c: Config<S>, m: Flat<S>, key: Key, now: int, gone: set<Key>, value: S)
    requires key !in gone && value == if key in m then m[key].value else c.alg.create(now)
    requires c.maxKeys > 0 ==> |(m - gone).Keys + {key}| <= c.maxKeys
    ensures var (s, r) := c.alg.decide(value, now);
            Serve(c, m, Call(key, now), gone) == ((m - gone)[key := Entry(s, now)], Ok(r))
  {
    var kept := m - gone;
    if key !in kept {
      assert |kept.Keys + {key}| == |kept| + 1;
    }
  }

  lemma {:induction false} FlattenServed<S>(c: Config<S>, before: seq<Shard<S>>, placed: seq<Shard<S>>,
                                            after: seq<Shard<S>>, key: Key, e: Entry<S>, next: Entry<S>, gone: set<Key>)
    requires c.Valid() && |before| == c.shardCount && AllHomes(c, before) && AllHomes(c, placed) && AllHomes(c, after)
    requires Placed(c, before, placed, c.hash(key), key, e, gone)
    requires after == placed[c.hash(key) := placed[c.hash(key)].(items := placed[c.hash(key)].items[key := next])]
    ensures Flatten(after) == (Flatten(before) - gone)[key := next]
    ensures Stored(placed) == |(Flatten(before) - gone).Keys + {key}|
  {
    hide AllHomes, Flatten, Stored;
    FlattenPlaced(c, before, placed, key, e, gone);
    FlattenPut(c, placed, after, key, next);
    hide Placed;
    FlattenCount(c, placed);
    PutTwice(Flatten(before) - gone, key, e, next);
  }

  lemma PutTwice<V>(m: map<Key, V>, key: Key, v: V, w: V)
    ensures m[key := v][key := w] == m[key := w]
    ensures |m[key := v]| == |m.Keys + {key}|
  {
    assert m[key := v].Keys == m.Keys + {key};
    assert |m[key := v].Keys| == |m.Keys + {key}|;
  }

  /** `placed` has the key with the state it had or a fresh one; `after` the next state. */
  lemma {:induction false} ServedFlat<S>(c: Config<S>, before: seq<Shard<S>>, placed: seq<Shard<S>>,
                                         after: seq<Shard<S>>, key: Key, now: int, gone: set<Key>, value: S)
    requires c.Valid() && |before| == c.shardCount && AllHomes(c, before) && AllHomes(c, placed) && AllHomes(c, after)
    requires key !in gone && (c.maxKeys > 0 ==> Stored(placed) <= c.maxKeys)
    requires var items := before[c.hash(key)].items;
             value == if key in items then items[key].value else c.alg.create(now)
    requires Placed(c, before, placed, c.hash(key), key, Entry(value, now), gone)
    requires after == placed[c.hash(key) := placed[c.hash(key)].(items :=
               placed[c.hash(key)].items[key := Entry(c.alg.decide(value, now).0, now)])]
    ensures Serve(c, Flatten(before), Call(key, now), gone) == (Flatten(after), Ok(c.alg.decide(value, now).1))
    ensures Stored(placed) == |(Flatten(before) - gone).Keys + {key}|
  {
    hide AllHomes, Flatten, Stored, Placed, Serve;
    FlattenServed(c, before, placed, after, key, Entry(value, now), Entry(c.alg.decide(value, now).0, now), gone);
    FlattenAt(c, before, key);
    ServeFrom(c, Flatten(before), key, now, gone, value);
  }

  /** An eviction happens only when the cap is reached without it. */
  lemma {:induction false} EvictedSize<S>(c: Config<S>, shards: seq<Shard<S>>, home: nat, key: Key, dropped: set<Key>,
                                          evicted: set<Key>)
    requires c.Valid() && |shards| == c.shardCount && home < c.shardCount && AllHomes(c, shards)
    requires c.policy == EvictLRU && Evicted(c, shards, home, dropped, evicted) && evicted != {}
    requires key !in Flatten(shards)
    requires |(Flatten(shards) - (dropped + evicted)).Keys + {key}| == c.maxKeys
    ensures |Flatten(shards) - dropped| == c.maxKeys
  {
    hide AllHomes, Flatten, WithoutAll;
    var e: Key :| evicted == {e} && Oldest(c, shards, home, dropped, e);
    EvictedStored(c, shards, home, dropped, e);
    FlattenAt(c, shards, e);
    var (m, kept) := (Flatten(shards) - dropped, Flatten(shards) - (dropped + evicted));
    assert m.Keys == kept.Keys + {e};
    assert |m.Keys| == |kept.Keys| + 1 == |kept.Keys + {key}|;
  }

  lemma RecencyServed<S>(c: Config<S>, before: seq<Shard<S>>, placed: seq<Shard<S>>, after: seq<Shard<S>>, key: Key,
                         e: Entry<S>, gone: set<Key>, stamp: map<Key, nat>, accesses: nat)
    requires c.Valid() && |before| == c.shardCount && AllHomes(c, placed)
    requires c.policy == EvictLRU ==> ByRecency(before, stamp, accesses)
    requires Placed(c, before, placed, c.hash(key), key, e, gone)
    requires |after| == |placed| && forall i :: 0 <= i < |after| ==> after[i].order == placed[i].order
    ensures c.policy == EvictLRU ==> ByRecency(after, stamp[key := accesses], accesses + 1)
  {
    hide AllHomes, WithoutAll, ToFront, Descending;
    if c.policy == EvictLRU {
      RecencyPlaced(c, before, placed, key, e, gone, stamp, accesses);
    }
  }

  lemma {:induction false} NothingThere<S>(shards: seq<Shard<S>>)
    requires forall i :: 0 <= i < |shards| ==> shards[i].items == map[] && shards[i].order == []
    ensures Stored(shards) == 0 && Flatten(shards) == map[]
  {
    if shards != [] {
      NothingThere(shards[..|shards| - 1]);
    }
  }

  lemma LostAbsent<V>(before: seq<Shard<V>>, after: seq<Shard<V>>, gone: set<Key>, i: nat, key: Key)
    requires Lost(before, after, gone) && i < |before| && key !in before[i].items
    ensures key !in after[i].items
  {
    hide WithoutAll;
  }

  lemma LostAlready<V>(before: seq<Shard<V>>, after: seq<Shard<V>>, gone: set<Key>, i: nat, key: Key)
    requires Lost(before, after, gone) && i < |before| && key in before[i].items && key !in after[i].items
    ensures key in gone
  {
    hide WithoutAll;
  }

  lemma StillThere<V>(before: seq<Shard<V>>, after: seq<Shard<V>>, gone: set<Key>, i: nat, key: Key)
    requires Lost(before, after, gone) && i < |before| && key in after[i].items
    ensures key !in gone
  {
    hide WithoutAll;
  }

  lemma EmptyStaysEmpty<V>(before: seq<Shard<V>>, after: seq<Shard<V>>, gone: set<Key>, i: nat)
    requires Lost(before, after, gone) && i < |before| && before[i].order == []
    ensures after[i].order == []
  {}

  lemma MarkCleaned<S, V>(c: Config<S>, shards: seq<Shard<V>>, i: nat, now: int)
    requires AllHomes(c, shards) && i < |shards|
    ensures var after := shards[i := shards[i].(lastCleanup := Some(now))];
            AllHomes(c, after) && Stored(after) == Stored(shards)
    ensures c.policy == EvictLRU ==> forall k :: k in shards[i].order ==> k in shards[i].items
  {
    hide Stored;
    assert Homes(c, i, shards[i]);
    HomesPut(c, shards, i, shards[i].(lastCleanup := Some(now)));
    StoredPut(shards, i, shards[i].(lastCleanup := Some(now)));
  }

  lemma BatchExpired<S, V>(c: Config<S>, shards: seq<Shard<V>>, i: nat, now: int, gone: set<Key>, expired: seq<Key>)
    requires c.Valid() && |shards| == c.shardCount && i < c.shardCount && AllHomes(c, shards)
    requires forall k :: k in expired ==> k in shards[i].items && Expired(c, shards[i].items[k], now)
    requires forall k :: k in gone <==> k in expired
    ensures AllExpired(c, shards, now, gone)
  {
    assert Homes(c, i, shards[i]);
  }

  /** When a shard was last cleaned up is no part of what a scan looks at. */
  lemma {:induction false} SameBatch<S>(c: Config<S>, sh: Shard<S>, marked: Shard<S>, now: int, scanned: seq<Key>)
    requires marked == sh.(lastCleanup := marked.lastCleanup)
    ensures ExpiredOf(c, marked, now, scanned) == ExpiredOf(c, sh, now, scanned)
    ensures Scan(c.policy, marked, scanned) == Scan(c.policy, sh, scanned)
  {
    if scanned != [] {
      SameBatch(c, sh, marked, now, scanned[1..]);
    }
  }

  lemma {:induction false} NothingScanned<S>(c: Config<S>, sh: Shard<S>, now: int)
    ensures ExpiredOf(c, sh, now, []) == []
  {}

  lemma {:induction false} ScannedOne<S>(c: Config<S>, sh: Shard<S>, now: int, scanned: seq<Key>, key: Key)
    requires key in sh.items
    ensures ExpiredOf(c, sh, now, scanned + [key])
            == ExpiredOf(c, sh, now, scanned) + if now - sh.items[key].lastSeen >= c.keyTTL then [key] else []
  {
    if scanned == [] {
      assert [] + [key] == [key];
      NothingScanned(c, sh, now);
    } else {
      assert (scanned + [key])[1..] == scanned[1..] + [key];
      ScannedOne(c, sh, now, scanned[1..], key);
    }
  }

  /** The first shard from `i` on, other than home, that has keys; or none. */
  ghost function FirstOther<V>(shards: seq<Shard<V>>, home: nat, i: nat): (j: nat)
    requires i <= |shards|
    ensures i <= j <= |shards| && (j < |shards| ==> j != home && shards[j].order != [])
    ensures forall k :: i <= k < j && k != home ==> shards[k].order == []
    decreases |shards| - i
  {
    if i == |shards| || (i != home && shards[i].order != []) then i else FirstOther(shards, home, i + 1)
  }

  lemma {:induction false} FirstOtherBefore<V>(shards: seq<Shard<V>>, home: nat, i: nat, k: nat)
    requires i <= k < |shards| && k != home && shards[k].order != []
    ensures FirstOther(shards, home, i) <= k
    decreases k - i
  {
    if i < k {
      FirstOtherBefore(shards, home, i + 1, k);
    }
  }

  /** What a call loses, on the flat map. */
  lemma {:induction false} MayLoseFlat<S>(c: Config<S>, shards: seq<Shard<S>>, key: Key, now: int, dropped: set<Key>,
                                          evicted: set<Key>)
    requires c.Valid() && |shards| == c.shardCount && AllHomes(c, shards)
    requires MayDrop(c, Flatten(shards), Call(key, now), dropped)
    requires Evicted(c, shards, c.hash(key), dropped, evicted)
    requires evicted != {} ==> c.policy == EvictLRU && key !in Flatten(shards)
                               && |Flatten(shards) - dropped| == c.maxKeys > 0
    ensures MayLose(c, Flatten(shards), Call(key, now), dropped + evicted)
  {
    hide AllHomes, Oldest, Flatten, MayDrop;
    if evicted != {} {
      var e: Key :| evicted == {e} && Oldest(c, shards, c.hash(key), dropped, e);
      EvictedStored(c, shards, c.hash(key), dropped, e);
      FlattenAt(c, shards, e);
    }
  }

  /** If the store has keys and the home shard none, some other shard has. */
  lemma OtherHasKeys<S, V>(c: Config<S>, shards: seq<Shard<V>>, home: nat) returns (i: nat)
    requires AllHomes(c, shards) && c.policy == EvictLRU && home < |shards| && shards[home].order == []
    requires Stored(shards) > 0
    ensures i < |shards| && i != home && shards[i].order != []
  {
    hide Stored;
    i := SomeShardHasKeys(shards);
    assert Homes(c, home, shards[home]) && Homes(c, i, shards[i]);
    var k :| k in shards[i].items.Keys;
    assert k in shards[i].order;
  }

  lemma {:induction false} PlacedEntry<S>(c: Config<S>, before: seq<Shard<S>>, after: seq<Shard<S>>, home: nat,
                                          key: Key, now: int, gone: set<Key>)
    requires home < |before|
    requires var value := if key in before[home].items then before[home].items[key].value else c.alg.create(now);
             Placed(c, before, after, home, key, Entry(value, now), gone)
    ensures |after| == |before| && key in after[home].items && after[home].items[key].lastSeen == now
    ensures after[home].items[key].value
         == if key in before[home].items then before[home].items[key].value else c.alg.create(now)
    ensures after[home].order == ToFront(c.policy, WithoutAll(before[home].order, gone), key)
  {
    hide ToFront, WithoutAll;
  }

  /** All that the run of the decision function does to the store. */
  lemma {:induction false} ServedSummary<S>(c: Config<S>, before: seq<Shard<S>>, placed: seq<Shard<S>>,
                                            after: seq<Shard<S>>, key: Key, now: int, value: S, dropped: set<Key>,
                                            evicted: set<Key>, stamp: map<Key, nat>, accesses: nat)
    requires c.Valid() && |before| == |placed| == c.shardCount && AllHomes(c, before) && AllHomes(c, placed)
    requires key !in dropped + evicted && (c.maxKeys > 0 ==> Stored(placed) <= c.maxKeys)
    requires var items := before[c.hash(key)].items;
             value == if key in items then items[key].value else c.alg.create(now)
    requires Placed(c, before, placed, c.hash(key), key, Entry(value, now), dropped + evicted)
    requires key in placed[c.hash(key)].items && placed[c.hash(key)].items[key] == Entry(value, now)
    requires after == placed[c.hash(key) := placed[c.hash(key)].(items :=
               placed[c.hash(key)].items[key := Entry(c.alg.decide(value, now).0, now)])]
    requires c.policy == EvictLRU ==> ByRecency(before, stamp, accesses)
    requires Evicted(c, before, c.hash(key), dropped, evicted)
    requires evicted != {} ==>
               c.policy == EvictLRU && key !in before[c.hash(key)].items && 0 < c.maxKeys == Stored(placed)
    ensures AllHomes(c, after) && Stored(after) == Stored(placed)
    ensures Serve(c, Flatten(before), Call(key, now), dropped + evicted)
            == (Flatten(after), Ok(c.alg.decide(value, now).1))
    ensures evicted != {} ==> key !in Flatten(before) && |Flatten(before) - dropped| == c.maxKeys
    ensures c.policy == EvictLRU ==> ByRecency(after, stamp[key := accesses], accesses + 1)
  {
    hide AllHomes, Flatten, Stored, ByRecency, Evicted, Serve, Placed;
    ReplaceKeeps(c, placed, c.hash(key), key, c.alg.decide(value, now).0);
    ServedFlat(c, before, placed, after, key, now, dropped + evicted, value);
    FlattenAt(c, before, key);
    if evicted != {} {
      EvictedSize(c, before, c.hash(key), key, dropped, evicted);
    }
    RecencyServed(c, before, placed, after, key, Entry(value, now), dropped + evicted, stamp, accesses);
  }
}
