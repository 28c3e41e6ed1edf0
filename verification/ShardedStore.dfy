/** The sharded key store run by one caller at a time (memory/sharded_store.go), updated
    in place as the library does, and proved against the flat map and the exact LRU cache.
    Without other callers a compare-and-swap succeeds and a key looked up again after
    reserving a slot is still absent; module Protocol has the concurrent store. */
module ShardedStore {
  import opened Limiter
  import opened Laws
  import opened Shards
  import opened FlatStore
  import opened StoreView
  import opened StoreLemmas
  import opened CacheRefinement
  import LruCache
  import SmallStores

  class Store<S(!new)> {
    const c: Config<S>
    var shards: seq<Shard<S>>
    var live: int
    var evicts: nat
    var lastSweep: Option<int>
    ghost var stamp: map<Key, nat>  // when each key was last accessed
    ghost var accesses: nat

    /** The store as one map. */
    ghost function Map(): Flat<S>
      reads this
    {
      Flatten(shards)
    }

    /** The counter is exact but for `reserved` slots, and within the cap. */
    ghost predicate Good(reserved: nat)
      reads this
    {
      && c.Valid() && |shards| == c.shardCount && AllHomes(c, shards)
      && live == Stored(shards) + reserved
      && (c.maxKeys > 0 ==> live <= c.maxKeys)
    }

    ghost predicate Valid()
      reads this
    {
      Good(0) && (c.policy == EvictLRU ==> ByRecency(shards, stamp, accesses))
    }

    constructor (c: Config<S>)
      requires c.Valid()
      ensures this.c == c && Valid() && Map() == map[] && evicts == 0
      ensures forall i :: 0 <= i < |shards| ==> shards[i].items == map[] && shards[i].order == []
    {
      this.c := c;
      var empty: Shard<S> := Shard(map[], [], None);
      shards := seq(c.shardCount, i => empty);
      live := 0;
      evicts := 0;
      lastSweep := None;
      stamp := map[];
      accesses := 0;
      new;
      NothingThere(shards);
    }

    /** Run the decision function on the state of `key`, creating it if need be. In terms
        of the flat map: some expired keys and at most one evicted key go, then the
        request is served, or turned away when the key is new and there is no room. */
    method WithState(key: Key, now: int) returns (out: Outcome, ghost dropped: set<Key>, ghost evicted: set<Key>)
      requires Valid()
      modifies this
      ensures Valid()
      ensures (Map(), out) == Serve(c, old(Map()), Call(key, now), dropped + evicted)
      ensures MayDrop(c, old(Map()), Call(key, now), dropped)
      ensures Evicted(c, old(shards), c.hash(key), dropped, evicted)
      ensures evicted != {} ==> c.policy == EvictLRU && key !in old(Map()) && |old(Map()) - dropped| == c.maxKeys > 0
      ensures c.policy == EvictLRU ==> out.Ok?
      ensures out.Ok? ==>
        shards[c.hash(key)].order
        == ToFront(c.policy, WithoutAll(old(shards[c.hash(key)].order), dropped + evicted), key)
      ensures evicts == old(evicts) + |evicted|
      ensures Drops(c, old(shards), shards, old(lastSweep), lastSweep, key, now, dropped)
      ensures out.Ok? ==> stamp == old(stamp)[key := old(accesses)] && accesses == old(accesses) + 1
    {
      hide AllHomes, Flatten, Stored, WithoutAll, ToFront, ByRecency, Evicted, AllExpired, MayDrop, Serve;
      hide Lost, Placed, Drops;
      var home := c.hash(key);
      ghost var before := shards;
      var ok: bool;
      ok, dropped, evicted := GetOrCreate(home, key, now);
      MayDropFlat(c, before, key, now, dropped);
      if !ok {
        RejectedFlat(c, before, shards, key, now, dropped);
        assert dropped + evicted == dropped;
        out := MaxKeysExceeded;
        return;
      }
      ghost var placed := shards;
      PlacedEntry(c, before, placed, home, key, now, dropped + evicted);
      var entry := shards[home].items[key];
      var (value, result) := c.alg.decide(entry.value, now);
      var sh := shards[home];
      shards := shards[home := sh.(items := sh.items[key := entry.(value := value)])];
      stamp, accesses := stamp[key := accesses], accesses + 1;
      out := Ok(result);
      ReplaceIsLater(placed, home, key, value, now);
      DropsLater(c, before, placed, shards, old(lastSweep), lastSweep, key, now, dropped);
      ServedSummary(c, before, placed, shards, key, now, entry.value, dropped, evicted, old(stamp), old(accesses));
    }

    ghost function Now(): Snapshot<S>
      reads this
    {
      Snapshot(shards, lastSweep)
    }

    /** Any sequence of calls: the answers are those of one flat map that on each call loses
        the expired keys it has to drop and, under EvictLRU when a new key finds it full, one
        more; under EvictReject without a TTL, of one that loses none. */
    method ServeCalls(calls: seq<Call>)
      returns (outs: seq<Outcome>, ghost gone: seq<set<Key>>, ghost trace: seq<Snapshot<S>>)
      requires Valid()
      modifies this
      ensures Valid() && |gone| == |outs| == |calls| && outs == ServeAll(c, old(Map()), calls, gone)
      ensures MayLoseAll(c, old(Map()), calls, gone)
      ensures |trace| == |calls| + 1 && trace[0] == old(Now()) && trace[|calls|] == Now()
      ensures forall i :: 0 <= i < |calls| ==> Stepped(c, trace[i], trace[i + 1], calls[i], gone[i], outs[i])
      ensures c.policy == EvictReject && !c.CleanupEnabled() ==> gone == NoDrops(|calls|)
      ensures c.policy == EvictLRU ==> forall i :: 0 <= i < |outs| ==> outs[i].Ok?
      decreases |calls|
    {
      hide Serve, Evicted, ByRecency, MayDrop, MayLose, WithoutAll, ToFront, Flatten, AllHomes, Stored, Drops;
      if calls == [] {
        return [], [], [Now()];
      }
      ghost var before := Now();
      var out, dropped, evicted := WithState(calls[0].key, calls[0].now);
      MayLoseFlat(c, before.shards, calls[0].key, calls[0].now, dropped, evicted);
      assert Call(calls[0].key, calls[0].now) == calls[0];
      assert Stepped(c, before, Now(), calls[0], dropped + evicted, out);
      hide Stepped;
      var rest: seq<Outcome>;
      rest, gone, trace := ServeCalls(calls[1..]);
      outs, gone, trace := [out] + rest, [dropped + evicted] + gone, [before] + trace;
      if c.policy == EvictReject && !c.CleanupEnabled() {
        LosesOnlyExpired(c, Flatten(before.shards), calls, gone);
        OnlyEmptyDrops(c, Flatten(before.shards), calls, gone);
      }
    }

    /** Without a cap every key is on its own: whatever the shard count, hash function,
        policy and other keys, and with a TTL whatever each cleanup drops, the answers for a
        key are those of a limiter that only ever saw that key and never dropped it. */
    method ServeUncapped(calls: seq<Call>, ghost fit: (S, int) -> bool) returns (outs: seq<Outcome>)
      requires Valid() && Map() == map[] && c.maxKeys == 0
      requires c.CleanupEnabled() ==> Fits(c.alg, fit) && Forgets(c.alg, fit, c.keyTTL) && Ordered(calls)
      modifies this
      ensures Valid() && |outs| == |calls|
      ensures forall key: Key :: OutcomesOf(calls, outs, key) == Served(KeyResults(c.alg, TimesOf(calls, key)))
    {
      hide Valid, Map, Fits, Forgets, Ordered, ServeAll, MayDropAll, MayLoseAll, OutcomesOf, Served;
      ghost var gone: seq<set<Key>>;
      ghost var trace: seq<Snapshot<S>>;
      outs, gone, trace := ServeCalls(calls);
      LosesOnlyExpired(c, map[], calls, gone);
      if c.CleanupEnabled() {
        CleanupInvisibleFromEmpty(c, fit, calls, gone);
      } else {
        OnlyEmptyDrops(c, map[], calls, gone);
      }
      forall key: Key
        ensures |outs| == |calls| && OutcomesOf(calls, outs, key) == Served(KeyResults(c.alg, TimesOf(calls, key)))
      {
        IsolatedFromEmpty(c, calls, key);
      }
      ServeAllLength(c, map[], calls, gone);
    }

    /** Without evictions, and as long as no shard outgrows a batch, TTL and cap leave nothing
        open: every sequence of calls is answered as SmallStores says. */
    method ServeExactly(calls: seq<Call>) returns (outs: seq<Outcome>)
      requires Valid() && (c.policy == EvictReject || c.maxKeys == 0)
      requires SmallStores.StaysSmall(c, Map(), calls)
      modifies this
      ensures Valid() && outs == SmallStores.Answers(c, SmallStores.View(old(Now())), calls)
    {
      hide Serve, ByRecency, Flatten, AllHomes, Stored, MayLoseAll, Stepped;
      hide SmallStores.StaysSmall, SmallStores.Answers;
      ghost var before := shards;
      ghost var gone: seq<set<Key>>, trace: seq<Snapshot<S>>;
      outs, gone, trace := ServeCalls(calls);
      SmallStores.RunIsExact(c, trace, calls, gone, outs);
    }

    /** The list and the states of a store with a single shard. */
    ghost function View(): LruCache.Cache<S>
      requires Good(0)
      reads this
    {
      CacheOf(shards[0])
    }

    /** EvictLRU with one shard and no TTL answers every sequence of calls as the exact LRU
        cache does, and holds what it holds. */
    method ServeCached(calls: seq<Call>) returns (rs: seq<Result>)
      requires Valid() && c.shardCount == 1 && c.policy == EvictLRU && !c.CleanupEnabled()
      modifies this
      ensures Valid() && View() == LruCache.AfterAll(c.alg, c.maxKeys, old(View()), calls)
      ensures rs == LruCache.AnswersAll(c.alg, c.maxKeys, old(View()), calls)
    {
      hide Serve, Evicted, ByRecency, MayDrop, WithoutAll, ToFront, Flatten, AllHomes, Stored, LruCache.Request;
      rs := [];
      ghost var start := View();
      for n := 0 to |calls|
        invariant Valid() && View() == LruCache.AfterAll(c.alg, c.maxKeys, start, calls[..n])
        invariant rs == LruCache.AnswersAll(c.alg, c.maxKeys, start, calls[..n])
      {
        ghost var before := shards;
        var out, dropped, evicted := WithState(calls[n].key, calls[n].now);
        NothingDropped(c, Flatten(before), calls[n], dropped);
        assert dropped + evicted == evicted;
        CacheStep(c, before, shards, calls[n], evicted, out);
        rs := rs + [out.result];
        assert calls[..n + 1][..n] == calls[..n] && calls[..n + 1][n] == calls[n];
      }
      assert calls[..|calls|] == calls;
    }

    /** getOrCreateMap and getOrCreateLRU, which differ in the list only. */
    method GetOrCreate(home: nat, key: Key, now: int)
      returns (ok: bool, ghost dropped: set<Key>, ghost evicted: set<Key>)
      requires Good(0) && home == c.hash(key)
      modifies this`shards, this`live, this`lastSweep, this`evicts
      ensures Good(0) && AllExpired(c, old(shards), now, dropped) && (!c.CleanupEnabled() ==> dropped == {})
      ensures key !in dropped + evicted && Evicted(c, old(shards), home, dropped, evicted)
      ensures ok ==>
        var value := if key in old(shards[home].items) then old(shards[home].items)[key].value else c.alg.create(now);
        Placed(c, old(shards), shards, home, key, Entry(value, now), dropped + evicted)
      ensures !ok ==> c.policy == EvictReject && evicted == {} && Lost(old(shards), shards, dropped)
                      && key !in old(shards[home].items) && 0 < c.maxKeys <= live
      ensures evicted != {} ==> c.policy == EvictLRU && key !in old(shards[home].items) && 0 < c.maxKeys == live
      ensures evicts == old(evicts) + |evicted|
      ensures Drops(c, old(shards), shards, old(lastSweep), lastSweep, key, now, dropped)
    {
      hide AllHomes, Stored, WithoutAll, ToFront, Homes, Evicted, AllExpired, WellFormed, Placed, Lost;
      hide Drops, RoomDrops, CleanedUp, CleanupDue, Touch, Insert;
      ghost var before := shards;
      if key in shards[home].items {
        TouchHomes(c, shards, home, key, now);
        shards := shards[home := Touch(c.policy, shards[home], key, now)];
        dropped := Cleanup(home, now);
        evicted := {};
        TouchExpired(c, before, home, key, now, dropped);
        NoneEvicted(c, before, home, dropped);
        assert dropped + evicted == dropped;
        PlacedByTouch(c, before, shards, home, key, now, dropped);
        HitDrops(c, before, shards, lastSweep, key, now, dropped);
        ok := true;
        return;
      }
      dropped := Cleanup(home, now);
      ghost var mid := shards;
      ghost var more: set<Key>;
      ok, more, evicted := ReserveSlot(home, now);
      LostLength(before, mid, dropped);
      ReserveSummary(c, before, mid, shards, home, now, dropped, more, evicted);
      LostIsLater(mid, shards, more + evicted, now);
      MissDrops(c, before, mid, shards, old(lastSweep), lastSweep, key, now, dropped, more);
      dropped := dropped + more;
      AbsentStaysAbsent(c, before, home, key, now, dropped, evicted);
      if !ok {
        assert dropped + evicted == dropped;
        return;
      }
      ghost var free := shards;
      LostAbsent(before, free, dropped + evicted, home, key);  // so the re-check finds nothing
      InsertHomes(c, shards, home, key, c.alg.create(now), now);
      shards := shards[home := Insert(c.policy, shards[home], key, c.alg.create(now), now)];
      PlacedByInsert(c, before, free, home, key, c.alg.create(now), now, dropped + evicted);
      InsertIsLater(c, free, home, key, c.alg.create(now), now);
      DropsLater(c, before, free, shards, old(lastSweep), lastSweep, key, now, dropped);
    }

    /** Reserve a slot for a new key, making room if the store is full. */
    method ReserveSlot(home: nat, now: int) returns (ok: bool, ghost dropped: set<Key>, ghost evicted: set<Key>)
      requires Good(0) && home < c.shardCount
      modifies this`shards, this`live, this`lastSweep, this`evicts
      ensures Good(if ok then 1 else 0) && Lost(old(shards), shards, dropped + evicted)
      ensures AllExpired(c, old(shards), now, dropped) && (!c.CleanupEnabled() ==> dropped == {})
      ensures Evicted(c, old(shards), home, dropped, evicted)
      ensures !ok ==> c.policy == EvictReject && evicted == {} && 0 < c.maxKeys <= live
      ensures evicted != {} ==> c.policy == EvictLRU && ok && 0 < c.maxKeys == live
      ensures evicts == old(evicts) + |evicted|
      ensures RoomDrops(c, old(shards), shards, old(lastSweep), lastSweep, home, now,
                        0 < c.maxKeys <= old(live), dropped)
    {
      hide AllHomes, Stored, WithoutAll, Homes, Evicted, AllExpired, WellFormed, Lost, Sweeps;
      dropped, evicted := {}, {};
      ghost var before := shards;
      LostNone(before, shards);
      NoneEvicted(c, before, home, {});
      NoneExpired(c, before, now);
      assert dropped + evicted == {};
      if c.maxKeys == 0 {
        live := live + 1;
        ok := true;
        return;
      }
      var swept := false;
      ghost var tried := false;
      while true
        invariant Good(0) && Lost(before, shards, dropped + evicted)
        invariant AllExpired(c, before, now, dropped) && (!c.CleanupEnabled() ==> dropped == {})
        invariant Evicted(c, before, home, dropped, evicted)
        invariant evicted != {} ==> c.policy == EvictLRU && live == c.maxKeys - 1
        invariant evicts == old(evicts) + |evicted|
        invariant !tried ==> !swept && dropped == evicted == {} && live == old(live)
        invariant !tried ==> shards == before && lastSweep == old(lastSweep)
        invariant tried ==> RoomDrops(c, before, shards, old(lastSweep), lastSweep, home, now, true, dropped)
        invariant tried ==> c.maxKeys <= old(live) && if c.policy == EvictLRU then live < c.maxKeys else swept
        decreases c.maxKeys <= live, !swept
      {
        var n := live;
        if n < c.maxKeys {
          live := n + 1;
          ok := true;
          return;
        }
        assert dropped + evicted == dropped;
        if c.policy == EvictLRU {
          tried := true;
          dropped, evicted, swept := MakeRoom(home, now, swept);
          continue;
        }
        if !swept {
          swept, tried := true, true;
          dropped := SweepExpired(now);
          NoneEvicted(c, before, home, dropped);
          assert dropped + evicted == dropped;
          continue;
        }
        ok := false;
        return;
      }
    }

    /** The EvictLRU part of a round of reserveSlot on a full store: evict at home, or, if
        home is empty, sweep once and then evict elsewhere. Room is made in any case. */
    method MakeRoom(home: nat, now: int, swept: bool)
      returns (ghost dropped: set<Key>, ghost evicted: set<Key>, swept': bool)
      requires Good(0) && home < c.shardCount && c.policy == EvictLRU && 0 < c.maxKeys <= live
      modifies this`shards, this`live, this`lastSweep, this`evicts
      ensures Good(0) && live < c.maxKeys && Lost(old(shards), shards, dropped + evicted)
      ensures AllExpired(c, old(shards), now, dropped) && (!c.CleanupEnabled() ==> dropped == {})
      ensures Evicted(c, old(shards), home, dropped, evicted)
      ensures evicted != {} ==> live == c.maxKeys - 1
      ensures evicts == old(evicts) + |evicted|
      ensures swept' <==> swept || old(shards[home].order) == []
      ensures RoomDrops(c, old(shards), shards, old(lastSweep), lastSweep, home, now, !swept, dropped)
    {
      hide AllHomes, Stored, WithoutAll, Homes, Evicted, AllExpired, WellFormed, Lost, Sweeps;
      dropped, swept' := {}, swept;
      ghost var before := shards;
      LostNone(before, shards);
      NoneExpired(c, before, now);
      if shards[home].order != [] {
        LastIsOldest(c, shards, home, home);
      }
      var gone: bool;
      gone, evicted := EvictFrom(home);
      assert dropped + evicted == evicted;
      if gone {
        return;
      }
      if !swept {
        swept' := true;
        dropped := SweepExpired(now);
        EmptyStaysEmpty(before, shards, dropped, home);
      }
      ghost var mid := shards;
      NoneEvicted(c, before, home, dropped);
      assert dropped + evicted == dropped;
      if live >= c.maxKeys {
        ghost var full := OtherHasKeys(c, shards, home);
        FirstOtherBefore(shards, home, 0, full);
        LastIsOldest(c, shards, FirstOther(shards, home, 0), home);
        evicted := EvictAnyOther(home);
        EvictionSummary(c, before, mid, shards, home, dropped, evicted);
        LostIsLater(mid, shards, evicted, now);
        if !swept {
          SweepsLater(c, before, mid, shards, old(lastSweep), lastSweep, now, dropped);
        }
      }
    }

    /** Scan every shard for expired keys, at most once per cleanup interval. */
    method SweepExpired(now: int) returns (ghost gone: set<Key>)
      requires Good(0)
      modifies this`shards, this`live, this`lastSweep
      ensures Good(0) && Lost(old(shards), shards, gone) && live <= old(live)
      ensures AllExpired(c, old(shards), now, gone) && (!c.CleanupEnabled() ==> gone == {})
      ensures Sweeps(c, old(shards), shards, old(lastSweep), lastSweep, now, gone)
    {
      hide AllHomes, Stored, WithoutAll, Homes, AllExpired, WellFormed, Lost, SweptShard, CleanedUp;
      gone := {};
      ghost var before := shards;
      LostNone(before, shards);
      NoneExpired(c, before, now);
      if !CleanupDue(c, lastSweep, now) {
        return;
      }
      lastSweep := Some(now);
      for i := 0 to c.shardCount
        invariant Good(0) && Lost(before, shards, gone) && AllExpired(c, before, now, gone) && live <= old(live)
        invariant lastSweep == Some(now)
        invariant SweptUpTo(c, before, shards, now, gone, i)
      {
        ghost var start := shards;
        ghost var more := Cleanup(i, now);
        SweptNext(c, before, start, shards, now, gone, i, more);
        LostCompose(before, start, shards, gone, more);
        ExpiredCompose(c, before, start, now, gone, more);
        gone := gone + more;
      }
    }

    /** Evict the oldest key of the first other shard that has one, if there is such a shard. */
    method EvictAnyOther(home: nat) returns (ghost gone: set<Key>)
      requires Good(0) && home < c.shardCount && c.policy == EvictLRU
      modifies this`shards, this`live, this`evicts
      ensures var i := FirstOther(old(shards), home, 0);
              if i == c.shardCount then unchanged(this) && gone == {}
              else && gone == {old(shards)[i].order[|old(shards)[i].order| - 1]}
                   && Good(0) && Lost(old(shards), shards, gone) && SameMarks(old(shards), shards)
                   && live == old(live) - 1 && evicts == old(evicts) + 1
    {
      hide AllHomes, Stored, WithoutAll, Homes, WellFormed, Lost;
      for i := 0 to c.shardCount
        invariant unchanged(this) && FirstOther(shards, home, 0) == FirstOther(shards, home, i)
      {
        if i != home {
          var evicted: bool;
          evicted, gone := EvictFrom(i);
          if evicted {
            return;
          }
        }
      }
      gone := {};
    }

    /** Evict the oldest key of shard `i`, if it has one, and release its slot. */
    method EvictFrom(i: nat) returns (ok: bool, ghost gone: set<Key>)
      requires Good(0) && i < c.shardCount && c.policy == EvictLRU
      modifies this`shards, this`live, this`evicts
      ensures ok <==> old(shards[i].order) != []
      ensures !ok ==> unchanged(this) && gone == {}
      ensures ok ==> gone == {old(shards[i].order)[|old(shards[i].order)| - 1]}
      ensures ok ==> Good(0) && Lost(old(shards), shards, gone) && SameMarks(old(shards), shards)
      ensures ok ==> live == old(live) - 1 && evicts == old(evicts) + 1
    {
      hide AllHomes, Stored, WithoutAll, Homes, WellFormed, Lost;
      var order := shards[i].order;
      if order == [] {
        return false, {};
      }
      var key := order[|order| - 1];
      LastIsOldest(c, shards, i, i);
      RemoveHomes(c, shards, i, key);
      LostOne(c, shards, i, key);
      shards := shards[i := Remove(shards[i], key)];
      live := live - 1;
      evicts := evicts + 1;
      return true, {key};
    }

    /** Drop expired keys of one shard, at most once per cleanup interval. */
    method Cleanup(i: nat, now: int) returns (ghost gone: set<Key>)
      requires Good(0) && i < c.shardCount
      modifies this`shards, this`live
      ensures Good(0) && Lost(old(shards), shards, gone) && live == old(live) - |gone|
      ensures AllExpired(c, old(shards), now, gone) && (!c.CleanupEnabled() ==> gone == {})
      ensures CleanedUp(c, old(shards), shards, i, now, gone)
    {
      hide AllHomes, Stored, WithoutAll, Homes, AllExpired, WellFormed, Lost, ExpiredOf, Scan;
      ghost var before := shards;
      if !CleanupDue(c, shards[i].lastCleanup, now) {
        LostNone(before, shards);
        NoneExpired(c, before, now);
        return {};
      }
      MarkCleaned(c, shards, i, now);
      shards := shards[i := shards[i].(lastCleanup := Some(now))];
      LostNone(before, shards);
      ghost var marked := shards;
      var expired: seq<Key>;
      ghost var scanned: seq<Key>;
      if c.policy == EvictLRU {
        expired, scanned := ScanList(i, now);
      } else {
        expired, scanned := ScanMap(i, now);
      }
      ExpiredOfMembers(c, shards[i], now, scanned);
      gone := RemoveBatch(i, expired);
      BatchExpired(c, before, i, now, gone, expired);
      SameBatch(c, before[i], marked[i], now, scanned);
      LostCompose(before, marked, shards, {}, gone);
      assert {} + gone == gone;
    }

    /** cleanupMap: look at up to a batch of keys, in no particular order. */
    method ScanMap(i: nat, now: int) returns (expired: seq<Key>, ghost scanned: seq<Key>)
      requires i < |shards|
      ensures Scan(EvictReject, shards[i], scanned) && expired == ExpiredOf(c, shards[i], now, scanned)
    {
      hide ExpiredOf, Expired;
      expired, scanned := [], [];
      NothingScanned(c, shards[i], now);
      var rest, count := shards[i].items.Keys, 0;
      while rest != {} && count < CLEANUP_BATCH_SIZE
        invariant rest <= shards[i].items.Keys && |rest| + count == |shards[i].items.Keys|
        invariant |scanned| == count <= CLEANUP_BATCH_SIZE && NoDup(scanned)
        invariant forall k :: k in scanned ==> k in shards[i].items && k !in rest
        invariant expired == ExpiredOf(c, shards[i], now, scanned)
        decreases rest
      {
        var key :| key in rest;
        rest := rest - {key};
        count := count + 1;
        ScannedOne(c, shards[i], now, scanned, key);
        if now - shards[i].items[key].lastSeen >= c.keyTTL {
          expired := expired + [key];
        }
        scanned := scanned + [key];
      }
    }

    /** cleanupLRU: look at up to a batch of keys, the newest first. */
    method ScanList(i: nat, now: int) returns (expired: seq<Key>, ghost scanned: seq<Key>)
      requires i < |shards| && forall k :: k in shards[i].order ==> k in shards[i].items
      ensures Scan(EvictLRU, shards[i], scanned) && expired == ExpiredOf(c, shards[i], now, scanned)
    {
      hide ExpiredOf, Expired;
      expired := [];
      NothingScanned(c, shards[i], now);
      var order, count := shards[i].order, 0;
      while count < |order| && count < CLEANUP_BATCH_SIZE
        invariant 0 <= count <= |order| && count <= CLEANUP_BATCH_SIZE
        invariant expired == ExpiredOf(c, shards[i], now, order[..count])
      {
        var key := order[count];
        ScannedOne(c, shards[i], now, order[..count], key);
        assert order[..count + 1] == order[..count] + [key];
        count := count + 1;
        if now - shards[i].items[key].lastSeen >= c.keyTTL {
          expired := expired + [key];
        }
      }
      scanned := order[..count];
      assert count == |order| ==> scanned == order;
    }

    /** Delete the keys of a batch that are still stored, each with its slot. */
    method RemoveBatch(i: nat, expired: seq<Key>) returns (ghost gone: set<Key>)
      requires Good(0) && i < c.shardCount && forall k :: k in expired ==> k in shards[i].items
      modifies this`shards, this`live
      ensures Good(0) && Lost(old(shards), shards, gone) && live == old(live) - |gone|
      ensures forall k :: k in gone <==> k in expired
      ensures shards[i].lastCleanup == old(shards[i].lastCleanup)
      ensures forall j :: 0 <= j < |shards| && j != i ==> shards[j] == old(shards[j])
    {
      hide AllHomes, Stored, WithoutAll, Homes, WellFormed, Lost;
      gone := {};
      ghost var before := shards;
      LostNone(before, shards);
      for n := 0 to |expired|
        invariant Good(0) && Lost(before, shards, gone) && live == old(live) - |gone|
        invariant forall k :: k in gone <==> k in expired[..n]
        invariant shards[i].lastCleanup == before[i].lastCleanup
        invariant forall j :: 0 <= j < |shards| && j != i ==> shards[j] == before[j]
      {
        var key := expired[n];
        ghost var start := shards;
        if key in shards[i].items {
          RemoveHomes(c, shards, i, key);
          LostOne(c, shards, i, key);
          StillThere(before, start, gone, i, key);
          shards := shards[i := Remove(shards[i], key)];
          live := live - 1;
          LostCompose(before, start, shards, gone, {key});
          gone := gone + {key};
        } else {
          LostAlready(before, start, gone, i, key);
        }
      }
    }
  }

  /** Sharding is unobservable under EvictReject without a TTL: two stores with the same
      algorithm, cap and contents answer every sequence of calls alike, however many shards
      each has and whatever its hash function. */
  method ServeBoth<S(!new)>(a: Store<S>, b: Store<S>, calls: seq<Call>) returns (x: seq<Outcome>, y: seq<Outcome>)
    requires a != b && a.Valid() && b.Valid() && a.Map() == b.Map()
    requires a.c.policy == b.c.policy == EvictReject && !a.c.CleanupEnabled() && !b.c.CleanupEnabled()
    requires a.c.alg == b.c.alg && a.c.maxKeys == b.c.maxKeys
    modifies a, b
    ensures a.Valid() && b.Valid()
    ensures x == y == ServeAll(a.c, old(a.Map()), calls, NoDrops(|calls|))
  {
    hide ServeAll, MayLoseAll;
    ghost var m := a.Map();
    ghost var none: seq<set<Key>>;
    ghost var trace: seq<Snapshot<S>>;
    x, none, trace := a.ServeCalls(calls);
    y, none, trace := b.ServeCalls(calls);
    SameFlat(a.c, b.c, m, calls, NoDrops(|calls|));
  }
}
