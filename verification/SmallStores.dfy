/** What a store with a TTL and a cap answers while a cleanup covers a whole shard and nothing
    is evicted: no lists, batches or scans, just one map and when each shard was cleaned up. */
module SmallStores {
  import opened Limiter
  import opened Shards
  import opened FlatStore
  import opened StoreView
  import opened StoreLemmas

  datatype Small<S> = Small(m: Flat<S>, marks: seq<Option<int>>, lastSweep: Option<int>)

  ghost function View<S>(a: Snapshot<S>): Small<S> {
    Small(Flatten(a.shards), Marks(a.shards), a.lastSweep)
  }

  function Marks<S>(shards: seq<Shard<S>>): seq<Option<int>> {
    seq(|shards|, i requires 0 <= i < |shards| => shards[i].lastCleanup)
  }

  /** The expired keys a cleanup of every due shard would drop during `call`. */
  function Idle<S>(c: Config<S>, a: Small<S>, call: Call): set<Key>
    requires forall k: Key :: c.hash(k) < |a.marks|
  {
    set k | k in a.m && k != call.key && Expired(c, a.m[k], call.now) && CleanupDue(c, a.marks[c.hash(k)], call.now)
  }

  /** Those of them that live in the shard of the call's key. */
  function IdleAtHome<S>(c: Config<S>, a: Small<S>, call: Call): set<Key>
    requires forall k: Key :: c.hash(k) < |a.marks|
  {
    set k | k in Idle(c, a, call) && c.hash(k) == c.hash(call.key)
  }

  /** The key is new, the map is full without the idle keys of its shard, and a sweep is due. */
  predicate Sweeping<S>(c: Config<S>, a: Small<S>, call: Call)
    requires forall k: Key :: c.hash(k) < |a.marks|
  {
    && call.key !in a.m && 0 < c.maxKeys <= |a.m| - |IdleAtHome(c, a, call)|
    && CleanupDue(c, a.lastSweep, call.now)
  }

  function Next<S>(c: Config<S>, a: Small<S>, call: Call): (Small<S>, Outcome)
    requires forall k: Key :: c.hash(k) < |a.marks|
  {
    var sweep := Sweeping(c, a, call);
    var (m, out) := Serve(c, a.m, call, if sweep then Idle(c, a, call) else IdleAtHome(c, a, call));
    var marks := seq(|a.marks|, i requires 0 <= i < |a.marks| =>
      if (sweep || i == c.hash(call.key)) && CleanupDue(c, a.marks[i], call.now) then Some(call.now) else a.marks[i]);
    (Small(m, marks, if sweep then Some(call.now) else a.lastSweep), out)
  }

  function Answers<S>(c: Config<S>, a: Small<S>, calls: seq<Call>): seq<Outcome>
    requires forall k: Key :: c.hash(k) < |a.marks|
    decreases |calls|
  {
    if calls == [] then [] else
    var (b, out) := Next(c, a, calls[0]);
    [out] + Answers(c, b, calls[1..])
  }

  function KeysIn(calls: seq<Call>): set<Key> { set i | 0 <= i < |calls| :: calls[i].key }

  /** There never are more keys than a cleanup looks at. */
  ghost predicate StaysSmall<S>(c: Config<S>, m: Flat<S>, calls: seq<Call>) {
    0 < c.maxKeys <= CLEANUP_BATCH_SIZE || |m.Keys + KeysIn(calls)| <= CLEANUP_BATCH_SIZE
  }

  lemma {:induction false} PartOfStored<V>(shards: seq<Shard<V>>, i: nat)
    requires i < |shards|
    ensures |shards[i].items| <= Stored(shards)
    decreases |shards|
  {
    var n := |shards| - 1;
    if i < n {
      PartOfStored(shards[..n], i);
    }
  }

  lemma SeenKeeps<S>(c: Config<S>, sh: Shard<S>, key: Key, now: int)
    requires WellFormed(c.policy, sh)
    ensures WellFormed(c.policy, Seen(c, sh, key, now))
    ensures Seen(c, sh, key, now).items.Keys == sh.items.Keys && |Seen(c, sh, key, now).items| == |sh.items|
    ensures Seen(c, sh, key, now).lastCleanup == sh.lastCleanup
    ensures forall k :: k in sh.items && k != key ==> Seen(c, sh, key, now).items[k] == sh.items[k]
    ensures key in sh.items ==> Seen(c, sh, key, now).items[key].lastSeen == now
  {
    hide WellFormed, ToFront;
    if key in sh.items {
      TouchKeeps(c.policy, sh, key, now);
    }
    assert |Seen(c, sh, key, now).items.Keys| == |sh.items.Keys|;
  }

  /** A cleanup of a small shard takes its idle keys. */
  lemma {:induction false} ShardIdle<S>(c: Config<S>, a: Snapshot<S>, i: nat, call: Call, gone: set<Key>)
    requires Sound(c, a) && Stored(a.shards) <= CLEANUP_BATCH_SIZE && i < c.shardCount
    requires Batch(c, Seen(c, a.shards[i], call.key, call.now), call.now, gone)
    ensures forall k :: k in gone <==> k in Idle(c, View(a), call) && c.hash(k) == i
  {
    hide AllHomes, Flatten, Stored, WellFormed, Seen, Batch;
    var sh, seen := a.shards[i], Seen(c, a.shards[i], call.key, call.now);
    HomesAt(c, a.shards, i);
    SeenKeeps(c, sh, call.key, call.now);
    PartOfStored(a.shards, i);
    BatchMembers(c, seen, call.now, gone);
    if CleanupDue(c, sh.lastCleanup, call.now) {
      BatchTakesAll(c, seen, call.now, gone);
    } else {
      NotDue(c, seen, call.now, gone);
    }
    forall k ensures k in gone <==> k in Idle(c, View(a), call) && c.hash(k) == i {
      FlattenAt(c, a.shards, k);
    }
  }

  lemma NotDue<S>(c: Config<S>, sh: Shard<S>, now: int, gone: set<Key>)
    requires Batch(c, sh, now, gone) && !CleanupDue(c, sh.lastCleanup, now)
    ensures gone == {}
  {}

  /** A call that does not have its key in a shard sees that shard as it is. */
  lemma SeenElsewhere<S>(c: Config<S>, a: Snapshot<S>, i: nat, key: Key, now: int)
    requires Sound(c, a) && i < c.shardCount && i != c.hash(key)
    ensures Seen(c, a.shards[i], key, now) == a.shards[i]
  {
    hide Stored, WellFormed;
    HomesAt(c, a.shards, i);
  }

  /** What a call drops, as the small store says. */
  lemma {:induction false} DropsIdle<S>(c: Config<S>, a: Snapshot<S>, b: Snapshot<S>, call: Call, dropped: set<Key>)
    requires Sound(c, a) && Stored(a.shards) <= CLEANUP_BATCH_SIZE && (c.policy == EvictReject || c.maxKeys == 0)
    requires Drops(c, a.shards, b.shards, a.lastSweep, b.lastSweep, call.key, call.now, dropped)
    ensures OfShard(c, dropped, c.hash(call.key)) == IdleAtHome(c, View(a), call)
    ensures MustSweep(c, a.shards, a.lastSweep, call.key, call.now, OfShard(c, dropped, c.hash(call.key)))
            <==> Sweeping(c, View(a), call)
    ensures dropped == if Sweeping(c, View(a), call) then Idle(c, View(a), call) else IdleAtHome(c, View(a), call)
  {
    hide AllHomes, Flatten, Stored, Seen, Idle, Batch;
    var home := c.hash(call.key);
    ShardIdle(c, a, home, call, OfShard(c, dropped, home));
    FlattenAt(c, a.shards, call.key);
    FlattenCount(c, a.shards);
    var sweep := MustSweep(c, a.shards, a.lastSweep, call.key, call.now, OfShard(c, dropped, home));
    forall i | 0 <= i < c.shardCount && i != home
      ensures if sweep then forall k :: k in OfShard(c, dropped, i) <==> k in Idle(c, View(a), call) && c.hash(k) == i
              else OfShard(c, dropped, i) == {}
    {
      if sweep {
        SeenElsewhere(c, a, i, call.key, call.now);
        ShardIdle(c, a, i, call, OfShard(c, dropped, i));
      }
    }
    hide MustSweep, Sweeping;
    forall k
      ensures k in dropped <==> if sweep then k in Idle(c, View(a), call) else k in IdleAtHome(c, View(a), call)
    {
      assert k in dropped <==> k in OfShard(c, dropped, c.hash(k));
    }
  }

  /** One call of the store is one call of the small store. */
  lemma {:induction false} StepIsExact<S>(c: Config<S>, a: Snapshot<S>, b: Snapshot<S>, call: Call, gone: set<Key>,
                                          out: Outcome)
    requires Stepped(c, a, b, call, gone, out) && Stored(a.shards) <= CLEANUP_BATCH_SIZE
    requires c.policy == EvictReject || c.maxKeys == 0
    ensures (View(b), out) == Next(c, View(a), call)
  {
    hide AllHomes, Flatten, Stored, Serve, Idle, IdleAtHome, Batch, Evicted, CleanupDue, OfShard;
    var dropped: set<Key>, evicted: set<Key> :|
      && gone == dropped + evicted
      && Drops(c, a.shards, b.shards, a.lastSweep, b.lastSweep, call.key, call.now, dropped)
      && (evicted != {} ==> c.policy == EvictLRU && c.maxKeys > 0);
    assert gone == dropped;
    DropsIdle(c, a, b, call, dropped);
    hide Sweeping, MustSweep;
    SeenMark(c, a.shards[c.hash(call.key)], call.key, call.now);
    hide Seen;
    assert View(b).marks == Next(c, View(a), call).0.marks;
  }

  lemma SeenMark<S>(c: Config<S>, sh: Shard<S>, key: Key, now: int)
    ensures Seen(c, sh, key, now).lastCleanup == sh.lastCleanup
  {}

  lemma {:induction false} SmallNow<S>(c: Config<S>, a: Snapshot<S>, calls: seq<Call>)
    requires Sound(c, a) && StaysSmall(c, Flatten(a.shards), calls)
    ensures Stored(a.shards) <= CLEANUP_BATCH_SIZE
  {
    hide AllHomes, Flatten, Stored;
    FlattenCount(c, a.shards);
    var keys := Flatten(a.shards).Keys;
    assert |keys| == |Flatten(a.shards)|;
    Fewer(keys, keys + KeysIn(calls));
  }

  lemma Fewer(x: set<Key>, y: set<Key>)
    requires x <= y
    ensures |x| <= |y|
  {
    assert |y| == |x| + |y - x| by { assert y == x + (y - x); }
  }

  lemma {:induction false} SmallNext<S>(c: Config<S>, m: Flat<S>, calls: seq<Call>, gone: set<Key>)
    requires calls != [] && StaysSmall(c, m, calls)
    ensures StaysSmall(c, Serve(c, m, calls[0], gone).0, calls[1..])
  {
    var m' := Serve(c, m, calls[0], gone).0;
    assert m'.Keys <= m.Keys + {calls[0].key};
    assert calls[0].key in KeysIn(calls);
    assert KeysIn(calls[1..]) <= KeysIn(calls) by {
      forall i | 0 <= i < |calls[1..]| ensures calls[1..][i].key in KeysIn(calls) {
        assert calls[1..][i] == calls[i + 1];
      }
    }
    hide KeysIn, Serve;
    assert m'.Keys + KeysIn(calls[1..]) <= m.Keys + KeysIn(calls);
    Fewer(m'.Keys + KeysIn(calls[1..]), m.Keys + KeysIn(calls));
  }

  /** A run of the store is answered as the small store answers it. */
  lemma {:induction false} RunIsExact<S>(c: Config<S>, trace: seq<Snapshot<S>>, calls: seq<Call>, gone: seq<set<Key>>,
                                         outs: seq<Outcome>)
    requires |trace| == |calls| + 1 && |gone| == |outs| == |calls| && Sound(c, trace[0])
    requires forall i :: 0 <= i < |calls| ==> Stepped(c, trace[i], trace[i + 1], calls[i], gone[i], outs[i])
    requires c.policy == EvictReject || c.maxKeys == 0
    requires StaysSmall(c, Flatten(trace[0].shards), calls)
    ensures outs == Answers(c, View(trace[0]), calls)
    decreases |calls|
  {
    hide AllHomes, Flatten, Stored, Serve, StaysSmall, Stepped, Next;
    if calls != [] {
      assert Stepped(c, trace[0], trace[0 + 1], calls[0], gone[0], outs[0]);
      SmallNow(c, trace[0], calls);
      StepIsExact(c, trace[0], trace[1], calls[0], gone[0], outs[0]);
      SteppedMap(c, trace[0], trace[1], calls[0], gone[0], outs[0]);
      SmallNext(c, Flatten(trace[0].shards), calls, gone[0]);
      RunIsExact(c, trace[1..], calls[1..], gone[1..], outs[1..]);
    }
  }

  lemma SteppedMap<S>(c: Config<S>, a: Snapshot<S>, b: Snapshot<S>, call: Call, gone: set<Key>, out: Outcome)
    requires Stepped(c, a, b, call, gone, out)
    ensures Sound(c, b) && Flatten(b.shards) == Serve(c, Flatten(a.shards), call, gone).0
  {
    hide Sound, Flatten, Serve, Drops, Evicted;
  }
}
