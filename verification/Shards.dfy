/** The storage of one shard of the key store (memory/sharded_store.go): an index from
    keys to entries and, under EvictLRU, a list of the keys from newest to oldest. Both
    the concurrent protocol and the sequential store are built on these operations. */
module Shards {
  import opened Limiter

  type Key = string

  datatype Policy = EvictReject | EvictLRU

  const CLEANUP_BATCH_SIZE: nat := 100

  /** The options of a limiter after validation; `hash` is any shard choice. */
  datatype Config<!S> = Config(
    alg: Algorithm<S>, policy: Policy, maxKeys: nat,
    keyTTL: nat, cleanupInterval: nat, shardCount: nat, hash: Key -> nat)
  {
    ghost predicate Valid() { shardCount > 0 && forall k: Key :: hash(k) < shardCount }

    predicate CleanupEnabled() { keyTTL > 0 && cleanupInterval > 0 }
  }

  datatype Outcome = Ok(result: Result) | MaxKeysExceeded

  datatype Entry<+V> = Entry(value: V, lastSeen: int)

  /** `lastCleanup` is None until the first cleanup: the zero time is long ago. */
  datatype Shard<+V> = Shard(items: map<Key, Entry<V>>, order: seq<Key>, lastCleanup: Option<int>)

  const EMPTY_SHARD: Shard<nat> := Shard(map[], [], None)

  ghost predicate NoDup(s: seq<Key>) {
    forall i, j :: 0 <= i < j < |s| ==> s[i] != s[j]
  }

  /** List and index hold the same keys, once each; EvictReject keeps no list. */
  ghost predicate WellFormed<V>(policy: Policy, sh: Shard<V>) {
    match policy
    case EvictReject => sh.order == []
    case EvictLRU => NoDup(sh.order) && forall k :: k in sh.order <==> k in sh.items
  }

  /** A key lives in the shard it hashes to. */
  ghost predicate Homes<S, V>(c: Config<S>, i: nat, sh: Shard<V>) {
    WellFormed(c.policy, sh) && forall k :: k in sh.items ==> c.hash(k) == i
  }

  ghost predicate AllHomes<S, V>(c: Config<S>, shards: seq<Shard<V>>) {
    forall i :: 0 <= i < |shards| ==> Homes(c, i, shards[i])
  }

  /** How many keys the shards hold. */
  ghost function Stored<V>(shards: seq<Shard<V>>): nat {
    if shards == [] then 0 else Stored(shards[..|shards| - 1]) + |shards[|shards| - 1].items|
  }

  lemma {:induction false} StoredPut<V>(shards: seq<Shard<V>>, i: nat, sh: Shard<V>)
    requires i < |shards|
    ensures Stored(shards[i := sh]) == Stored(shards) - |shards[i].items| + |sh.items|
    decreases |shards|
  {
    var n := |shards| - 1;
    if i == n {
      assert shards[i := sh][..n] == shards[..n];
    } else {
      assert shards[i := sh][..n] == shards[..n][i := sh];
      StoredPut(shards[..n], i, sh);
    }
  }

  function Without(s: seq<Key>, key: Key): seq<Key> {
    if s == [] then [] else (if s[0] == key then [] else [s[0]]) + Without(s[1..], key)
  }

  function ToFront(policy: Policy, order: seq<Key>, key: Key): seq<Key> {
    if policy == EvictLRU then [key] + Without(order, key) else order
  }

  /** Refresh a stored key: it becomes the newest of its shard. */
  function Touch<V>(policy: Policy, sh: Shard<V>, key: Key, now: int): Shard<V>
    requires key in sh.items
  {
    sh.(items := sh.items[key := sh.items[key].(lastSeen := now)], order := ToFront(policy, sh.order, key))
  }

  function Insert<V>(policy: Policy, sh: Shard<V>, key: Key, value: V, now: int): Shard<V> {
    sh.(items := sh.items[key := Entry(value, now)], order := ToFront(policy, sh.order, key))
  }

  function Remove<V>(sh: Shard<V>, key: Key): Shard<V> {
    sh.(items := sh.items - {key}, order := Without(sh.order, key))
  }

  predicate CleanupDue<S>(c: Config<S>, last: Option<int>, now: int) {
    c.CleanupEnabled() && (last.Some? ==> now - last.value >= c.cleanupInterval)
  }

  /** Which of the cleanups, or sweeps, tried at these times are carried out. */
  function Scans<S>(c: Config<S>, last: Option<int>, times: seq<int>): (due: seq<bool>)
    ensures |due| == |times|
    decreases |times|
  {
    if times == [] then [] else
    var due := CleanupDue(c, last, times[0]);
    [due] + Scans(c, if due then Some(times[0]) else last, times[1..])
  }

  /** Whatever the times, two cleanups that are carried out are an interval apart, and so is
      each from the last one before. */
  lemma {:induction false} OncePerInterval<S>(c: Config<S>, last: Option<int>, times: seq<int>, j: nat)
    requires j < |times| && Scans(c, last, times)[j]
    ensures last.Some? ==> times[j] - last.value >= c.cleanupInterval
    ensures forall i :: 0 <= i < j && Scans(c, last, times)[i] ==> times[j] - times[i] >= c.cleanupInterval
    decreases |times|
  {
    if j > 0 {
      var due := CleanupDue(c, last, times[0]);
      OncePerInterval(c, if due then Some(times[0]) else last, times[1..], j - 1);
    }
  }

  /** A cleanup is not carried out only if one was less than an interval before. */
  lemma {:induction false} NeverLate<S>(c: Config<S>, last: Option<int>, times: seq<int>, j: nat) returns (i: nat)
    requires c.CleanupEnabled() && j < |times| && !Scans(c, last, times)[j]
    ensures if i < j then Scans(c, last, times)[i] && times[j] - times[i] < c.cleanupInterval
            else last.Some? && times[j] - last.value < c.cleanupInterval
    decreases |times|
  {
    var due := CleanupDue(c, last, times[0]);
    i := j;
    if j > 0 {
      i := NeverLate(c, if due then Some(times[0]) else last, times[1..], j - 1);
      i := if i < j - 1 then i + 1 else if due then 0 else j;
    }
  }

  predicate Expired<S, V>(c: Config<S>, e: Entry<V>, now: int) { now - e.lastSeen >= c.keyTTL }

  /** The keys one cleanup looks at: at most a batch, the newest ones of the list, or
      any ones of the map, whose iteration order is arbitrary. */
  ghost predicate Scan<V>(policy: Policy, sh: Shard<V>, scanned: seq<Key>) {
    match policy
    case EvictReject =>
      && NoDup(scanned) && (forall k :: k in scanned ==> k in sh.items)
      && |scanned| == if |sh.items| < CLEANUP_BATCH_SIZE then |sh.items| else CLEANUP_BATCH_SIZE
    case EvictLRU =>
      scanned == if |sh.order| < CLEANUP_BATCH_SIZE then sh.order else sh.order[..CLEANUP_BATCH_SIZE]
  }

  function ExpiredOf<S, V>(c: Config<S>, sh: Shard<V>, now: int, scanned: seq<Key>): seq<Key> {
    if scanned == [] then [] else
    var k := scanned[0];
    (if k in sh.items && Expired(c, sh.items[k], now) then [k] else [])
    + ExpiredOf(c, sh, now, scanned[1..])
  }

  /** What one cleanup of a shard removes: nothing unless it is due; else it looks at a batch
      of keys and removes exactly the expired ones among them. */
  ghost predicate Batch<S, V>(c: Config<S>, sh: Shard<V>, now: int, gone: set<Key>) {
    if CleanupDue(c, sh.lastCleanup, now) then
      exists scanned :: Scan(c.policy, sh, scanned)
                        && forall k :: k in gone <==> k in ExpiredOf(c, sh, now, scanned)
    else gone == {}
  }

  /** When a shard was last cleaned up, after a cleanup. */
  function MarkAfter<S, V>(c: Config<S>, sh: Shard<V>, now: int): Option<int> {
    if CleanupDue(c, sh.lastCleanup, now) then Some(now) else sh.lastCleanup
  }

  lemma {:induction false} WithoutMembers(s: seq<Key>, key: Key)
    ensures forall k :: k in Without(s, key) <==> k in s && k != key
    ensures key !in s ==> Without(s, key) == s
    ensures |Without(s, key)| <= |s|
  {
    if s != [] {
      WithoutMembers(s[1..], key);
      assert s == [s[0]] + s[1..];
    }
  }

  lemma {:induction false} WithoutNoDup(s: seq<Key>, key: Key)
    requires NoDup(s)
    ensures NoDup(Without(s, key))
  {
    if s != [] {
      assert NoDup(s[1..]);
      WithoutNoDup(s[1..], key);
      WithoutMembers(s[1..], key);
      assert s[0] !in s[1..];
    }
  }

  lemma ToFrontKeeps(order: seq<Key>, key: Key)
    requires NoDup(order)
    ensures NoDup(ToFront(EvictLRU, order, key))
    ensures forall k :: k in ToFront(EvictLRU, order, key) <==> k in order || k == key
  {
    hide Without;
    WithoutMembers(order, key);
    WithoutNoDup(order, key);
    var rest := Without(order, key);
    assert forall i :: 0 <= i < |rest| ==> rest[i] in rest;
  }

  lemma TouchKeeps<V>(policy: Policy, sh: Shard<V>, key: Key, now: int)
    requires WellFormed(policy, sh) && key in sh.items
    ensures WellFormed(policy, Touch(policy, sh, key, now))
    ensures Touch(policy, sh, key, now).items.Keys == sh.items.Keys
  {
    if policy == EvictLRU { ToFrontKeeps(sh.order, key); }
  }

  lemma InsertKeeps<V>(policy: Policy, sh: Shard<V>, key: Key, value: V, now: int)
    requires WellFormed(policy, sh) && key !in sh.items
    ensures var sh' := Insert(policy, sh, key, value, now);
            && WellFormed(policy, sh')
            && sh'.items.Keys == sh.items.Keys + {key}
            && |sh'.items| == |sh.items| + 1
  {
    if policy == EvictLRU { ToFrontKeeps(sh.order, key); }
    assert Insert(policy, sh, key, value, now).items.Keys == sh.items.Keys + {key};
  }

  lemma RemoveKeeps<V>(policy: Policy, sh: Shard<V>, key: Key)
    requires WellFormed(policy, sh) && key in sh.items
    ensures WellFormed(policy, Remove(sh, key))
    ensures |Remove(sh, key).items| == |sh.items| - 1
  {
    MinusSize(sh.items, key);
    if policy == EvictLRU {
      hide Without;
      WithoutMembers(sh.order, key);
      WithoutNoDup(sh.order, key);
    }
  }

  lemma MinusSize<V>(m: map<Key, V>, key: Key)
    requires key in m
    ensures |m - {key}| == |m| - 1
  {
    assert (m - {key}).Keys == m.Keys - {key};
    assert |m.Keys - {key}| == |m.Keys| - 1;
  }

  lemma HomesAt<S, V>(c: Config<S>, shards: seq<Shard<V>>, i: nat)
    requires AllHomes(c, shards) && i < |shards|
    ensures Homes(c, i, shards[i])
  {}

  lemma HomesPut<S, V>(c: Config<S>, shards: seq<Shard<V>>, i: nat, sh: Shard<V>)
    requires AllHomes(c, shards) && i < |shards| && Homes(c, i, sh)
    ensures AllHomes(c, shards[i := sh])
  {
    hide Homes;
  }

  lemma TouchHomes<S, V>(c: Config<S>, shards: seq<Shard<V>>, home: nat, key: Key, now: int)
    requires AllHomes(c, shards) && home < |shards| && key in shards[home].items
    ensures var touched := Touch(c.policy, shards[home], key, now);
            && AllHomes(c, shards[home := touched])
            && Stored(shards[home := touched]) == Stored(shards)
  {
    hide WellFormed, AllHomes, Stored, ToFront;
    var touched := Touch(c.policy, shards[home], key, now);
    HomesAt(c, shards, home);
    TouchKeeps(c.policy, shards[home], key, now);
    assert |touched.items.Keys| == |shards[home].items.Keys|;
    HomesPut(c, shards, home, touched);
    StoredPut(shards, home, touched);
  }

  lemma InsertHomes<S, V>(c: Config<S>, shards: seq<Shard<V>>, home: nat, key: Key, value: V, now: int)
    requires AllHomes(c, shards) && home < |shards| && key !in shards[home].items && c.hash(key) == home
    ensures var inserted := Insert(c.policy, shards[home], key, value, now);
            && AllHomes(c, shards[home := inserted])
            && Stored(shards[home := inserted]) == Stored(shards) + 1
  {
    hide WellFormed, AllHomes, Stored, ToFront;
    HomesAt(c, shards, home);
    InsertKeeps(c.policy, shards[home], key, value, now);
    HomesPut(c, shards, home, Insert(c.policy, shards[home], key, value, now));
    StoredPut(shards, home, Insert(c.policy, shards[home], key, value, now));
  }

  lemma RemoveHomes<S, V>(c: Config<S>, shards: seq<Shard<V>>, i: nat, key: Key)
    requires AllHomes(c, shards) && i < |shards| && key in shards[i].items
    ensures c.hash(key) == i
    ensures var after := shards[i := Remove(shards[i], key)];
            AllHomes(c, after) && Stored(after) == Stored(shards) - 1
  {
    hide WellFormed, Stored, AllHomes, Without;
    HomesAt(c, shards, i);
    RemoveKeeps(c.policy, shards[i], key);
    HomesPut(c, shards, i, Remove(shards[i], key));
    StoredPut(shards, i, Remove(shards[i], key));
  }

  lemma {:induction false} ExpiredOfMembers<S, V>(c: Config<S>, sh: Shard<V>, now: int, scanned: seq<Key>)
    ensures forall k :: k in ExpiredOf(c, sh, now, scanned) <==>
              k in scanned && k in sh.items && Expired(c, sh.items[k], now)
  {
    if scanned != [] {
      ExpiredOfMembers(c, sh, now, scanned[1..]);
      assert scanned == [scanned[0]] + scanned[1..];
    }
  }

  lemma {:induction false} Enumerate(keys: set<Key>, n: nat) returns (s: seq<Key>)
    requires n <= |keys|
    ensures |s| == n && NoDup(s) && forall k :: k in s ==> k in keys
    decreases n
  {
    if n == 0 {
      s := [];
    } else {
      var k :| k in keys;
      var rest := Enumerate(keys - {k}, n - 1);
      s := [k] + rest;
    }
  }

  /** Whatever the shard holds, a cleanup has some batch to look at. */
  lemma ScanExists<V>(policy: Policy, sh: Shard<V>) returns (scanned: seq<Key>)
    ensures Scan(policy, sh, scanned)
  {
    match policy
    case EvictReject =>
      var n := if |sh.items| < CLEANUP_BATCH_SIZE then |sh.items| else CLEANUP_BATCH_SIZE;
      assert |sh.items.Keys| == |sh.items|;
      scanned := Enumerate(sh.items.Keys, n);
    case EvictLRU =>
      scanned := if |sh.order| < CLEANUP_BATCH_SIZE then sh.order else sh.order[..CLEANUP_BATCH_SIZE];
  }

  lemma NoDupTail(s: seq<Key>)
    requires NoDup(s) && s != []
    ensures NoDup(s[1..]) && s[0] !in s[1..]
  {}

  lemma {:induction false} ListSize(s: seq<Key>, keys: set<Key>)
    requires NoDup(s) && forall k :: k in s <==> k in keys
    ensures |s| == |keys|
    decreases |s|
  {
    if s != [] {
      NoDupTail(s);
      assert s[0] in keys;
      assert forall k :: k in s[1..] <==> k in keys - {s[0]} by {
        assert s == [s[0]] + s[1..];
      }
      ListSize(s[1..], keys - {s[0]});
    }
  }

  /** Distinct keys of a set, as many as it has, are all of it. */
  lemma {:induction false} ListsAll(s: seq<Key>, keys: set<Key>)
    requires NoDup(s) && (forall k :: k in s ==> k in keys) && |s| == |keys|
    ensures forall k :: k in keys ==> k in s
    decreases |s|
  {
    if s != [] {
      NoDupTail(s);
      assert s[0] in keys;
      assert forall k :: k in s[1..] ==> k in keys - {s[0]} by {
        assert s == [s[0]] + s[1..];
      }
      ListsAll(s[1..], keys - {s[0]});
      forall k | k in keys ensures k in s {
        assert k == s[0] || k in s[1..];
      }
    }
  }

  /** A cleanup of a shard that holds no more than a batch looks at every key. */
  lemma ScanAll<V>(policy: Policy, sh: Shard<V>, scanned: seq<Key>)
    requires WellFormed(policy, sh) && Scan(policy, sh, scanned) && |sh.items| <= CLEANUP_BATCH_SIZE
    ensures forall k :: k in sh.items ==> k in scanned
  {
    assert |sh.items.Keys| == |sh.items|;
    match policy
    case EvictReject => ListsAll(scanned, sh.items.Keys);
    case EvictLRU =>
      ListSize(sh.order, sh.items.Keys);
      assert scanned == sh.order;
  }

  /** No key of the shard has expired. */
  ghost predicate Clean<S, V>(c: Config<S>, sh: Shard<V>, now: int) {
    forall k :: k in sh.items ==> !Expired(c, sh.items[k], now)
  }

  /** A shard has been through a cleanup: it lost `gone` to it and, if it was due and a batch
      covers it, has no expired key left. */
  ghost predicate SweptShard<S, V>(c: Config<S>, before: Shard<V>, after: Shard<V>, now: int, gone: set<Key>) {
    && Batch(c, before, now, gone) && after.lastCleanup == MarkAfter(c, before, now)
    && (CleanupDue(c, before.lastCleanup, now) && |before.items| <= CLEANUP_BATCH_SIZE ==> Clean(c, after, now))
  }

  lemma BatchMembers<S, V>(c: Config<S>, sh: Shard<V>, now: int, gone: set<Key>)
    requires Batch(c, sh, now, gone)
    ensures forall k :: k in gone ==> k in sh.items && Expired(c, sh.items[k], now)
  {
    hide ExpiredOf, Scan;
    if CleanupDue(c, sh.lastCleanup, now) {
      var scanned :| Scan(c.policy, sh, scanned) && forall k :: k in gone <==> k in ExpiredOf(c, sh, now, scanned);
      ExpiredOfMembers(c, sh, now, scanned);
    }
  }

  /** A due cleanup of a shard that a batch covers removes every expired key. */
  lemma BatchTakesAll<S, V>(c: Config<S>, sh: Shard<V>, now: int, gone: set<Key>)
    requires WellFormed(c.policy, sh) && Batch(c, sh, now, gone)
    requires CleanupDue(c, sh.lastCleanup, now) && |sh.items| <= CLEANUP_BATCH_SIZE
    ensures forall k :: k in gone <==> k in sh.items && Expired(c, sh.items[k], now)
  {
    hide WellFormed, ExpiredOf, Scan;
    var scanned :| Scan(c.policy, sh, scanned) && forall k :: k in gone <==> k in ExpiredOf(c, sh, now, scanned);
    ScanAll(c.policy, sh, scanned);
    ExpiredOfMembers(c, sh, now, scanned);
  }

  /** Removing a batch is a cleanup. */
  lemma SweptByBatch<S, V>(c: Config<S>, before: Shard<V>, after: Shard<V>, now: int, gone: set<Key>)
    requires WellFormed(c.policy, before) && Batch(c, before, now, gone)
    requires after.items == before.items - gone && after.lastCleanup == MarkAfter(c, before, now)
    ensures SweptShard(c, before, after, now, gone)
  {
    hide WellFormed, Batch;
    if CleanupDue(c, before.lastCleanup, now) && |before.items| <= CLEANUP_BATCH_SIZE {
      BatchTakesAll(c, before, now, gone);
    }
  }
}
