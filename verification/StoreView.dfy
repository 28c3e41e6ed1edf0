/** How the shards look as one map, and how removing keys looks on each shard. */
module StoreView {
  import opened Shards
  import opened FlatStore

  // ---- Removing keys ----

  function WithoutAll(s: seq<Key>, gone: set<Key>): seq<Key> {
    if s == [] then [] else (if s[0] in gone then [] else [s[0]]) + WithoutAll(s[1..], gone)
  }

  /** The shards have lost exactly the keys `gone`, from index and list alike. */
  ghost predicate Lost<V>(before: seq<Shard<V>>, after: seq<Shard<V>>, gone: set<Key>) {
    |before| == |after| &&
    forall i :: 0 <= i < |before| ==>
      after[i].items == before[i].items - gone && after[i].order == WithoutAll(before[i].order, gone)
  }

  lemma {:induction false} WithoutAllMembers(s: seq<Key>, gone: set<Key>)
    ensures forall k :: k in WithoutAll(s, gone) <==> k in s && k !in gone
    ensures (forall k :: k in s ==> k !in gone) ==> WithoutAll(s, gone) == s
  {
    if s != [] {
      WithoutAllMembers(s[1..], gone);
      assert s == [s[0]] + s[1..];
    }
  }

  lemma {:induction false} WithoutAllOne(s: seq<Key>, key: Key)
    ensures WithoutAll(s, {key}) == Without(s, key)
  {
    if s != [] {
      WithoutAllOne(s[1..], key);
    }
  }

  lemma {:induction false} WithoutAllCompose(s: seq<Key>, a: set<Key>, b: set<Key>)
    ensures WithoutAll(WithoutAll(s, a), b) == WithoutAll(s, a + b)
  {
    if s != [] {
      WithoutAllCompose(s[1..], a, b);
      if s[0] !in a {
        assert ([s[0]] + WithoutAll(s[1..], a))[1..] == WithoutAll(s[1..], a);
      } else {
        assert [] + WithoutAll(s[1..], a) == WithoutAll(s[1..], a);
      }
    }
  }

  /** Dropping the last key of a list without duplicates drops just that. */
  lemma {:induction false} WithoutLast(s: seq<Key>)
    requires NoDup(s) && s != []
    ensures Without(s, s[|s| - 1]) == s[..|s| - 1]
    decreases |s|
  {
    if |s| > 1 {
      var tail, last := s[1..], s[|s| - 1];
      assert tail[|tail| - 1] == last && NoDup(tail) && s[0] != last;
      WithoutLast(tail);
      hide NoDup;
      assert s[..|s| - 1] == [s[0]] + tail[..|tail| - 1];
    }
  }

  lemma LostNone<V>(shards: seq<Shard<V>>, after: seq<Shard<V>>)
    requires |after| == |shards|
    requires forall i :: 0 <= i < |shards| ==> after[i].items == shards[i].items && after[i].order == shards[i].order
    ensures Lost(shards, after, {})
  {
    forall i | 0 <= i < |shards| ensures WithoutAll(shards[i].order, {}) == shards[i].order {
      WithoutAllMembers(shards[i].order, {});
    }
  }

  lemma LostCompose<V>(a: seq<Shard<V>>, b: seq<Shard<V>>, d: seq<Shard<V>>, x: set<Key>, y: set<Key>)
    requires Lost(a, b, x) && Lost(b, d, y)
    ensures Lost(a, d, x + y)
  {
    forall i | 0 <= i < |a|
      ensures d[i].items == a[i].items - (x + y) && d[i].order == WithoutAll(a[i].order, x + y)
    {
      WithoutAllCompose(a[i].order, x, y);
    }
  }

  /** Removing one key of shard `i` leaves every other shard as it was. */
  lemma LostOne<S, V>(c: Config<S>, shards: seq<Shard<V>>, i: nat, key: Key)
    requires AllHomes(c, shards) && i < |shards| && c.hash(key) == i
    ensures Lost(shards, shards[i := Remove(shards[i], key)], {key})
  {
    var after := shards[i := Remove(shards[i], key)];
    WithoutAllOne(shards[i].order, key);
    hide WithoutAll, Without, Homes;
    forall j | 0 <= j < |shards|
      ensures after[j].items == shards[j].items - {key} && after[j].order == WithoutAll(shards[j].order, {key})
    {
      if j != i { LostElsewhere(c, shards[j], j, i, key); }
    }
  }

  lemma LostElsewhere<S, V>(c: Config<S>, sh: Shard<V>, j: nat, i: nat, key: Key)
    requires Homes(c, j, sh) && j != i && c.hash(key) == i
    ensures sh.items - {key} == sh.items && WithoutAll(sh.order, {key}) == sh.order
  {
    WithoutAllMembers(sh.order, {key});
  }

  // ---- One map ----

  /** All entries, of whatever shard. */
  ghost function Flatten<S>(shards: seq<Shard<S>>): Flat<S> {
    if shards == [] then map[] else Flatten(shards[..|shards| - 1]) + shards[|shards| - 1].items
  }

  lemma {:induction false} FlattenPrefix<S>(c: Config<S>, shards: seq<Shard<S>>, n: nat, key: Key)
    requires AllHomes(c, shards) && n <= |shards|
    ensures key in Flatten(shards[..n]) <==> c.hash(key) < n && key in shards[c.hash(key)].items
    ensures key in Flatten(shards[..n]) ==> Flatten(shards[..n])[key] == shards[c.hash(key)].items[key]
    decreases n
  {
    if n > 0 {
      FlattenPrefix(c, shards, n - 1, key);
      assert Homes(c, n - 1, shards[n - 1]);
      hide AllHomes, WellFormed;
      assert shards[..n][..n - 1] == shards[..n - 1] && shards[..n][n - 1] == shards[n - 1];
    }
  }

  lemma {:induction false} FlattenSize<S>(c: Config<S>, shards: seq<Shard<S>>, n: nat)
    requires AllHomes(c, shards) && n <= |shards|
    ensures |Flatten(shards[..n])| == Stored(shards[..n])
    decreases n
  {
    if n > 0 {
      hide AllHomes, Flatten, Stored;
      FlattenSize(c, shards, n - 1);
      ShardApart(c, shards, n - 1);
      DisjointSize(Flatten(shards[..n - 1]), shards[n - 1].items);
      PrefixUnfolds(shards, n);
    }
  }

  lemma PrefixUnfolds<S>(shards: seq<Shard<S>>, n: nat)
    requires 0 < n <= |shards|
    ensures Flatten(shards[..n]) == Flatten(shards[..n - 1]) + shards[n - 1].items
    ensures Stored(shards[..n]) == Stored(shards[..n - 1]) + |shards[n - 1].items|
  {
    assert shards[..n][..n - 1] == shards[..n - 1] && shards[..n][n - 1] == shards[n - 1];
  }

  lemma ShardApart<S>(c: Config<S>, shards: seq<Shard<S>>, n: nat)
    requires AllHomes(c, shards) && n < |shards|
    ensures forall k :: k in shards[n].items ==> k !in Flatten(shards[..n])
  {
    hide Flatten;
    HomesAt(c, shards, n);
    hide AllHomes, WellFormed;
    forall k | k in shards[n].items ensures k !in Flatten(shards[..n]) {
      FlattenPrefix(c, shards, n, k);
    }
  }

  lemma DisjointSize<V>(m: map<Key, V>, n: map<Key, V>)
    requires forall k :: k in n ==> k !in m
    ensures |m + n| == |m| + |n|
  {
    assert m.Keys !! n.Keys;
    assert (m + n).Keys == m.Keys + n.Keys;
    assert |(m + n).Keys| == |m.Keys| + |n.Keys|;
  }

  /** The flat map has the entries of the shards. */
  lemma {:induction false} FlattenAt<S>(c: Config<S>, shards: seq<Shard<S>>, key: Key)
    requires c.Valid() && AllHomes(c, shards) && |shards| == c.shardCount
    ensures key in Flatten(shards) <==> key in shards[c.hash(key)].items
    ensures key in Flatten(shards) ==> Flatten(shards)[key] == shards[c.hash(key)].items[key]
  {
    hide AllHomes, Flatten;
    assert shards[..|shards|] == shards;
    FlattenPrefix(c, shards, |shards|, key);
  }

  /** The flat map is as large as the shards together. */
  lemma {:induction false} FlattenCount<S>(c: Config<S>, shards: seq<Shard<S>>)
    requires AllHomes(c, shards)
    ensures |Flatten(shards)| == Stored(shards)
  {
    assert shards[..|shards|] == shards;
    FlattenSize(c, shards, |shards|);
  }

  lemma {:induction false} FlattenLost<S>(c: Config<S>, before: seq<Shard<S>>, after: seq<Shard<S>>, gone: set<Key>)
    requires c.Valid() && AllHomes(c, before) && AllHomes(c, after) && |before| == c.shardCount
    requires Lost(before, after, gone)
    ensures Flatten(after) == Flatten(before) - gone
  {
    hide AllHomes, Flatten, WithoutAll;
    var (m, n) := (Flatten(before) - gone, Flatten(after));
    forall k: Key ensures k in m <==> k in n {
      FlattenAt(c, before, k);
      FlattenAt(c, after, k);
    }
    forall k: Key | k in m ensures m[k] == n[k] {
      FlattenAt(c, before, k);
      FlattenAt(c, after, k);
    }
    SameMap(m, n);
  }

  lemma SameMap<V>(m: map<Key, V>, n: map<Key, V>)
    requires forall k: Key :: k in m <==> k in n
    requires forall k: Key :: k in m && k in n ==> m[k] == n[k]
    ensures m == n
  {}

  lemma {:induction false} FlattenPut<S>(c: Config<S>, before: seq<Shard<S>>, after: seq<Shard<S>>, key: Key,
                                         e: Entry<S>)
    requires c.Valid() && AllHomes(c, before) && AllHomes(c, after) && |before| == c.shardCount == |after|
    requires after[c.hash(key)].items == before[c.hash(key)].items[key := e]
    requires forall i :: 0 <= i < |after| && i != c.hash(key) ==> after[i] == before[i]
    ensures Flatten(after) == Flatten(before)[key := e]
  {
    hide AllHomes, Flatten;
    var (m, n) := (Flatten(before)[key := e], Flatten(after));
    forall k: Key ensures k in m <==> k in n {
      FlattenAt(c, before, k);
      FlattenAt(c, after, k);
    }
    forall k: Key | k in m ensures m[k] == n[k] {
      FlattenAt(c, before, k);
      FlattenAt(c, after, k);
    }
    SameMap(m, n);
  }

  lemma {:induction false} SomeShardHasKeys<V>(shards: seq<Shard<V>>) returns (i: nat)
    requires Stored(shards) > 0
    ensures i < |shards| && |shards[i].items| > 0
    decreases |shards|
  {
    var n := |shards| - 1;
    if |shards[n].items| > 0 {
      i := n;
    } else {
      i := SomeShardHasKeys(shards[..n]);
    }
  }
}
