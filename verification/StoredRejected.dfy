/** With a TTL an EvictReject store can turn a request away although its key is stored: an
    execution that does so, for every configuration with a cap and a TTL. */
module StoredRejected {
  import opened Limiter
  import opened Shards
  import opened Protocol
  import opened ProtocolInvariant
  import opened ProtocolTheorems
  import opened Rejections
  import opened AbsentKeys

  /** EvictReject with a cap. */
  ghost predicate Rejecting<S>(c: Config<S>) { c.policy == EvictReject && c.maxKeys > 0 }

  /** EvictReject with a cap and a TTL. */
  ghost predicate Scarce<S>(c: Config<S>) { Rejecting(c) && c.CleanupEnabled() }

  // ---- Reaching states ----

  ghost predicate Reach<S(!new)>(c: Config<S>, s: State<S>) {
    exists run: seq<State<S>> :: Execution(c, run) && run[|run| - 1] == s
  }

  lemma ReachStep<S(!new)>(c: Config<S>, s: State<S>, g: nat, scanned: seq<Key>)
    requires Reach(c, s) && Shape(c, s) && g < |s.gs| && Ready(c, s, g) && MayScan(c, s, g, scanned)
    ensures Reach(c, Succ(c, s, g, scanned))
  {
    hide Init, Ready, Succ, MayScan;
    var run: seq<State<S>> :| Execution(c, run) && run[|run| - 1] == s;
    var s' := Succ(c, s, g, scanned);
    assert Next(c, s, g, s');
    var longer := run + [s'];
    forall i | 0 <= i < |longer| - 1 ensures Step(c, longer[i], longer[i + 1]) {
      if i < |run| - 1 {
        assert Step(c, run[i], run[i + 1]);
      }
    }
    assert longer[|longer| - 1] == s';
  }

  /** All locks are free, no entry is older than time zero or newer than `hi`. */
  ghost predicate Calm<S>(c: Config<S>, s: State<S>, hi: int) {
    && Shape(c, s) && s.sweepOwner == None
    && (forall i :: 0 <= i < c.shardCount ==> s.owner[i] == None && CalmShard(s.shards[i], hi))
  }

  ghost predicate CalmShard(sh: Shard<nat>, hi: int) {
    && (forall k :: k in sh.items ==> 0 <= sh.items[k].lastSeen <= hi)
    && (sh.lastCleanup.Some? ==> sh.lastCleanup.value <= hi)
  }

  /** Only goroutine `g` and shard `home` have changed. */
  ghost predicate Only<S>(s: State<S>, s': State<S>, g: nat, home: nat) {
    && g < |s.gs| == |s'.gs| && home < |s.shards| == |s'.shards| && home < |s.owner| == |s'.owner|
    && s'.gs == s.gs[g := s'.gs[g]] && s'.shards == s.shards[home := s'.shards[home]]
    && s'.owner == s.owner[home := s'.owner[home]]
    && s'.sweepOwner == s.sweepOwner && s'.lastSweep == s.lastSweep
  }

  /** A change of one calm shard whose lock is free again leaves the store calm. */
  lemma OnlyCalm<S>(c: Config<S>, s: State<S>, s': State<S>, g: nat, home: nat, hi: int, hi': int)
    requires Calm(c, s, hi) && hi <= hi' && Only(s, s', g, home) && s'.owner[home] == None
    requires CalmShard(s'.shards[home], hi')
    ensures Calm(c, s', hi')
  {}

  /** Which keys are stored after a change of one shard. */
  lemma OnlyKeys<S>(c: Config<S>, s: State<S>, s': State<S>, g: nat, home: nat)
    requires Shape(c, s) && Shape(c, s') && Only(s, s', g, home)
    ensures forall k: Key :: c.hash(k) != home ==> s'.shards[c.hash(k)] == s.shards[c.hash(k)]
  {}

  lemma OnlyTwice<S>(s: State<S>, s': State<S>, s'': State<S>, g: nat, home: nat)
    requires Only(s, s', g, home) && Only(s', s'', g, home)
    ensures Only(s, s'', g, home)
  {}

  // ---- A request for a new key ----

  function Marked<S>(c: Config<S>, sh: Shard<nat>, now: int): Shard<nat> {
    if CleanupDue(c, sh.lastCleanup, now) then sh.(lastCleanup := Some(now)) else sh
  }

  /** A goroutine misses its key and cleans up nothing. */
  lemma Enters<S(!new)>(c: Config<S>, s: State<S>, g: nat) returns (s': State<S>)
    requires Reach(c, s) && Shape(c, s) && g < |s.gs| && s.gs[g].pc == Begin && c.policy == EvictReject
    requires var (me, home) := (s.gs[g], c.hash(s.gs[g].key));
             && s.owner[home] == None && me.key !in s.shards[home].items
             && (c.CleanupEnabled() ==> Clean(c, s.shards[home], me.now))
    ensures Reach(c, s') && Shape(c, s')
    ensures var home := c.hash(s.gs[g].key);
            && Only(s, s', g, home) && s'.gs[g] == s.gs[g].(pc := Reserve) && s'.live == s.live
            && s'.owner[home] == Some(g) && s'.shards[home] == Marked(c, s.shards[home], s.gs[g].now)
  {
    hide Reach, ExpiredOf, Scan;
    var (me, home) := (s.gs[g], c.hash(s.gs[g].key));
    var sh := s.shards[home];
    var scanned := ScanExists(c.policy, sh);
    if c.CleanupEnabled() {
      NothingExpired(c, sh, me.now, scanned);
    }
    ReachStep(c, s, g, []);
    var s1 := Succ(c, s, g, []);
    ReachStep(c, s1, g, []);
    var s2 := Succ(c, s1, g, []);
    ReachStep(c, s2, g, scanned);
    s' := Succ(c, s2, g, scanned);
    if CleanupDue(c, sh.lastCleanup, me.now) {
      ReachStep(c, s', g, []);
      s' := Succ(c, s', g, []);
    }
  }

  lemma {:induction false} NothingExpired<S>(c: Config<S>, sh: Shard<nat>, now: int, scanned: seq<Key>)
    requires Clean(c, sh, now)
    ensures ExpiredOf(c, sh, now, scanned) == []
  {
    ExpiredOfMembers(c, sh, now, scanned);
    if ExpiredOf(c, sh, now, scanned) != [] {
      assert ExpiredOf(c, sh, now, scanned)[0] in ExpiredOf(c, sh, now, scanned);
    }
  }

  /** A goroutine finds room, takes it, and returns. */
  lemma Stores<S(!new)>(c: Config<S>, s: State<S>, g: nat) returns (s': State<S>)
    requires Reach(c, s) && Shape(c, s) && g < |s.gs| && s.gs[g].pc == Reserve && 0 < c.maxKeys && s.live < c.maxKeys
    requires s.gs[g].key !in s.shards[c.hash(s.gs[g].key)].items
    ensures Reach(c, s') && Shape(c, s')
    ensures var (me, home) := (s.gs[g], c.hash(s.gs[g].key));
            && Only(s, s', g, home) && s'.gs[g].pc.Done? && s'.gs[g].key == me.key && s'.live == s.live + 1
            && s'.owner[home] == None
            && s'.shards[home] == Insert<nat>(c.policy, s.shards[home], me.key, |s.objs|, me.now)
  {
    var s1 := Reserves(c, s, g);
    s' := CreatesAndReturns(c, s1, g);
    hide Reach, Only;
    OnlyTwice(s, s1, s', g, c.hash(s.gs[g].key));
  }

  lemma Reserves<S(!new)>(c: Config<S>, s: State<S>, g: nat) returns (s': State<S>)
    requires Reach(c, s) && Shape(c, s) && g < |s.gs| && s.gs[g].pc == Reserve && 0 < c.maxKeys && s.live < c.maxKeys
    requires s.gs[g].key !in s.shards[c.hash(s.gs[g].key)].items
    ensures Reach(c, s') && Shape(c, s')
    ensures var home := c.hash(s.gs[g].key);
            && Only(s, s', g, home) && s'.gs[g] == s.gs[g].(pc := Create, swept := false) && s'.live == s.live + 1
            && s'.shards == s.shards && s'.owner == s.owner && s'.objs == s.objs
  {
    hide Reach;
    var (me, home) := (s.gs[g].(swept := false), c.hash(s.gs[g].key));
    ReachStep(c, s, g, []);
    var s1 := Succ(c, s, g, []);
    assert s1 == s.(gs := s.gs[g := me.(pc := Load)]);
    ReachStep(c, s1, g, []);
    var s2 := Succ(c, s1, g, []);
    assert s2 == s.(gs := s.gs[g := me.(pc := Cas(s.live))]);
    ReachStep(c, s2, g, []);
    var s3 := Succ(c, s2, g, []);
    assert s3 == s.(live := s.live + 1, gs := s.gs[g := me.(pc := Recheck)]);
    ReachStep(c, s3, g, []);
    s' := Succ(c, s3, g, []);
    assert s' == s.(live := s.live + 1, gs := s.gs[g := me.(pc := Protocol.Create)]);
  }

  lemma CreatesAndReturns<S(!new)>(c: Config<S>, s: State<S>, g: nat) returns (s': State<S>)
    requires Reach(c, s) && Shape(c, s) && g < |s.gs| && s.gs[g].pc == Create
    ensures Reach(c, s') && Shape(c, s')
    ensures var (me, home) := (s.gs[g], c.hash(s.gs[g].key));
            && Only(s, s', g, home) && s'.gs[g].pc.Done? && s'.gs[g].key == me.key && s'.live == s.live
            && s'.owner[home] == None
            && s'.shards[home] == Insert<nat>(c.policy, s.shards[home], me.key, |s.objs|, me.now)
  {
    hide Reach, ToFront;
    ReachStep(c, s, g, []);
    var s1 := Succ(c, s, g, []);
    ReachStep(c, s1, g, []);
    var s2 := Succ(c, s1, g, []);
    ReachStep(c, s2, g, []);
    s' := Succ(c, s2, g, []);
  }

  /** A request at time zero for a new key, with room: nothing is expired at time zero. */
  lemma Fills<S(!new)>(c: Config<S>, s: State<S>, g: nat, hi: nat) returns (s': State<S>)
    requires Reach(c, s) && Calm(c, s, hi) && Rejecting(c) && s.live < c.maxKeys
    requires g < |s.gs| && s.gs[g].pc == Begin && s.gs[g].now == 0
    requires s.gs[g].key !in s.shards[c.hash(s.gs[g].key)].items
    ensures Reach(c, s') && Calm(c, s', hi) && s'.live == s.live + 1 && s'.lastSweep == s.lastSweep
    ensures var me := s.gs[g];
            && |s'.gs| == |s.gs| && s'.gs == s.gs[g := s'.gs[g]]
            && (forall k: Key :: k in s'.shards[c.hash(k)].items <==> k in s.shards[c.hash(k)].items || k == me.key)
  {
    hide Reach, Only, ToFront;
    var (me, home) := (s.gs[g], c.hash(s.gs[g].key));
    CalmClean(c, s.shards[home], hi);
    var s1 := Enters(c, s, g);
    OnlyGs(s, s1, g, home);
    s' := Stores(c, s1, g);
    hide CleanupDue;
    assert CalmShard(s.shards[home], hi) && CalmShard(s'.shards[home], hi);
    hide CalmShard;
    OnlyTwice(s, s1, s', g, home);
    OnlyCalm(c, s, s', g, home, hi, hi);
    OnlyKeys(c, s, s', g, home);
    OnlyGs(s, s', g, home);
    hide Calm;
  }

  lemma CalmClean<S>(c: Config<S>, sh: Shard<nat>, hi: int)
    requires CalmShard(sh, hi)
    ensures c.CleanupEnabled() ==> Clean(c, sh, 0)
  {}

  // ---- A request that finds the store full and sweeps in vain ----

  /** It gives up its lock to sweep. */
  lemma Releases<S(!new)>(c: Config<S>, s: State<S>, g: nat) returns (s': State<S>)
    requires Reach(c, s) && Shape(c, s) && Scarce(c) && c.maxKeys <= s.live
    requires g < |s.gs| && s.gs[g].pc == Reserve && s.sweepOwner == None && s.lastSweep == None
    ensures Reach(c, s') && Shape(c, s')
    ensures var (me, home) := (s.gs[g], c.hash(s.gs[g].key));
            s' == s.(owner := s.owner[home := None], sweepOwner := Some(g), lastSweep := Some(me.now),
                     gs := s.gs[g := me.(pc := SweepShardLock(0), swept := true)])
  {
    hide Reach;
    var (me, home) := (s.gs[g], c.hash(s.gs[g].key));
    ReachStep(c, s, g, []);
    var s1 := Succ(c, s, g, []);
    assert s1 == s.(gs := s.gs[g := me.(pc := Load, swept := false)]);
    ReachStep(c, s1, g, []);
    var s2 := Succ(c, s1, g, []);
    assert s2 == s.(gs := s.gs[g := me.(pc := Release, swept := false)]);
    ReachStep(c, s2, g, []);
    var s3 := Succ(c, s2, g, []);
    assert s3 == s.(owner := s.owner[home := None], gs := s.gs[g := me.(pc := SweepLock, swept := true)]);
    ReachStep(c, s3, g, []);
    var s4 := Succ(c, s3, g, []);
    assert s4 == s.(owner := s.owner[home := None], sweepOwner := Some(g),
                    gs := s.gs[g := me.(pc := SweepGate, swept := true)]);
    ReachStep(c, s4, g, []);
    s' := Succ(c, s4, g, []);
  }

  /** Sweeping, at time zero, with only the sweep lock held. */
  ghost predicate Sweeping<S>(c: Config<S>, s: State<S>, g: nat) {
    && Shape(c, s) && g < |s.gs| && s.sweepOwner == Some(g) && s.gs[g].now == 0 && s.gs[g].swept
    && (forall i :: 0 <= i < c.shardCount ==> s.owner[i] == None && CalmShard(s.shards[i], 0))
  }

  /** Nothing but cleanup times and the program counter of `g` has changed. */
  ghost predicate SweptInVain<S>(s: State<S>, s': State<S>, g: nat) {
    && s'.live == s.live && s'.lastSweep == s.lastSweep && |s'.shards| == |s.shards| && g < |s.gs| == |s'.gs|
    && s'.gs == s.gs[g := s.gs[g].(pc := s'.gs[g].pc)]
    && (forall i :: 0 <= i < |s.shards| ==> s'.shards[i].items == s.shards[i].items)
  }

  lemma SweepsShard<S(!new)>(c: Config<S>, s: State<S>, g: nat, i: nat) returns (s': State<S>)
    requires Reach(c, s) && Scarce(c) && Sweeping(c, s, g) && i < c.shardCount && s.gs[g].pc == SweepShardLock(i)
    ensures Reach(c, s') && Sweeping(c, s', g) && SweptInVain(s, s', g)
    ensures s'.gs[g].pc == if i + 1 < c.shardCount then SweepShardLock(i + 1) else SweepUnlock
  {
    CalmClean(c, s.shards[i], 0);
    var s1 := CleansShard(c, s, g, i);
    s' := LeavesShard(c, s1, g, i);
    hide Reach, CleanupDue;
    assert s' == s.(shards := s1.shards, gs := s.gs[g := s'.gs[g]]);
    assert CalmShard(s'.shards[i], 0);
  }

  lemma LeavesShard<S(!new)>(c: Config<S>, s: State<S>, g: nat, i: nat) returns (s': State<S>)
    requires Reach(c, s) && Shape(c, s) && g < |s.gs| && i < c.shardCount && s.gs[g].pc == SweepShardUnlock(i)
    ensures Reach(c, s') && Shape(c, s')
    ensures var pc := if i + 1 < c.shardCount then SweepShardLock(i + 1) else SweepUnlock;
            s' == s.(owner := s.owner[i := None], gs := s.gs[g := s.gs[g].(pc := pc)])
  {
    hide Reach;
    ReachStep(c, s, g, []);
    s' := Succ(c, s, g, []);
  }

  lemma EndsSweep<S(!new)>(c: Config<S>, s: State<S>, g: nat) returns (s': State<S>)
    requires Reach(c, s) && Shape(c, s) && g < |s.gs| && s.gs[g].pc == SweepUnlock && c.policy == EvictReject
    ensures Reach(c, s') && s' == s.(sweepOwner := None, gs := s.gs[g := s.gs[g].(pc := Relock)])
  {
    hide Reach;
    ReachStep(c, s, g, []);
    s' := Succ(c, s, g, []);
  }

  lemma CleansShard<S(!new)>(c: Config<S>, s: State<S>, g: nat, i: nat) returns (s': State<S>)
    requires Reach(c, s) && Shape(c, s) && Scarce(c) && g < |s.gs| && i < c.shardCount
    requires s.gs[g].pc == SweepShardLock(i) && s.owner[i] == None && Clean(c, s.shards[i], s.gs[g].now)
    ensures Reach(c, s') && Shape(c, s')
    ensures s' == s.(owner := s.owner[i := Some(g)], shards := s.shards[i := Marked(c, s.shards[i], s.gs[g].now)],
                     gs := s.gs[g := s.gs[g].(pc := SweepShardUnlock(i))])
  {
    hide Reach, ExpiredOf, Scan;
    var (me, sh) := (s.gs[g], s.shards[i]);
    var scanned := ScanExists(c.policy, sh);
    NothingExpired(c, sh, me.now, scanned);
    ReachStep(c, s, g, []);
    var s1 := Succ(c, s, g, []);
    assert s1 == s.(owner := s.owner[i := Some(g)], gs := s.gs[g := me.(pc := Cleanup(Swept(i)))]);
    ReachStep(c, s1, g, scanned);
    s' := Succ(c, s1, g, scanned);
    if CleanupDue(c, sh.lastCleanup, me.now) {
      assert s' == s.(owner := s.owner[i := Some(g)], shards := s.shards[i := Marked(c, sh, me.now)],
                      gs := s.gs[g := me.(pc := Delete([], Swept(i)))]);
      ReachStep(c, s', g, []);
      s' := Succ(c, s', g, []);
    }
  }

  lemma {:induction false} Sweeps<S(!new)>(c: Config<S>, s: State<S>, g: nat, i: nat) returns (s': State<S>)
    requires Reach(c, s) && Scarce(c) && Sweeping(c, s, g) && i < c.shardCount && s.gs[g].pc == SweepShardLock(i)
    ensures Reach(c, s') && Sweeping(c, s', g) && SweptInVain(s, s', g) && s'.gs[g].pc == SweepUnlock
    decreases c.shardCount - i
  {
    s' := SweepsShard(c, s, g, i);
    if i + 1 < c.shardCount {
      s' := Sweeps(c, s', g, i + 1);
    }
  }

  /** A request at time zero for a new key with the store full: it starts to sweep. */
  lemma StartsSweep<S(!new)>(c: Config<S>, s: State<S>, g: nat) returns (s': State<S>)
    requires Reach(c, s) && Calm(c, s, 0) && Scarce(c) && c.maxKeys <= s.live && s.lastSweep == None
    requires g < |s.gs| && s.gs[g].pc == Begin && s.gs[g].now == 0
    requires s.gs[g].key !in s.shards[c.hash(s.gs[g].key)].items
    ensures Reach(c, s') && Sweeping(c, s', g) && s'.live == s.live && s'.lastSweep == Some(0)
    ensures s'.gs == s.gs[g := s.gs[g].(pc := SweepShardLock(0), swept := true)]
    ensures forall i :: 0 <= i < c.shardCount ==> s'.shards[i].items == s.shards[i].items
  {
    var home := c.hash(s.gs[g].key);
    CalmClean(c, s.shards[home], 0);
    var s1 := Enters(c, s, g);
    s' := Releases(c, s1, g);
    hide Reach, CleanupDue;
    assert CalmShard(s'.shards[home], 0);
  }

  /** It ends up waiting for the lock it gave up. */
  lemma Waiting<S(!new)>(c: Config<S>, s: State<S>, g: nat) returns (s': State<S>)
    requires Reach(c, s) && Calm(c, s, 0) && Scarce(c) && c.maxKeys <= s.live && s.lastSweep == None
    requires g < |s.gs| && s.gs[g].pc == Begin && s.gs[g].now == 0
    requires s.gs[g].key !in s.shards[c.hash(s.gs[g].key)].items
    ensures Reach(c, s') && Calm(c, s', 0) && s'.live == s.live && s'.lastSweep == Some(0)
    ensures s'.gs == s.gs[g := s.gs[g].(pc := Relock, swept := true)]
    ensures forall i :: 0 <= i < c.shardCount ==> s'.shards[i].items == s.shards[i].items
  {
    var s1 := StartsSweep(c, s, g);
    var s2 := Sweeps(c, s1, g, 0);
    s' := EndsSweep(c, s2, g);
    hide Reach, CalmShard;
  }

  // ---- A request that cleans up ----

  /** The next expired key goes, if it is still there. */
  lemma {:induction false} Deletes<S(!new)>(c: Config<S>, s: State<S>, g: nat) returns (s': State<S>)
    requires Reach(c, s) && Shape(c, s) && g < |s.gs| && s.gs[g].pc.Delete? && s.gs[g].pc.cont == Miss
    ensures Reach(c, s') && Shape(c, s')
    ensures var (home, batch) := (c.hash(s.gs[g].key), s.gs[g].pc.batch);
            && Only(s, s', g, home) && s'.owner == s.owner && s'.gs[g] == s.gs[g].(pc := Reserve)
            && s'.live <= s.live - (if batch != [] && batch[0] in s.shards[home].items then 1 else 0)
            && s'.shards[home].lastCleanup == s.shards[home].lastCleanup
            && s'.shards[home].items.Keys <= s.shards[home].items.Keys
            && (forall k :: k in s'.shards[home].items ==> s'.shards[home].items[k] == s.shards[home].items[k])
    decreases s.gs[g].pc.batch
  {
    hide Reach, Without;
    var (me, home) := (s.gs[g], c.hash(s.gs[g].key));
    var batch := me.pc.batch;
    ReachStep(c, s, g, []);
    var s1 := Succ(c, s, g, []);
    if batch == [] {
      s' := s1;
    } else {
      if batch[0] in s.shards[home].items {
        ReachStep(c, s1, g, []);
        s1 := Succ(c, s1, g, []);
        assert s1 == s.(live := s.live - 1, shards := s.shards[home := Remove(s.shards[home], batch[0])],
                        log := s1.log, gs := s.gs[g := me.(pc := Delete(batch[1..], Miss))]);
      } else {
        assert s1 == s.(gs := s.gs[g := me.(pc := Delete(batch[1..], Miss))]);
      }
      hide Succ;
      s' := Deletes(c, s1, g);
    }
  }

  /** A time at which an entry of time zero has expired and a cleanup is due again. */
  function Late<S>(c: Config<S>): nat { c.keyTTL + c.cleanupInterval }

  lemma {:induction false} SomeExpired<S>(c: Config<S>, sh: Shard<nat>, scanned: seq<Key>)
    requires CalmShard(sh, 0) && sh.items != map[] && Scan(EvictReject, sh, scanned)
    ensures var batch := ExpiredOf(c, sh, Late(c), scanned);
            batch != [] && batch[0] in sh.items
  {
    ExpiredOfMembers(c, sh, Late(c), scanned);
    hide ExpiredOf;
    var batch := ExpiredOf(c, sh, Late(c), scanned);
    var k :| k in sh.items.Keys;
    assert |sh.items.Keys| == |sh.items| > 0;
    assert scanned[0] in scanned;
    assert scanned[0] in batch;
    assert batch[0] in batch;
  }

  /** A late request for a new key of a shard that has others. */
  lemma FindsExpired<S(!new)>(c: Config<S>, s: State<S>, g: nat) returns (s': State<S>)
    requires Reach(c, s) && Shape(c, s) && Scarce(c) && g < |s.gs| && s.gs[g].pc == Begin && s.gs[g].now == Late(c)
    requires var (me, home) := (s.gs[g], c.hash(s.gs[g].key));
             && s.owner[home] == None && me.key !in s.shards[home].items
             && CalmShard(s.shards[home], 0) && s.shards[home].items != map[]
    ensures Reach(c, s') && Shape(c, s') && |s'.gs| == |s.gs|
    ensures var home := c.hash(s.gs[g].key);
            && s'.gs[g].pc.Delete? && s'.gs[g].pc.cont == Miss
            && s' == s.(owner := s.owner[home := Some(g)], gs := s.gs[g := s.gs[g].(pc := s'.gs[g].pc)],
                        shards := s.shards[home := s.shards[home].(lastCleanup := Some(Late(c)))])
            && s'.gs[g].pc.batch != [] && s'.gs[g].pc.batch[0] in s.shards[home].items
  {
    var (me, home) := (s.gs[g], c.hash(s.gs[g].key));
    var sh := s.shards[home];
    var scanned := ScanExists(c.policy, sh);
    SomeExpired(c, sh, scanned);
    hide Reach, ExpiredOf, Scan;
    assert CleanupDue(c, sh.lastCleanup, me.now);
    hide CalmShard, CleanupDue;
    ReachStep(c, s, g, []);
    var s1 := Succ(c, s, g, []);
    assert s1 == s.(owner := s.owner[home := Some(g)], gs := s.gs[g := me.(pc := Lookup)]);
    ReachStep(c, s1, g, []);
    var s2 := Succ(c, s1, g, []);
    assert s2 == s.(owner := s.owner[home := Some(g)], gs := s.gs[g := me.(pc := Cleanup(Miss))]);
    ReachStep(c, s2, g, scanned);
    s' := Succ(c, s2, g, scanned);
  }

  /** It drops expired keys, at least one. */
  lemma Cleans<S(!new)>(c: Config<S>, s: State<S>, g: nat) returns (s': State<S>)
    requires Reach(c, s) && Calm(c, s, 0) && Scarce(c) && s.live <= c.maxKeys
    requires g < |s.gs| && s.gs[g].pc == Begin && s.gs[g].now == Late(c)
    requires var (me, home) := (s.gs[g], c.hash(s.gs[g].key));
             me.key !in s.shards[home].items && s.shards[home].items != map[]
    ensures Reach(c, s') && Shape(c, s') && s'.live < c.maxKeys
    ensures var (me, home) := (s.gs[g], c.hash(s.gs[g].key));
            && Only(s, s', g, home) && s'.gs[g] == me.(pc := Reserve) && s'.owner[home] == Some(g)
            && me.key !in s'.shards[home].items && CalmShard(s'.shards[home], Late(c))
            && s'.shards[home].items.Keys <= s.shards[home].items.Keys
  {
    var (me, home) := (s.gs[g], c.hash(s.gs[g].key));
    var s1 := FindsExpired(c, s, g);
    assert Only(s, s1, g, home);
    s' := Deletes(c, s1, g);
    hide Reach;
    assert CalmShard(s'.shards[home], Late(c));
    OnlyTwice(s, s1, s', g, home);
  }

  /** It takes the place of an expired key. */
  lemma Replaces<S(!new)>(c: Config<S>, s: State<S>, g: nat) returns (s': State<S>)
    requires Reach(c, s) && Calm(c, s, 0) && Scarce(c) && s.live <= c.maxKeys
    requires g < |s.gs| && s.gs[g].pc == Begin && s.gs[g].now == Late(c)
    requires var (me, home) := (s.gs[g], c.hash(s.gs[g].key));
             me.key !in s.shards[home].items && s.shards[home].items != map[]
    ensures Reach(c, s') && Calm(c, s', Late(c)) && s'.live <= c.maxKeys
    ensures |s'.gs| == |s.gs| && s'.gs == s.gs[g := s'.gs[g]]
    ensures s.gs[g].key in s'.shards[c.hash(s.gs[g].key)].items
    ensures forall k: Key :: k in s'.shards[c.hash(k)].items ==> k in s.shards[c.hash(k)].items || k == s.gs[g].key
  {
    hide Reach, Only;
    var s1 := Cleans(c, s, g);
    OnlyGs(s, s1, g, c.hash(s.gs[g].key));
    s' := Settles(c, s, s1, g);
  }

  /** Having cleaned up, it stores its key and returns. */
  lemma Settles<S(!new)>(c: Config<S>, s: State<S>, s1: State<S>, g: nat) returns (s': State<S>)
    requires Calm(c, s, 0) && Scarce(c) && g < |s.gs| == |s1.gs| && s.gs[g].now == Late(c)
    requires Reach(c, s1) && Shape(c, s1) && s1.live < c.maxKeys
    requires var (me, home) := (s.gs[g], c.hash(s.gs[g].key));
             && Only(s, s1, g, home) && s1.gs[g] == me.(pc := Reserve) && s1.owner[home] == Some(g)
             && me.key !in s1.shards[home].items && CalmShard(s1.shards[home], Late(c))
             && s1.shards[home].items.Keys <= s.shards[home].items.Keys
    ensures Reach(c, s') && Calm(c, s', Late(c)) && s'.live == s1.live + 1 && s'.lastSweep == s.lastSweep
    ensures |s'.gs| == |s.gs| && s'.gs == s.gs[g := s'.gs[g]]
    ensures s.gs[g].key in s'.shards[c.hash(s.gs[g].key)].items
    ensures forall k: Key :: k in s'.shards[c.hash(k)].items ==> k in s.shards[c.hash(k)].items || k == s.gs[g].key
  {
    hide Reach, Only, ToFront;
    var home := c.hash(s.gs[g].key);
    s' := Stores(c, s1, g);
    assert CalmShard(s'.shards[home], Late(c));
    OnlyTwice(s, s1, s', g, home);
    OnlyCalm(c, s, s', g, home, 0, Late(c));
    OnlyKeys(c, s, s', g, home);
    OnlyGs(s, s', g, home);
    hide Calm, CalmShard;
  }

  lemma OnlyGs<S>(s: State<S>, s': State<S>, g: nat, home: nat)
    requires Only(s, s', g, home)
    ensures g < |s'.gs| == |s.gs| && s'.gs == s.gs[g := s'.gs[g]] && s'.lastSweep == s.lastSweep
  {}

  // ---- The whole execution ----

  /** Goroutines from `next` on are to serve new keys at time zero, none of them `key`. */
  ghost predicate Fillers<S>(c: Config<S>, s: State<S>, next: nat, key: Key)
    requires Shape(c, s)
  {
    && next <= |s.gs|
    && (forall h :: next <= h < |s.gs| ==>
          && s.gs[h].pc == Begin && s.gs[h].now == 0 && s.gs[h].key != key
          && s.gs[h].key !in s.shards[c.hash(s.gs[h].key)].items)
    && (forall h, h' :: next <= h < h' < |s.gs| ==> s.gs[h].key != s.gs[h'].key)
  }

  lemma {:induction false} FillsUp<S(!new)>(c: Config<S>, s: State<S>, next: nat, hi: nat, key: Key, goal: nat)
    returns (s': State<S>)
    requires Reach(c, s) && Calm(c, s, hi) && Rejecting(c) && s.live <= goal <= c.maxKeys
    requires Fillers(c, s, next, key) && goal - s.live <= |s.gs| - next
    ensures Reach(c, s') && Calm(c, s', hi) && s'.live == goal && s'.lastSweep == s.lastSweep
    ensures |s'.gs| == |s.gs| && (forall h :: 0 <= h < next ==> s'.gs[h] == s.gs[h])
    ensures forall h :: next + goal - s.live <= h < |s.gs| ==> s'.gs[h] == s.gs[h]
    ensures Fillers(c, s', next + goal - s.live, key)
    ensures forall k: Key :: k in s.shards[c.hash(k)].items ==> k in s'.shards[c.hash(k)].items
    ensures key in s.shards[c.hash(key)].items <==> key in s'.shards[c.hash(key)].items
    ensures s.live < goal ==> s.gs[next].key in s'.shards[c.hash(s.gs[next].key)].items
    decreases goal - s.live
  {
    hide Reach, CalmShard;
    if s.live == goal {
      s' := s;
    } else {
      var s1 := Fills(c, s, next, hi);
      s' := FillsUp(c, s1, next + 1, hi, key, goal);
    }
  }

  /** The request that gave up its lock finds the store full again. */
  lemma Rejects<S(!new)>(c: Config<S>, s: State<S>, g: nat) returns (s': State<S>)
    requires Reach(c, s) && Shape(c, s) && Scarce(c) && c.maxKeys <= s.live
    requires g < |s.gs| && s.gs[g].pc == Relock && s.gs[g].swept && s.owner[c.hash(s.gs[g].key)] == None
    ensures Reach(c, s') && Shape(c, s') && s'.shards == s.shards && |s'.gs| == |s.gs|
    ensures s'.gs[g] == s.gs[g].(pc := Unlock(MaxKeysExceeded))
  {
    hide Reach;
    ReachStep(c, s, g, []);
    var s1 := Succ(c, s, g, []);
    ReachStep(c, s1, g, []);
    s' := Succ(c, s1, g, []);
  }

  // ---- Two keys of one shard ----

  function Name(i: nat): (name: Key)
    ensures |name| == i
  {
    seq(i, _ => 'a')
  }

  ghost function Below(n: nat): (b: set<nat>)
    ensures |b| == n && forall i: nat :: i in b <==> i < n
  {
    if n == 0 then {} else Below(n - 1) + {n - 1}
  }

  ghost predicate Collide<S>(c: Config<S>, i: nat, j: nat) { c.hash(Name(i)) == c.hash(Name(j)) }

  /** Names of different shards use up as many shards. */
  lemma {:induction false} Spread<S>(c: Config<S>, from: nat, m: nat) returns (used: set<nat>)
    requires c.Valid() && from <= m && forall i: nat, j: nat :: from <= i < j < m ==> !Collide(c, i, j)
    ensures |used| == m - from && used <= Below(c.shardCount)
    ensures forall i: nat :: from <= i < m ==> c.hash(Name(i)) in used
    ensures forall h :: h in used ==> exists i: nat :: from <= i < m && c.hash(Name(i)) == h
    decreases m
  {
    if m == from {
      used := {};
    } else {
      used := Spread(c, from, m - 1);
      var h := c.hash(Name(m - 1));
      if h in used {
        var i: nat :| from <= i < m - 1 && c.hash(Name(i)) == h;
        assert Collide(c, i, m - 1);
      }
      used := used + {h};
    }
  }

  lemma {:induction false} SubsetSize(a: set<nat>, b: set<nat>)
    requires a <= b
    ensures |a| <= |b|
    decreases |a|
  {
    if a != {} {
      var x :| x in a;
      SubsetSize(a - {x}, b - {x});
    }
  }

  lemma SameShard<S>(c: Config<S>, from: nat) returns (i: nat, j: nat)
    requires c.Valid()
    ensures from <= i < j <= from + c.shardCount && Collide(c, i, j)
  {
    var m := from + c.shardCount + 1;
    if forall i: nat, j: nat :: from <= i < j < m ==> !Collide(c, i, j) {
      var used := Spread(c, from, m);
      SubsetSize(used, Below(c.shardCount));
      assert false;
    }
    i, j :| from <= i < j < m && Collide(c, i, j);
  }

  // ---- The execution ----

  /** Goroutines 0 and 1 are to serve `key`, at time zero and late, the others new keys at
      time zero, the first of them of the same shard. */
  ghost function Cast<S>(c: Config<S>, key: Key, keys: seq<Key>): (gs: seq<Goroutine>)
    ensures |gs| == 2 + |keys|
    ensures gs[0] == Goroutine(key, 0, false, Begin) && gs[1] == Goroutine(key, Late(c), false, Begin)
    ensures forall h :: 2 <= h < |gs| ==> gs[h] == Goroutine(keys[h - 2], 0, false, Begin)
  {
    [Goroutine(key, 0, false, Begin), Goroutine(key, Late(c), false, Begin)]
    + seq(|keys|, i requires 0 <= i < |keys| => Goroutine(keys[i], 0, false, Begin))
  }

  ghost function Empty<S>(c: Config<S>, gs: seq<Goroutine>): State<S> {
    State(0, 0, seq(c.shardCount, _ => EMPTY_SHARD), seq(c.shardCount, _ => None), None, None, [], gs, [])
  }

  lemma EmptyReached<S(!new)>(c: Config<S>, gs: seq<Goroutine>)
    requires c.Valid() && forall g :: 0 <= g < |gs| ==> gs[g].pc == Begin
    ensures Reach(c, Empty(c, gs)) && Calm(c, Empty(c, gs), 0)
    ensures forall k: Key :: k !in Empty(c, gs).shards[c.hash(k)].items
  {
    var run := [Empty(c, gs)];
    assert Init(c, run[0]);
    assert Execution(c, run) && run[|run| - 1] == Empty(c, gs);
  }

  lemma Starts<S(!new)>(c: Config<S>, key: Key, keys: seq<Key>) returns (s: State<S>)
    requires c.Valid() && key !in keys && forall i, j :: 0 <= i < j < |keys| ==> keys[i] != keys[j]
    ensures Reach(c, s) && Calm(c, s, 0) && Fillers(c, s, 2, key) && s.live == 0 && s.lastSweep == None
    ensures s.gs == Cast(c, key, keys) && forall k: Key :: k !in s.shards[c.hash(k)].items
  {
    hide Reach, Cast, Calm;
    EmptyReached(c, Cast(c, key, keys));
    s := Empty(c, Cast(c, key, keys));
    CalmFree(c, s, 0, c.hash(key));
  }

  /** `key` is stored and the request for it that has just been turned away holds its lock. */
  ghost predicate RejectedStored<S>(c: Config<S>, s: State<S>, g: nat) {
    && Shape(c, s) && g < |s.gs| && s.gs[g].pc == Unlock(MaxKeysExceeded)
    && s.gs[g].key in s.shards[c.hash(s.gs[g].key)].items
  }

  /** The store is full, and goroutine 0 has found it so and waits for its lock again. */
  lemma FillsAndWaits<S(!new)>(c: Config<S>, s: State<S>, key: Key) returns (s': State<S>)
    requires Scarce(c) && Reach(c, s) && Calm(c, s, 0) && Fillers(c, s, 2, key) && s.live == 0 && s.lastSweep == None
    requires |s.gs| >= 2 + 2 * c.maxKeys && c.hash(s.gs[2].key) == c.hash(key)
    requires s.gs[0] == Goroutine(key, 0, false, Begin) && s.gs[1] == Goroutine(key, Late(c), false, Begin)
    requires key !in s.shards[c.hash(key)].items
    ensures Reach(c, s') && Calm(c, s', 0) && s'.live == c.maxKeys && s'.lastSweep == Some(0)
    ensures Fillers(c, s', 2 + c.maxKeys, key)
    ensures |s'.gs| == |s.gs| && s'.gs[0] == Goroutine(key, 0, true, Relock) && s'.gs[1] == s.gs[1]
    ensures forall h :: 2 + c.maxKeys <= h < |s.gs| ==> s'.gs[h] == s.gs[h]
    ensures key !in s'.shards[c.hash(key)].items && s'.shards[c.hash(key)].items != map[]
  {
    var s1 := FillsUp(c, s, 2, 0, key, c.maxKeys);
    s' := Waiting(c, s1, 0);
    hide Reach, Calm, Fillers;
    FillersKept(c, s1, s', 2 + c.maxKeys, key);
    assert s.gs[2].key in s'.shards[c.hash(key)].items;
  }

  lemma Acts<S(!new)>(c: Config<S>, s: State<S>, key: Key) returns (s': State<S>)
    requires Scarce(c) && Reach(c, s) && Calm(c, s, 0) && Fillers(c, s, 2, key) && s.live == 0 && s.lastSweep == None
    requires |s.gs| >= 2 + 2 * c.maxKeys && c.hash(s.gs[2].key) == c.hash(key)
    requires s.gs[0] == Goroutine(key, 0, false, Begin) && s.gs[1] == Goroutine(key, Late(c), false, Begin)
    requires key !in s.shards[c.hash(key)].items
    ensures Reach(c, s') && RejectedStored(c, s', 0)
  {
    hide Reach, Fillers;
    var s2 := FillsAndWaits(c, s, key);
    var s3 := Replaces(c, s2, 1);
    FillersKept(c, s2, s3, 2 + c.maxKeys, key);
    LiveIsNat(c, s3);
    var s4 := FillsUp(c, s3, 2 + c.maxKeys, Late(c), key, c.maxKeys);
    CalmFree(c, s4, Late(c), c.hash(key));
    hide Calm;
    s' := Rejects(c, s4, 0);
  }

  lemma CalmFree<S>(c: Config<S>, s: State<S>, hi: int, i: nat)
    requires Calm(c, s, hi) && i < c.shardCount
    ensures Shape(c, s) && s.owner[i] == None
  {}

  lemma LiveIsNat<S(!new)>(c: Config<S>, s: State<S>)
    requires Reach(c, s)
    ensures s.live >= 0
  {
    var run: seq<State<S>> :| Execution(c, run) && run[|run| - 1] == s;
    hide Execution;
    assert |run| > 0 by { StartsAtBegin(c, run); }
    ReachableInv(c, run, |run| - 1);
  }

  lemma FillersKept<S>(c: Config<S>, s: State<S>, s': State<S>, next: nat, key: Key)
    requires Shape(c, s) && Shape(c, s') && Fillers(c, s, next, key) && |s'.gs| == |s.gs|
    requires forall h :: next <= h < |s.gs| ==> s'.gs[h] == s.gs[h]
    requires forall k: Key :: k in s'.shards[c.hash(k)].items ==> k in s.shards[c.hash(k)].items || k == key
    ensures Fillers(c, s', next, key)
  {}

  /** In every configuration with a cap and a TTL some execution turns a request away while
      its key is stored. */
  lemma TurnsStoredAway<S(!new)>(c: Config<S>) returns (run: seq<State<S>>)
    requires c.Valid() && Scarce(c)
    ensures Execution(c, run) && RejectedStored(c, run[|run| - 1], 0)
  {
    hide RejectedStored;
    var s := ReachesStored(c);
    run :| Execution(c, run) && run[|run| - 1] == s;
  }

  lemma ReachesStored<S(!new)>(c: Config<S>) returns (s: State<S>)
    requires c.Valid() && Scarce(c)
    ensures Reach(c, s) && RejectedStored(c, s, 0)
  {
    hide Reach, Calm, Fillers, RejectedStored, Cast;
    var i, j := SameShard(c, 0);
    var keys := OtherKeys(c, 0, i, j);
    var start := Starts(c, Name(j), keys);
    assert start.gs[2].key == keys[0];
    s := Acts(c, start, Name(j));
  }

  lemma OtherKeys<S>(c: Config<S>, from: nat, i: nat, j: nat) returns (keys: seq<Key>)
    requires from <= i < j <= from + c.shardCount && c.maxKeys > 0
    ensures |keys| == 2 * c.maxKeys && keys[0] == Name(i) && forall a :: 0 <= a < |keys| ==> |keys[a]| >= from
    ensures Name(j) !in keys && forall a, b :: 0 <= a < b < |keys| ==> keys[a] != keys[b]
  {
    var n := from + c.shardCount;
    keys := [Name(i)] + seq(2 * c.maxKeys - 1, t requires 0 <= t => Name(n + 1 + t));
    forall a | 0 < a < |keys| ensures |keys[a]| == n + a {
      assert keys[a] == Name(n + 1 + (a - 1));
    }
    assert forall a :: 0 <= a < |keys| ==> |keys[a]| != |Name(j)|;
  }

  // ---- The exact condition ----

  /** Whoever is turned away does not have its key in the store. */
  ghost predicate RejectsOnlyAbsent<S(!new)>(c: Config<S>) {
    forall run: seq<State<S>>, i: nat, g: nat ::
      Execution(c, run) && i < |run| ==> !RejectedStored(c, run[i], g)
  }

  /** The options tell: a stored key can be turned away exactly under EvictReject with a cap
      and with a TTL. */
  lemma RejectsOnlyAbsentIff<S(!new)>(c: Config<S>)
    requires c.Valid()
    ensures RejectsOnlyAbsent(c) <==> c.policy == EvictLRU || c.maxKeys == 0 || !c.CleanupEnabled()
  {
    if Scarce(c) {
      var run := TurnsStoredAway(c);
      assert !RejectsOnlyAbsent(c);
    } else {
      forall run: seq<State<S>>, i: nat, g: nat | Execution(c, run) && i < |run|
        ensures !RejectedStored(c, run[i], g)
      {
        hide Execution, Inv;
        if RejectedStored(c, run[i], g) {
          ReachableInv(c, run, i);
          RejectedOptions(c, run[i], g);
          AbsentWhenRejected(c, run, i, i, g);
        }
      }
    }
  }

  lemma RejectedOptions<S>(c: Config<S>, s: State<S>, g: nat)
    requires Inv(c, s) && g < |s.gs| && Rejected(s.gs[g].pc)
    ensures c.policy == EvictReject && c.maxKeys > 0
  {
    hide Locks, History, Answers, AllHomes, Counted;
    assert PcOk(c, s.shards[c.hash(s.gs[g].key)], s.gs[g]);
  }
}
