/** With keys of different shards an EvictReject store can turn a request away although it
    holds fewer keys than the cap all the time the request is under way: a slot is reserved
    under another lock, and its key not stored yet. */
module NotYetFull {
  import opened Limiter
  import opened Shards
  import opened Protocol
  import opened ProtocolInvariant
  import opened ProtocolTheorems
  import opened Rejections
  import opened FullStores
  import opened StoredRejected

  // ---- Runs in which a goroutine has its slot reserved while another is under way ----

  ghost predicate Watched<S>(s: State<S>, b: nat, x: nat) {
    b < |s.gs| && x < |s.gs| && (!s.gs[b].pc.Begin? ==> s.gs[x].pc.Create?)
  }

  ghost predicate LowReach<S(!new)>(c: Config<S>, s: State<S>, b: nat, x: nat) {
    exists run: seq<State<S>> ::
      && Execution(c, run) && run[|run| - 1] == s
      && forall j :: 0 <= j < |run| ==> Watched(run[j], b, x)
  }

  lemma WatchedFromStart<S(!new)>(c: Config<S>, s: State<S>, b: nat, x: nat)
    requires Reach(c, s) && b < |s.gs| && x < |s.gs| && s.gs[b].pc.Begin?
    ensures LowReach(c, s, b, x)
  {
    var run: seq<State<S>> :| Execution(c, run) && run[|run| - 1] == s;
    forall j | 0 <= j < |run| ensures Watched(run[j], b, x) {
      BeginBefore(c, run, j, |run| - 1, b);
    }
  }

  lemma LowStep<S(!new)>(c: Config<S>, s: State<S>, b: nat, x: nat, scanned: seq<Key>)
    requires LowReach(c, s, b, x) && Shape(c, s) && b < |s.gs| && x < |s.gs| && b != x && s.gs[x].pc.Create?
    requires Ready(c, s, b) && MayScan(c, s, b, scanned)
    ensures LowReach(c, Succ(c, s, b, scanned), b, x)
  {
    hide Init, Ready, Succ, MayScan, Watched, PastMiss, Rejected, LooksInVain, FindsFull;
    var run: seq<State<S>> :| Execution(c, run) && run[|run| - 1] == s
                              && forall j :: 0 <= j < |run| ==> Watched(run[j], b, x);
    var s' := Succ(c, s, b, scanned);
    assert Next(c, s, b, s');
    AnyStepFor(c, s, b, s');
    var longer := run + [s'];
    forall i | 0 <= i < |longer| - 1 ensures Step(c, longer[i], longer[i + 1]) {
      if i < |run| - 1 {
        assert Step(c, run[i], run[i + 1]);
      }
    }
    assert Watched(s', b, x) by { WatchedAt(s', b, x); }
    assert longer[|longer| - 1] == s';
  }

  lemma WatchedAt<S>(s: State<S>, b: nat, x: nat)
    requires b < |s.gs| && x < |s.gs| && s.gs[x].pc.Create?
    ensures Watched(s, b, x)
  {}

  // ---- A request that is turned away meanwhile ----

  /** It misses its key and cleans up nothing. */
  lemma LowEnters<S(!new)>(c: Config<S>, s: State<S>, b: nat, x: nat) returns (s': State<S>)
    requires LowReach(c, s, b, x) && Shape(c, s) && b < |s.gs| && x < |s.gs| && b != x && s.gs[x].pc.Create?
    requires s.gs[b].pc == Begin && Rejecting(c)
    requires var (me, home) := (s.gs[b], c.hash(s.gs[b].key));
             && s.owner[home] == None && me.key !in s.shards[home].items
             && (c.CleanupEnabled() ==> Clean(c, s.shards[home], me.now))
    ensures LowReach(c, s', b, x) && Shape(c, s')
    ensures var (me, home) := (s.gs[b], c.hash(s.gs[b].key));
            s' == s.(owner := s.owner[home := Some(b)], gs := s.gs[b := me.(pc := Reserve)],
                     shards := s.shards[home := Marked(c, s.shards[home], me.now)])
  {
    hide LowReach, ExpiredOf, Scan;
    var (me, home) := (s.gs[b], c.hash(s.gs[b].key));
    var sh := s.shards[home];
    var scanned := ScanExists(c.policy, sh);
    if c.CleanupEnabled() {
      NothingExpired(c, sh, me.now, scanned);
    }
    LowStep(c, s, b, x, []);
    var s1 := Succ(c, s, b, []);
    assert s1 == s.(owner := s.owner[home := Some(b)], gs := s.gs[b := me.(pc := Lookup)]);
    LowStep(c, s1, b, x, []);
    var s2 := Succ(c, s1, b, []);
    assert s2 == s.(owner := s.owner[home := Some(b)], gs := s.gs[b := me.(pc := Cleanup(Miss))]);
    LowStep(c, s2, b, x, scanned);
    s' := Succ(c, s2, b, scanned);
    if CleanupDue(c, sh.lastCleanup, me.now) {
      assert s' == s.(owner := s.owner[home := Some(b)], gs := s.gs[b := me.(pc := Delete([], Miss))],
                      shards := s.shards[home := Marked(c, sh, me.now)]);
      LowStep(c, s', b, x, []);
      s' := Succ(c, s', b, []);
    }
  }

  /** It finds the counter at the cap, with no sweep due. */
  lemma LowReleases<S(!new)>(c: Config<S>, s: State<S>, b: nat, x: nat) returns (s': State<S>)
    requires LowReach(c, s, b, x) && Shape(c, s) && b < |s.gs| && x < |s.gs| && b != x && s.gs[x].pc.Create?
    requires s.gs[b].pc == Reserve && Rejecting(c) && c.maxKeys <= s.live && s.sweepOwner == None
    requires !CleanupDue(c, s.lastSweep, s.gs[b].now)
    ensures LowReach(c, s', b, x) && Shape(c, s')
    ensures var (me, home) := (s.gs[b], c.hash(s.gs[b].key));
            s' == s.(owner := s.owner[home := None], gs := s.gs[b := me.(pc := Relock, swept := true)])
  {
    hide LowReach, CleanupDue;
    var (me, home) := (s.gs[b].(swept := false), c.hash(s.gs[b].key));
    LowStep(c, s, b, x, []);
    var s1 := Succ(c, s, b, []);
    assert s1 == s.(gs := s.gs[b := me.(pc := Load)]);
    LowStep(c, s1, b, x, []);
    var s2 := Succ(c, s1, b, []);
    assert s2 == s.(gs := s.gs[b := me.(pc := Release)]);
    LowStep(c, s2, b, x, []);
    s' := Succ(c, s2, b, []);
    if c.CleanupEnabled() {
      s' := GatePasses(c, s', b, x);
      assert s'.gs == s.gs[b := me.(pc := Relock, swept := true)];
    }
  }

  lemma GatePasses<S(!new)>(c: Config<S>, s: State<S>, b: nat, x: nat) returns (s': State<S>)
    requires LowReach(c, s, b, x) && Shape(c, s) && b < |s.gs| && x < |s.gs| && b != x && s.gs[x].pc.Create?
    requires s.gs[b].pc == SweepLock && c.policy == EvictReject && s.sweepOwner == None
    requires !CleanupDue(c, s.lastSweep, s.gs[b].now)
    ensures LowReach(c, s', b, x) && s' == s.(gs := s.gs[b := s.gs[b].(pc := Relock)])
  {
    hide LowReach, CleanupDue;
    var me := s.gs[b];
    LowStep(c, s, b, x, []);
    var s1 := Succ(c, s, b, []);
    assert s1 == s.(sweepOwner := Some(b), gs := s.gs[b := me.(pc := SweepGate)]);
    LowStep(c, s1, b, x, []);
    var s2 := Succ(c, s1, b, []);
    assert s2 == s.(sweepOwner := Some(b), gs := s.gs[b := me.(pc := SweepUnlock)]);
    LowStep(c, s2, b, x, []);
    s' := Succ(c, s2, b, []);
  }

  lemma LowRejects<S(!new)>(c: Config<S>, s: State<S>, b: nat, x: nat) returns (s': State<S>)
    requires LowReach(c, s, b, x) && Shape(c, s) && b < |s.gs| && x < |s.gs| && b != x && s.gs[x].pc.Create?
    requires s.gs[b].pc == Relock && s.gs[b].swept && Rejecting(c) && c.maxKeys <= s.live
    requires s.owner[c.hash(s.gs[b].key)] == None
    ensures LowReach(c, s', b, x) && |s'.gs| == |s.gs| && s'.gs[b].pc == Unlock(MaxKeysExceeded)
  {
    hide LowReach;
    LowStep(c, s, b, x, []);
    var s1 := Succ(c, s, b, []);
    assert s1 == s.(owner := s1.owner, gs := s.gs[b := s.gs[b].(pc := Load)]);
    LowStep(c, s1, b, x, []);
    s' := Succ(c, s1, b, []);
  }

  /** A slot is reserved and not used: everything else is at rest, and no sweep is due. */
  ghost predicate Pending<S>(c: Config<S>, s: State<S>, x: nat, hi: int) {
    && Shape(c, s) && x < |s.gs| && s.gs[x].pc.Create? && s.live == c.maxKeys && s.sweepOwner == None
    && !CleanupDue(c, s.lastSweep, 0)
    && (forall i :: 0 <= i < c.shardCount ==> CalmShard(s.shards[i], hi))
    && (forall i :: 0 <= i < c.shardCount && i != c.hash(s.gs[x].key) ==> s.owner[i] == None)
  }

  lemma TurnedAway<S(!new)>(c: Config<S>, s: State<S>, b: nat, x: nat, hi: nat) returns (s': State<S>)
    requires Reach(c, s) && Rejecting(c) && Pending(c, s, x, hi)
    requires b < |s.gs| && s.gs[b].pc == Begin && s.gs[b].now == 0
    requires var home := c.hash(s.gs[b].key);
             home != c.hash(s.gs[x].key) && s.gs[b].key !in s.shards[home].items
    ensures LowReach(c, s', b, x) && b < |s'.gs| && s'.gs[b].pc == Unlock(MaxKeysExceeded)
  {
    hide Reach, LowReach, CleanupDue;
    var home := c.hash(s.gs[b].key);
    CalmClean(c, s.shards[home], hi);
    WatchedFromStart(c, s, b, x);
    var s1 := LowEnters(c, s, b, x);
    var s2 := LowReleases(c, s1, b, x);
    s' := LowRejects(c, s2, b, x);
  }

  // ---- How it comes to that ----

  /** Goroutine `x` reserves the last slot. */
  lemma ReservesLast<S(!new)>(c: Config<S>, s: State<S>, x: nat, hi: nat) returns (s': State<S>)
    requires Reach(c, s) && Calm(c, s, hi) && Rejecting(c) && s.live == c.maxKeys - 1 && !CleanupDue(c, s.lastSweep, 0)
    requires x < |s.gs| && s.gs[x].pc == Begin && s.gs[x].now == 0
    requires s.gs[x].key !in s.shards[c.hash(s.gs[x].key)].items
    ensures Reach(c, s') && Pending(c, s', x, hi) && |s'.gs| == |s.gs| && s'.gs == s.gs[x := s'.gs[x]]
    ensures s'.gs[x].key == s.gs[x].key
    ensures forall k: Key :: k in s'.shards[c.hash(k)].items <==> k in s.shards[c.hash(k)].items
  {
    hide Reach, Only;
    var home := c.hash(s.gs[x].key);
    CalmClean(c, s.shards[home], hi);
    var s1 := Enters(c, s, x);
    OnlyGs(s, s1, x, home);
    s' := Reserves(c, s1, x);
    OnlyTwice(s, s1, s', x, home);
    PendingFrom(c, s, s', x, hi);
    OnlyKeys(c, s, s', x, home);
    OnlyGs(s, s', x, home);
  }

  lemma PendingFrom<S>(c: Config<S>, s: State<S>, s': State<S>, x: nat, hi: nat)
    requires Calm(c, s, hi) && Shape(c, s') && x < |s.gs| && Only(s, s', x, c.hash(s.gs[x].key))
    requires s'.gs[x].pc.Create? && s'.gs[x].key == s.gs[x].key && s'.live == c.maxKeys
    requires !CleanupDue(c, s.lastSweep, 0)
    requires s'.shards[c.hash(s.gs[x].key)] == Marked(c, s.shards[c.hash(s.gs[x].key)], 0)
    ensures Pending(c, s', x, hi)
  {
    var home := c.hash(s.gs[x].key);
    assert CalmShard(s'.shards[home], hi);
  }

  /** The last two goroutines, which are to serve keys of different shards, are still to begin. */
  ghost predicate TwoLeft<S>(c: Config<S>, s: State<S>, u: Key, v: Key)
    requires Shape(c, s)
  {
    var n := |s.gs|;
    && n >= 2 && s.gs[n - 2] == Goroutine(u, 0, false, Begin) && s.gs[n - 1] == Goroutine(v, 0, false, Begin)
    && u !in s.shards[c.hash(u)].items && v !in s.shards[c.hash(v)].items
  }

  /** Without a TTL. */
  lemma PendsWithoutTtl<S(!new)>(c: Config<S>, s: State<S>, key: Key, u: Key, v: Key) returns (s': State<S>, x: nat)
    requires Rejecting(c) && !c.CleanupEnabled() && Reach(c, s) && Calm(c, s, 0) && Fillers(c, s, 2, key) && s.live == 0
    requires |s.gs| == 4 + 2 * c.maxKeys && TwoLeft(c, s, u, v)
    ensures Reach(c, s') && Pending(c, s', x, 0) && TwoLeft(c, s', u, v) && x + 2 < |s'.gs|
  {
    hide Reach, Calm, Fillers, Pending;
    s', x := PendsFrom(c, s, 2, 0, key, u, v);
  }

  /** With a TTL, after a sweep in vain: a late request makes room, and takes it itself or
      leaves more to fill. */
  lemma PendsWithTtl<S(!new)>(c: Config<S>, s: State<S>, key: Key, u: Key, v: Key) returns (s': State<S>, x: nat)
    requires Scarce(c) && Reach(c, s) && Calm(c, s, 0) && Fillers(c, s, 2, key) && s.live == 0 && s.lastSweep == None
    requires |s.gs| == 4 + 2 * c.maxKeys && c.hash(s.gs[2].key) == c.hash(key) && TwoLeft(c, s, u, v)
    requires s.gs[0] == Goroutine(key, 0, false, Begin) && s.gs[1] == Goroutine(key, Late(c), false, Begin)
    requires key !in s.shards[c.hash(key)].items
    ensures Reach(c, s') && Pending(c, s', x, Late(c)) && TwoLeft(c, s', u, v) && x + 2 < |s'.gs|
  {
    hide Reach, CalmShard;
    var s1 := FillsAndWaits(c, s, key);
    s', x := MakesRoom(c, s1, key, u, v);
  }

  lemma MakesRoom<S(!new)>(c: Config<S>, s: State<S>, key: Key, u: Key, v: Key) returns (s': State<S>, x: nat)
    requires Scarce(c) && Reach(c, s) && Calm(c, s, 0) && s.live == c.maxKeys && s.lastSweep == Some(0)
    requires |s.gs| == 4 + 2 * c.maxKeys && Fillers(c, s, 2 + c.maxKeys, key) && TwoLeft(c, s, u, v)
    requires s.gs[1] == Goroutine(key, Late(c), false, Begin)
    requires key !in s.shards[c.hash(key)].items && s.shards[c.hash(key)].items != map[]
    ensures Reach(c, s') && Pending(c, s', x, Late(c)) && TwoLeft(c, s', u, v) && x + 2 < |s'.gs|
  {
    hide Reach, Only, CalmShard;
    var s1 := Cleans(c, s, 1);
    OnlyGs(s, s1, 1, c.hash(key));
    LiveIsNat(c, s1);
    if s1.live == c.maxKeys - 1 {
      x := 1;
      s' := TakesRoom(c, s, s1, u, v);
    } else {
      var s2 := Settles(c, s, s1, 1);
      s', x := FillsRoom(c, s, s2, key, u, v);
    }
  }

  /** The late request reserves the slot it has freed. */
  lemma TakesRoom<S(!new)>(c: Config<S>, s: State<S>, s1: State<S>, u: Key, v: Key) returns (s': State<S>)
    requires Scarce(c) && Calm(c, s, 0) && s.lastSweep == Some(0) && |s.gs| == |s1.gs| >= 4 && TwoLeft(c, s, u, v)
    requires Reach(c, s1) && Shape(c, s1) && s1.live == c.maxKeys - 1
    requires var (me, home) := (s.gs[1], c.hash(s.gs[1].key));
             && Only(s, s1, 1, home) && s1.gs[1] == me.(pc := Reserve) && s1.owner[home] == Some(1)
             && me.key !in s1.shards[home].items && CalmShard(s1.shards[home], Late(c))
             && s1.shards[home].items.Keys <= s.shards[home].items.Keys
    ensures Reach(c, s') && Pending(c, s', 1, Late(c)) && TwoLeft(c, s', u, v) && |s'.gs| == |s.gs|
  {
    hide Reach, Only;
    var home := c.hash(s.gs[1].key);
    s' := Reserves(c, s1, 1);
    OnlyTwice(s, s1, s', 1, home);
    OnlyKeys(c, s, s', 1, home);
    OnlyGs(s, s', 1, home);
    OnlyOwner(c, s, s', 1, home);
    assert !CleanupDue(c, s'.lastSweep, 0);
    forall i | 0 <= i < c.shardCount ensures CalmShard(s'.shards[i], Late(c)) {
      assert CalmShard(s.shards[i], 0);
    }
  }

  lemma OnlyOwner<S>(c: Config<S>, s: State<S>, s': State<S>, g: nat, home: nat)
    requires Calm(c, s, 0) && Shape(c, s') && Only(s, s', g, home)
    ensures s'.sweepOwner == None
    ensures forall i :: 0 <= i < c.shardCount && i != home ==> s'.owner[i] == None && s'.shards[i] == s.shards[i]
  {}

  /** The late request has returned; more requests fill the rest. */
  lemma FillsRoom<S(!new)>(c: Config<S>, s: State<S>, s1: State<S>, key: Key, u: Key, v: Key)
    returns (s': State<S>, x: nat)
    requires Scarce(c) && Shape(c, s) && |s.gs| == |s1.gs| == 4 + 2 * c.maxKeys && TwoLeft(c, s, u, v)
    requires Fillers(c, s, 2 + c.maxKeys, key) && s1.gs == s.gs[1 := s1.gs[1]]
    requires Reach(c, s1) && Calm(c, s1, Late(c)) && 0 < s1.live < c.maxKeys && s1.lastSweep == Some(0)
    requires forall k: Key :: k in s1.shards[c.hash(k)].items ==> k in s.shards[c.hash(k)].items || k == key
    ensures Reach(c, s') && Pending(c, s', x, Late(c)) && TwoLeft(c, s', u, v) && x + 2 < |s'.gs|
  {
    hide Reach, CalmShard, Pending;
    FillersKept(c, s, s1, 2 + c.maxKeys, key);
    s', x := PendsFrom(c, s1, 2 + c.maxKeys, Late(c), key, u, v);
  }

  /** Requests for new keys take all slots but one, and one more reserves that. */
  lemma PendsFrom<S(!new)>(c: Config<S>, s: State<S>, next: nat, hi: nat, key: Key, u: Key, v: Key)
    returns (s': State<S>, x: nat)
    requires Rejecting(c) && Reach(c, s) && Calm(c, s, hi) && Fillers(c, s, next, key) && !CleanupDue(c, s.lastSweep, 0)
    requires 0 <= s.live < c.maxKeys && next + c.maxKeys - s.live + 2 <= |s.gs| && TwoLeft(c, s, u, v)
    ensures Reach(c, s') && Pending(c, s', x, hi) && TwoLeft(c, s', u, v) && x + 2 < |s'.gs|
  {
    hide Reach, CalmShard, Pending, CleanupDue;
    var s1 := FillsUp(c, s, next, hi, key, c.maxKeys - 1);
    hide Calm;
    x := next + (c.maxKeys - 1) - s.live;
    assert TwoLeft(c, s1, u, v) by { LeftOver(c, s1, x, key, u, v); }
    s' := ReservesLast(c, s1, x, hi);
    assert Shape(c, s') by { PendingShape(c, s', x, hi); }
  }

  /** The last two are among the fillers not used. */
  lemma LeftOver<S>(c: Config<S>, s: State<S>, x: nat, key: Key, u: Key, v: Key)
    requires Shape(c, s) && Fillers(c, s, x, key) && x + 2 < |s.gs|
    requires s.gs[|s.gs| - 2] == Goroutine(u, 0, false, Begin)
    requires s.gs[|s.gs| - 1] == Goroutine(v, 0, false, Begin)
    ensures TwoLeft(c, s, u, v)
  {}

  // ---- The exact condition ----

  /** Some execution turns a request away that never saw as many keys stored as the cap. */
  lemma TurnsAwayEarly<S(!new)>(c: Config<S>, u: Key, v: Key) returns (s: State<S>, b: nat, x: nat)
    requires c.Valid() && Rejecting(c) && c.hash(u) != c.hash(v)
    ensures LowReach(c, s, b, x) && b < |s.gs| && s.gs[b].pc == Unlock(MaxKeysExceeded)
  {
    hide Reach, Calm, Fillers, Cast, LowReach, Pending;
    var from := |u| + |v| + 1;
    var i, j := SameShard(c, from);
    var keys := OtherKeys(c, from, i, j);
    var all := keys + [u, v];
    var n := |keys|;
    assert all[0] == keys[0] && all[n] == u && all[n + 1] == v;
    var start := Starts(c, Name(j), all);
    assert start.gs[n + 2] == Goroutine(u, 0, false, Begin) && start.gs[n + 3] == Goroutine(v, 0, false, Begin);
    var hi: nat := if c.CleanupEnabled() then Late(c) else 0;
    var s1: State<S>;
    if c.CleanupEnabled() {
      s1, x := PendsWithTtl(c, start, Name(j), u, v);
    } else {
      s1, x := PendsWithoutTtl(c, start, Name(j), u, v);
    }
    assert Shape(c, s1) by { PendingShape(c, s1, x, hi); }
    b := if c.hash(u) != c.hash(s1.gs[x].key) then |s1.gs| - 2 else |s1.gs| - 1;
    s := TurnedAway(c, s1, b, x, hi);
  }

  lemma PendingShape<S>(c: Config<S>, s: State<S>, x: nat, hi: int)
    requires Pending(c, s, x, hi)
    ensures Shape(c, s)
  {}

  lemma {:induction false} DebtCounts(gs: seq<Goroutine>, x: nat)
    requires x < |gs|
    ensures Debts(gs) >= Debt(gs[x].pc)
    decreases |gs|
  {
    hide Debt;
    if x < |gs| - 1 {
      DebtCounts(gs[..|gs| - 1], x);
    }
  }

  lemma CreatingIsLow<S>(c: Config<S>, s: State<S>, x: nat)
    requires Inv(c, s) && x < |s.gs| && s.gs[x].pc.Create? && c.maxKeys > 0
    ensures Stored(s.shards) < c.maxKeys
  {
    hide Locks, History, Answers, AllPcs, AllHomes;
    DebtCounts(s.gs, x);
  }

  /** While request `g` was under way, the store once held as many keys as the cap. */
  ghost predicate SawFull<S>(c: Config<S>, run: seq<State<S>>, i: nat, g: nat) {
    exists j: nat :: j <= i && j < |run| && g < |run[j].gs| && !run[j].gs[g].pc.Begin?
                     && Stored(run[j].shards) == c.maxKeys
  }

  ghost predicate RejectsOnlyWhenFull<S(!new)>(c: Config<S>) {
    forall run: seq<State<S>>, i: nat, g: nat ::
      Execution(c, run) && i < |run| && g < |run[i].gs| && Rejected(run[i].gs[g].pc) ==> SawFull(c, run, i, g)
  }

  lemma FullSeen<S>(c: Config<S>, run: seq<State<S>>, i: nat, g: nat)
    requires Execution(c, run) && i < |run| && g < |run[i].gs| && Rejected(run[i].gs[g].pc) && OneShard(c)
    ensures SawFull(c, run, i, g)
  {
    ReachableInv(c, run, i);
    RejectedPolicy(c, run[i], g);
    hide Execution, Inv, MissInv, LooksInVain;
    var looked, at := RejectedAtInstant(c, run, i, g);
    MissRun(c, run, at);
    FullAtInstant(c, run[at], g);
    assert !run[at].gs[g].pc.Begin?;
  }

  lemma NotSeen<S(!new)>(c: Config<S>, u: Key, v: Key) returns (run: seq<State<S>>, b: nat)
    requires c.Valid() && Rejecting(c) && c.hash(u) != c.hash(v)
    ensures Execution(c, run) && b < |run[|run| - 1].gs| && Rejected(run[|run| - 1].gs[b].pc)
    ensures !SawFull(c, run, |run| - 1, b)
  {
    var s, i, x := TurnsAwayEarly(c, u, v);
    b := i;
    run :| Execution(c, run) && run[|run| - 1] == s && forall j :: 0 <= j < |run| ==> Watched(run[j], b, x);
    forall j: nat | j < |run| && !run[j].gs[b].pc.Begin? ensures Stored(run[j].shards) < c.maxKeys {
      assert Watched(run[j], b, x);
      ReachableInv(c, run, j);
      hide Execution, Inv;
      CreatingIsLow(c, run[j], x);
    }
  }

  /** A rejected request always saw the store full exactly if all keys share a shard, or
      nothing is ever rejected. */
  lemma RejectsOnlyWhenFullIff<S(!new)>(c: Config<S>)
    requires c.Valid()
    ensures RejectsOnlyWhenFull(c) <==> c.policy == EvictLRU || c.maxKeys == 0 || OneShard(c)
  {
    hide SawFull, Stored;
    if Rejecting(c) && !OneShard(c) {
      var u: Key, v: Key :| c.hash(u) != c.hash(v);
      var run, b := NotSeen(c, u, v);
      assert !RejectsOnlyWhenFull(c);
    } else {
      forall run: seq<State<S>>, i: nat, g: nat
        | Execution(c, run) && i < |run| && g < |run[i].gs| && Rejected(run[i].gs[g].pc)
        ensures SawFull(c, run, i, g)
      {
        ReachableInv(c, run, i);
        hide Execution, Inv;
        RejectedPolicy(c, run[i], g);
        FullSeen(c, run, i, g);
      }
    }
  }
}
