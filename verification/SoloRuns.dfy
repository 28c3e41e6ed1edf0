/** A goroutine that runs while no other holds a lock does what one call of the sequential
    store does: it drops, evicts, serves and rejects exactly as ShardedStore.Store.WithState
    promises, and it always returns. */
module SoloRuns {
  import opened Limiter
  import opened Shards
  import opened Protocol
  import opened ProtocolInvariant
  import opened ProtocolSteps
  import opened ProtocolTheorems
  import opened Rejections
  import opened StoreView
  import opened StoreLemmas
  import opened Cleanups

  /** No goroutine but `g` holds a lock. */
  ghost predicate Quiet<S>(c: Config<S>, gs: seq<Goroutine>, g: nat) {
    forall h :: 0 <= h < |gs| && h != g ==> Locked(c, gs[h]) == None && !HoldsSweep(gs[h].pc)
  }

  // ---- What the call has done to the store ----

  /** The store as the cleanup of the home shard finds it. */
  ghost function Touched<S>(c: Config<S>, s0: State<S>, g: nat): (base: seq<Shard<nat>>)
    requires Shape(c, s0) && g < |s0.gs|
    ensures |base| == |s0.shards|
  {
    var (me, home) := (s0.gs[g], c.hash(s0.gs[g].key));
    s0.shards[home := Seen(c, s0.shards[home], me.key, me.now)]
  }

  /** What has been removed so far: `gone` by the cleanup of the home shard, after which the
      shards were `mid`; `more` by a sweep; `evicted` by evictions. While a sweep cleans up a
      shard, `part` of it is gone and the shards were `pre` before. */
  datatype Witness = Witness(mid: seq<Shard<nat>>, gone: set<Key>, pre: seq<Shard<nat>>, part: set<Key>,
                             more: set<Key>, evicted: set<Key>)

  /** The key was not found, and the home shard has been cleaned up. */
  ghost predicate Missed<S>(c: Config<S>, s0: State<S>, g: nat, mid: seq<Shard<nat>>, gone: set<Key>)
    requires Shape(c, s0) && g < |s0.gs|
  {
    var (me, home) := (s0.gs[g], c.hash(s0.gs[g].key));
    && me.key !in s0.shards[home].items
    && |mid| == c.shardCount && AllHomes(c, mid)
    && CleanedUp(c, s0.shards, mid, home, me.now, gone) && Lost(s0.shards, mid, gone)
  }

  ghost predicate Full<S>(c: Config<S>, mid: seq<Shard<nat>>) { 0 < c.maxKeys <= Stored(mid) }

  /** The store is full and there is nothing to evict at home. */
  ghost predicate Stuck<S>(c: Config<S>, home: nat, mid: seq<Shard<nat>>) {
    Full(c, mid) && home < |mid| && (c.policy == EvictReject || mid[home].order == [])
  }

  /** Nothing has been done yet to make room. */
  ghost predicate Untried<S>(s0: State<S>, s: State<S>, w: Witness) {
    && s.shards == w.mid && s.lastSweep == s0.lastSweep && s.evicts == s0.evicts
    && w.more == {} && w.evicted == {}
  }

  /** What has been done to make room is a sweep, if one had to be tried, and at most one
      eviction of the oldest key. */
  ghost predicate Roomy<S>(c: Config<S>, s0: State<S>, shards: seq<Shard<nat>>, last: Option<int>, g: nat, w: Witness)
    requires Shape(c, s0) && g < |s0.gs|
  {
    var (me, home) := (s0.gs[g], c.hash(s0.gs[g].key));
    && |w.mid| == c.shardCount && Lost(w.mid, shards, w.more + w.evicted)
    && AllExpired(c, w.mid, me.now, w.more) && Evicted(c, w.mid, home, w.more, w.evicted)
    && RoomDrops(c, w.mid, shards, s0.lastSweep, last, home, me.now, Full(c, w.mid), w.more)
    && (w.evicted != {} ==> c.policy == EvictLRU && Full(c, w.mid) && Stored(shards) == c.maxKeys - 1)
  }

  /** The first `n` shards have been swept. */
  ghost predicate SweptSoFar<S>(c: Config<S>, s0: State<S>, shards: seq<Shard<nat>>, last: Option<int>, g: nat,
                                mid: seq<Shard<nat>>, more: set<Key>, n: nat)
    requires Shape(c, s0) && g < |s0.gs|
  {
    var (me, home) := (s0.gs[g], c.hash(s0.gs[g].key));
    && Stuck(c, home, mid) && |shards| == |mid| == c.shardCount
    && CleanupDue(c, s0.lastSweep, me.now) && last == Some(me.now)
    && SweptUpTo(c, mid, shards, me.now, more, n) && Lost(mid, shards, more)
    && AllExpired(c, mid, me.now, more)
  }

  /** The call has its key in place, with object `ref`; all that is left is to decide. */
  ghost predicate InPlace<S>(c: Config<S>, s0: State<S>, s: State<S>, g: nat, dropped: set<Key>, evicted: set<Key>,
                             ref: nat)
    requires Shape(c, s0) && g < |s0.gs|
  {
    var (key, now, home) := (s0.gs[g].key, s0.gs[g].now, c.hash(s0.gs[g].key));
    && Drops(c, s0.shards, s.shards, s0.lastSweep, s.lastSweep, key, now, dropped)
    && Evicted(c, s0.shards, home, dropped, evicted)
    && Placed(c, s0.shards, s.shards, home, key, Entry(ref, now), dropped + evicted)
    && s.evicts == s0.evicts + |evicted|
    && (evicted != {} ==> c.policy == EvictLRU && key !in s0.shards[home].items && 0 < c.maxKeys == Stored(s.shards))
    && (key in s0.shards[home].items ==> ref == s0.shards[home].items[key].value)
    && (key !in s0.shards[home].items ==> ref == |s0.objs|)
  }

  /** The state objects when the key is in place: a new one has been made for a new key. */
  ghost function Objects<S>(c: Config<S>, s0: State<S>, g: nat): seq<S>
    requires Shape(c, s0) && g < |s0.gs|
  {
    var (key, now, home) := (s0.gs[g].key, s0.gs[g].now, c.hash(s0.gs[g].key));
    if key in s0.shards[home].items then s0.objs else s0.objs + [c.alg.create(now)]
  }

  /** The call was turned away: all it did was to drop what it had to. */
  ghost predicate TurnedAway<S>(c: Config<S>, s0: State<S>, s: State<S>, g: nat, dropped: set<Key>)
    requires Shape(c, s0) && g < |s0.gs|
  {
    var (key, now, home) := (s0.gs[g].key, s0.gs[g].now, c.hash(s0.gs[g].key));
    && Drops(c, s0.shards, s.shards, s0.lastSweep, s.lastSweep, key, now, dropped)
    && Lost(s0.shards, s.shards, dropped) && s.objs == s0.objs && s.evicts == s0.evicts
    && c.policy == EvictReject && key !in s0.shards[home].items && 0 < c.maxKeys <= Stored(s.shards)
  }

  /** The call has been answered: turned away, or served by one decision on the state of its
      key, which is the one it had or a new one. */
  ghost predicate Answered<S>(c: Config<S>, s0: State<S>, s: State<S>, g: nat, dropped: set<Key>, evicted: set<Key>,
                              out: Outcome)
    requires Shape(c, s0) && g < |s0.gs|
  {
    match out
    case MaxKeysExceeded => evicted == {} && TurnedAway(c, s0, s, g, dropped)
    case Ok(r) =>
      exists ref: nat ::
        && InPlace(c, s0, s, g, dropped, evicted, ref) && ref < |Objects(c, s0, g)|
        && var (obj, r') := c.alg.decide(Objects(c, s0, g)[ref], s0.gs[g].now);
           r == r' && s.objs == Objects(c, s0, g)[ref := obj]
  }

  // ---- Where the call is ----

  /** The part up to the end of the cleanup of the home shard. */
  ghost predicate AtStart<S>(c: Config<S>, s0: State<S>, s: State<S>, g: nat, w: Witness)
    requires Shape(c, s0) && g < |s0.gs| && |s.gs| == |s0.gs|
  {
    var (me, home) := (s0.gs[g], c.hash(s0.gs[g].key));
    var found := me.key in s0.shards[home].items;
    && s.lastSweep == s0.lastSweep && s.evicts == s0.evicts && s.objs == s0.objs
    && match s.gs[g].pc
       case Begin => s.shards == s0.shards
       case Lookup => s.shards == s0.shards
       case Cleanup(cont) =>
         && s.shards == Touched(c, s0, g)
         && cont == if found then Hit(s0.shards[home].items[me.key].value) else Miss
       case Delete(batch, cont) =>
         && |s.shards| == |s0.shards| && s.shards == Touched(c, s0, g)[home := s.shards[home]]
         && cont == (if found then Hit(s0.shards[home].items[me.key].value) else Miss)
         && Cleaning(c, Touched(c, s0, g)[home], s.shards[home], me.now, batch, w.gone)
       case Uncount(batch, cont) =>
         && |s.shards| == |s0.shards| && s.shards == Touched(c, s0, g)[home := s.shards[home]]
         && cont == (if found then Hit(s0.shards[home].items[me.key].value) else Miss)
         && Cleaning(c, Touched(c, s0, g)[home], s.shards[home], me.now, batch, w.gone)
       case _ => false
  }

  /** The part that reserves a slot, up to the creation of the key. */
  ghost predicate AtReserve<S>(c: Config<S>, s0: State<S>, s: State<S>, g: nat, w: Witness)
    requires Shape(c, s0) && g < |s0.gs| && |s.gs| == |s0.gs|
  {
    var (me, home) := (s.gs[g], c.hash(s0.gs[g].key));
    && Missed(c, s0, g, w.mid, w.gone) && s.objs == s0.objs
    && match me.pc
       case Reserve => Untried(s0, s, w)
       case Load => c.maxKeys > 0 && AtLoad(c, s0, s, g, w)
       case Cas(n) => AtLoad(c, s0, s, g, w) && n == s.live < c.maxKeys
       case Evict => Untried(s0, s, w) && !me.swept && Full(c, w.mid) && c.policy == EvictLRU
       case EvictUncount(back) => AtEviction(c, s0, s, g, w)
       case EvictCount(back) => AtEviction(c, s0, s, g, w) && s.live < c.maxKeys
       case Release => Untried(s0, s, w) && !me.swept && Stuck(c, home, w.mid)
       case SweepLock => Untried(s0, s, w) && Stuck(c, home, w.mid) && me.swept
       case SweepGate => Untried(s0, s, w) && Stuck(c, home, w.mid) && me.swept
       case SweepShardLock(i) => InSweep(c, s0, s, s.shards, g, w, i)
       case Cleanup(cont) => cont.Swept? && InSweep(c, s0, s, s.shards, g, w, cont.i)
       case Delete(batch, cont) => cont.Swept? && InBatch(c, s0, s, g, w, batch, cont.i)
       case Uncount(batch, cont) => cont.Swept? && InBatch(c, s0, s, g, w, batch, cont.i)
       case SweepShardUnlock(i) => i < c.shardCount && InSweep(c, s0, s, s.shards, g, w, i + 1)
       case SweepUnlock => AfterSweeping(c, s0, s, g, w)
       case FullCheck => AfterSweeping(c, s0, s, g, w) && c.policy == EvictLRU
       case OtherLock(i) => AtOther(c, s0, s, g, w, i) && i != home
       case OtherEvict(i) => AtOther(c, s0, s, g, w, i) && i != home
       case OtherUnlock(i, evicted) =>
         if evicted then JustEvicted(c, s0, s, g, w) else AtOther(c, s0, s, g, w, i + 1) && i != home
       case Relock => Settled(c, s0, s, g, w)
       case Recheck => Roomy(c, s0, s.shards, s.lastSweep, g, w) && s.evicts == s0.evicts + |w.evicted|
       case Create => Roomy(c, s0, s.shards, s.lastSweep, g, w) && s.evicts == s0.evicts + |w.evicted|
       case _ => false
  }

  ghost predicate AtLoad<S>(c: Config<S>, s0: State<S>, s: State<S>, g: nat, w: Witness)
    requires Shape(c, s0) && g < |s0.gs| && |s.gs| == |s0.gs|
  {
    (Untried(s0, s, w) && !s.gs[g].swept) || Settled(c, s0, s, g, w)
  }

  /** Room has been made under EvictLRU, or not, for good, under EvictReject. */
  ghost predicate Settled<S>(c: Config<S>, s0: State<S>, s: State<S>, g: nat, w: Witness)
    requires Shape(c, s0) && g < |s0.gs| && |s.gs| == |s0.gs|
  {
    && Roomy(c, s0, s.shards, s.lastSweep, g, w) && s.evicts == s0.evicts + |w.evicted|
    && if c.policy == EvictLRU then s.live < c.maxKeys else s.gs[g].swept
  }

  /** A key has been evicted and is still to be counted. */
  ghost predicate AtEviction<S>(c: Config<S>, s0: State<S>, s: State<S>, g: nat, w: Witness)
    requires Shape(c, s0) && g < |s0.gs|
  {
    && Roomy(c, s0, s.shards, s.lastSweep, g, w) && |w.evicted| == 1 && s.evicts == s0.evicts
    && c.policy == EvictLRU && c.maxKeys > 0
  }

  /** A key has been evicted and counted. */
  ghost predicate JustEvicted<S>(c: Config<S>, s0: State<S>, s: State<S>, g: nat, w: Witness)
    requires Shape(c, s0) && g < |s0.gs|
  {
    && Roomy(c, s0, s.shards, s.lastSweep, g, w) && |w.evicted| == 1 && s.evicts == s0.evicts + 1
    && s.live < c.maxKeys && c.policy == EvictLRU && c.maxKeys > 0
  }

  ghost predicate InSweep<S>(c: Config<S>, s0: State<S>, s: State<S>, shards: seq<Shard<nat>>, g: nat, w: Witness,
                             i: nat)
    requires Shape(c, s0) && g < |s0.gs| && |s.gs| == |s0.gs|
  {
    && SweptSoFar(c, s0, shards, s.lastSweep, g, w.mid, w.more, i) && w.evicted == {}
    && s.evicts == s0.evicts && s.gs[g].swept
  }

  ghost predicate InBatch<S>(c: Config<S>, s0: State<S>, s: State<S>, g: nat, w: Witness, batch: seq<Key>, i: nat)
    requires Shape(c, s0) && g < |s0.gs| && |s.gs| == |s0.gs|
  {
    && InSweep(c, s0, s, w.pre, g, w, i) && |w.pre| == |s.shards| && i < |w.pre| && AllHomes(c, w.pre)
    && s.shards == w.pre[i := s.shards[i]]
    && Cleaning(c, w.pre[i], s.shards[i], s0.gs[g].now, batch, w.part)
  }

  /** The sweep is over, or there was none to do. */
  ghost predicate AfterSweeping<S>(c: Config<S>, s0: State<S>, s: State<S>, g: nat, w: Witness)
    requires Shape(c, s0) && g < |s0.gs| && |s.gs| == |s0.gs|
  {
    && Stuck(c, c.hash(s0.gs[g].key), w.mid) && Roomy(c, s0, s.shards, s.lastSweep, g, w) && w.evicted == {}
    && s.evicts == s0.evicts && s.gs[g].swept
  }

  /** Still full, and the shards before `i` have no key to evict. */
  ghost predicate AtOther<S>(c: Config<S>, s0: State<S>, s: State<S>, g: nat, w: Witness, i: nat)
    requires Shape(c, s0) && g < |s0.gs| && |s.gs| == |s0.gs|
  {
    && AfterSweeping(c, s0, s, g, w) && c.policy == EvictLRU && s.live >= c.maxKeys
    && forall j :: 0 <= j < i && j < |s.shards| ==> s.shards[j].order == []
  }

  /** Goroutine `g`, alone since `s0`, is at `s`. */
  ghost predicate Solo<S>(c: Config<S>, s0: State<S>, s: State<S>, g: nat, w: Witness) {
    && Shape(c, s0) && g < |s0.gs| == |s.gs| && s.gs == s0.gs[g := s.gs[g]]
    && s.gs[g].key == s0.gs[g].key && s.gs[g].now == s0.gs[g].now
    && match s.gs[g].pc
       case Run(ref) =>
         && InPlace(c, s0, s, g, w.gone + w.more, w.evicted, ref) && s.objs == Objects(c, s0, g)
       case Unlock(out) => Answered(c, s0, s, g, w.gone + w.more, w.evicted, out)
       case Done(out) => Answered(c, s0, s, g, w.gone + w.more, w.evicted, out)
       case _ => AtStart(c, s0, s, g, w) || AtReserve(c, s0, s, g, w)
  }

  ghost predicate Tidy<S>(c: Config<S>, s: State<S>) { Shape(c, s) && AllHomes(c, s.shards) }

  /** The counter is exact but for what `g` owes it, and within the cap. */
  ghost predicate Exact<S>(c: Config<S>, s: State<S>, g: nat)
    requires g < |s.gs|
  {
    s.live == Stored(s.shards) + Debt(s.gs[g].pc) && (c.maxKeys > 0 ==> s.live <= c.maxKeys)
  }

  /** The next step of such a goroutine. */
  ghost predicate OnStep<S>(c: Config<S>, s0: State<S>, s: State<S>, g: nat, s': State<S>, w: Witness) {
    Tidy(c, s0) && Tidy(c, s) && Solo(c, s0, s, g, w) && g < |s.gs| && Next(c, s, g, s')
  }

  // ---- The cleanup of the home shard ----

  /** Only the goroutine itself owes the counter anything. */
  lemma {:induction false} QuietDebts<S>(c: Config<S>, gs: seq<Goroutine>, g: nat)
    requires Quiet(c, gs, g) && g < |gs|
    ensures Debts(gs) == Debt(gs[g].pc)
  {
    hide Debts;
    var idle := gs[g := gs[g].(pc := Begin)];
    DebtsPut(gs, g, gs[g].(pc := Begin));
    NoDebts(idle);
  }

  lemma Counts<S>(c: Config<S>, s: State<S>, g: nat)
    requires Inv(c, s) && Quiet(c, s.gs, g) && g < |s.gs|
    ensures Exact(c, s, g)
  {
    hide Locks, AllHomes, AllPcs, History, Answers, Quiet, Stored, Debt;
    QuietDebts(c, s.gs, g);
  }

  lemma MinusAll<V>(m: map<Key, V>, gone: set<Key>)
    requires gone <= m.Keys
    ensures |m - gone| == |m| - |gone|
  {
    assert (m - gone).Keys == m.Keys - gone;
    assert |m.Keys - gone| == |m.Keys| - |gone|;
  }

  lemma {:induction false} UntouchedElsewhere<S>(c: Config<S>, sh: Shard<nat>, j: nat, gone: set<Key>)
    requires Homes(c, j, sh) && forall k :: k in gone ==> c.hash(k) != j
    ensures sh.items - gone == sh.items && WithoutAll(sh.order, gone) == sh.order
  {
    hide NoDup;
    WithoutAllMembers(sh.order, gone);
  }

  /** A cleanup of one shard, seen on all of them. */
  lemma CleanedAmong<S>(c: Config<S>, base: seq<Shard<nat>>, i: nat, sh: Shard<nat>, now: int, gone: set<Key>)
    requires AllHomes(c, base) && i < |base| && Cleaned(c, base[i], sh, now, gone)
    ensures CleanedUp(c, base, base[i := sh], i, now, gone) && Lost(base, base[i := sh], gone)
    ensures Stored(base[i := sh]) == Stored(base) - |gone|
    ensures forall k :: k in gone ==> c.hash(k) == i && k in base[i].items && Expired(c, base[i].items[k], now)
  {
    hide WithoutAll, Batch, Stored, WellFormed, Clean;
    HomesAt(c, base, i);
    BatchMembers(c, base[i], now, gone);
    MinusAll(base[i].items, gone);
    StoredPut(base, i, sh);
    forall j | 0 <= j < |base| && j != i
      ensures base[j].items == base[j].items - gone && base[j].order == WithoutAll(base[j].order, gone)
    {
      HomesAt(c, base, j);
      UntouchedElsewhere(c, base[j], j, gone);
    }
  }

  lemma TouchedHomes<S>(c: Config<S>, s0: State<S>, g: nat)
    requires Tidy(c, s0) && g < |s0.gs|
    ensures AllHomes(c, Touched(c, s0, g)) && Stored(Touched(c, s0, g)) == Stored(s0.shards)
  {
    hide AllHomes, Touch, Stored;
    var (me, home) := (s0.gs[g], c.hash(s0.gs[g].key));
    if me.key in s0.shards[home].items {
      TouchHomes(c, s0.shards, home, me.key, me.now);
    } else {
      assert Touched(c, s0, g) == s0.shards;
    }
  }

  /** The key was found: with the cleanup done it is in place. */
  lemma FoundInPlace<S>(c: Config<S>, s0: State<S>, s: State<S>, g: nat, gone: set<Key>)
    requires Tidy(c, s0) && g < |s0.gs| && s0.gs[g].key in s0.shards[c.hash(s0.gs[g].key)].items
    requires s.lastSweep == s0.lastSweep && s.evicts == s0.evicts
    requires CleanedUp(c, Touched(c, s0, g), s.shards, c.hash(s0.gs[g].key), s0.gs[g].now, gone)
    requires Lost(Touched(c, s0, g), s.shards, gone)
    requires AllExpired(c, Touched(c, s0, g), s0.gs[g].now, gone) && (!c.CleanupEnabled() ==> gone == {})
    ensures InPlace(c, s0, s, g, gone, {}, s0.shards[c.hash(s0.gs[g].key)].items[s0.gs[g].key].value)
  {
    hide AllHomes, Touch, Stored, Lost, CleanedUp, Drops, Evicted, Placed;
    hide AllExpired;
    var (me, home) := (s0.gs[g], c.hash(s0.gs[g].key));
    TouchedHomes(c, s0, g);
    TouchExpired(c, s0.shards, home, me.key, me.now, gone);
    HitDrops(c, s0.shards, s.shards, s0.lastSweep, me.key, me.now, gone);
    NoneEvicted(c, s0.shards, home, gone);
    PlacedByTouch(c, s0.shards, s.shards, home, me.key, me.now, gone);
    assert gone + {} == gone;
  }

  /** The cleanup of the home shard has ended. */
  lemma {:induction false} HomeDone<S>(c: Config<S>, s0: State<S>, s: State<S>, s': State<S>, g: nat, gone: set<Key>)
    returns (w: Witness)
    requires Tidy(c, s0) && g < |s0.gs| == |s.gs| && |s.shards| == |s0.shards| && Shape(c, s)
    requires s.lastSweep == s0.lastSweep && s.evicts == s0.evicts && s.objs == s0.objs
    requires var (me, home, base) := (s0.gs[g], c.hash(s0.gs[g].key), Touched(c, s0, g));
             && s.shards == base[home := s.shards[home]] && Cleaned(c, base[home], s.shards[home], me.now, gone)
             && s' == Goto(s, g, Proceed(if me.key in s0.shards[home].items
                                         then Hit(s0.shards[home].items[me.key].value) else Miss))
    requires AllHomes(c, s.shards) && s.gs == s0.gs[g := s.gs[g]]
    requires s.gs[g].key == s0.gs[g].key && s.gs[g].now == s0.gs[g].now
    ensures Solo(c, s0, s', g, w)
  {
    hide AllHomes, Stored, Lost, CleanedUp, InPlace, Cleaned, Seen;
    var (me, home, base) := (s0.gs[g], c.hash(s0.gs[g].key), Touched(c, s0, g));
    TouchedHomes(c, s0, g);
    CleanedAmong(c, base, home, s.shards[home], me.now, gone);
    w := Witness(s.shards, gone, [], {}, {}, {});
    if me.key in s0.shards[home].items {
      NotEnabled(c, base[home], s.shards[home], me.now, gone);
      FoundInPlace(c, s0, s', g, gone);
      assert gone + {} == gone;
    } else {
      SeenAbsent(c, s0, g);
    }
  }

  lemma SeenAbsent<S>(c: Config<S>, s0: State<S>, g: nat)
    requires Shape(c, s0) && g < |s0.gs| && s0.gs[g].key !in s0.shards[c.hash(s0.gs[g].key)].items
    ensures Touched(c, s0, g) == s0.shards
  {}

  lemma NotEnabled<S>(c: Config<S>, base: Shard<nat>, sh: Shard<nat>, now: int, gone: set<Key>)
    requires Cleaned(c, base, sh, now, gone)
    ensures !c.CleanupEnabled() ==> gone == {}
  {}

  lemma BeginStep<S>(c: Config<S>, s0: State<S>, s: State<S>, g: nat, s': State<S>, w: Witness)
    requires g < |s.gs| && OnStep(c, s0, s, g, s', w)
    requires s.gs[g].pc.Begin? || s.gs[g].pc.Lookup?
    ensures Solo(c, s0, s', g, w)
  {
    hide AllHomes, Touch, CleanupDue, Missed, Cleaning;
    assert AtStart(c, s0, s, g, w);
  }

  lemma HomeCleanupStep<S>(c: Config<S>, s0: State<S>, s: State<S>, g: nat, s': State<S>, w: Witness)
    returns (w': Witness)
    requires g < |s.gs| && OnStep(c, s0, s, g, s', w)
    requires s.gs[g].pc.Cleanup? && !s.gs[g].pc.cont.Swept?
    ensures Solo(c, s0, s', g, w')
  {
    hide AllHomes, Cleaning, Cleaned, Missed, Answered, InPlace, Touched;
    hide CleanupDue, Scan, ExpiredOf;
    var (home, me) := (c.hash(s.gs[g].key), s.gs[g]);
    var base := Touched(c, s0, g);
    CleanupStarts(c, s, g, s');
    if CleanupDue(c, s.shards[home].lastCleanup, me.now) {
      w' := w.(gone := {});
    } else {
      CleanedNothing(c, base[home], me.now);
      w' := HomeDone(c, s0, s, s', g, {});
    }
  }

  lemma HomeRemovingStep<S>(c: Config<S>, s0: State<S>, s: State<S>, g: nat, s': State<S>, w: Witness)
    returns (w': Witness)
    requires g < |s.gs| && OnStep(c, s0, s, g, s', w)
    requires (s.gs[g].pc.Delete? || s.gs[g].pc.Uncount?) && !s.gs[g].pc.cont.Swept?
    ensures Solo(c, s0, s', g, w')
  {
    hide Cleaning, Cleaned, Missed, Answered, InPlace, Touched, Remove;
    hide AllHomes;
    var (home, me) := (c.hash(s.gs[g].key), s.gs[g]);
    var base := Touched(c, s0, g);
    if me.pc == Delete([], me.pc.cont) {
      TouchedHomes(c, s0, g);
      HomesAt(c, base, home);
      CleaningEnds(c, base[home], s.shards[home], me.now, w.gone);
      w' := HomeDone(c, s0, s, s', g, w.gone);
    } else {
      var gone := RemovingStep(c, s, g, s', base[home], w.gone);
      w' := w.(gone := gone);
    }
  }

  // ---- Reserving a slot ----

  /** With nothing to sweep, doing nothing is all there is to do before an eviction. */
  lemma NothingDone<S>(c: Config<S>, s0: State<S>, s: State<S>, g: nat, w: Witness)
    requires Shape(c, s0) && g < |s0.gs| && Missed(c, s0, g, w.mid, w.gone) && Untried(s0, s, w)
    requires Stuck(c, c.hash(s0.gs[g].key), w.mid) ==> !CleanupDue(c, s0.lastSweep, s0.gs[g].now)
    ensures Roomy(c, s0, s.shards, s.lastSweep, g, w)
  {
    hide Stored, AllHomes, CleanedUp, CleanupDue, Evicted, AllExpired;
    LostLength(s0.shards, w.mid, w.gone);
    LostNone(w.mid, s.shards);
    hide Lost;
    NoneExpired(c, w.mid, s0.gs[g].now);
    NoneEvicted(c, w.mid, c.hash(s0.gs[g].key), {});
    assert w.more + w.evicted == {};
  }

  /** All that a call that did not find its key has removed. */
  lemma RoomySummary<S>(c: Config<S>, s0: State<S>, s: State<S>, g: nat, w: Witness)
    requires Tidy(c, s0) && g < |s0.gs| && Missed(c, s0, g, w.mid, w.gone) && Roomy(c, s0, s.shards, s.lastSweep, g, w)
    ensures var (key, now, home, dropped) := (s0.gs[g].key, s0.gs[g].now, c.hash(s0.gs[g].key), w.gone + w.more);
            && Drops(c, s0.shards, s.shards, s0.lastSweep, s.lastSweep, key, now, dropped)
            && Lost(s0.shards, s.shards, dropped + w.evicted) && Evicted(c, s0.shards, home, dropped, w.evicted)
            && key !in s.shards[home].items
  {
    hide AllHomes, Stored, CleanedUp, Drops, Evicted, AllExpired, RoomDrops;
    var (key, now, home) := (s0.gs[g].key, s0.gs[g].now, c.hash(s0.gs[g].key));
    LostLength(w.mid, s.shards, w.more + w.evicted);
    CleanedExpired(c, s0.shards, w.mid, home, now, w.gone);
    CleanedCount(c, s0.shards, w.mid, home, now, w.gone);
    hide Lost;
    ReserveSummary(c, s0.shards, w.mid, s.shards, home, now, w.gone, w.more, w.evicted);
    LostAbsent(s0.shards, s.shards, w.gone + w.more + w.evicted, home, key);
    LostIsLater(w.mid, s.shards, w.more + w.evicted, now);
    MissDrops(c, s0.shards, w.mid, s.shards, s0.lastSweep, s.lastSweep, key, now, w.gone, w.more);
  }

  lemma {:induction false} CleanedCount<S>(c: Config<S>, base: seq<Shard<nat>>, after: seq<Shard<nat>>, i: nat,
                                           now: int, gone: set<Key>)
    requires i < |base| && CleanedUp(c, base, after, i, now, gone) && Lost(base, after, gone)
    ensures Stored(after) == Stored(base) - |gone|
  {
    hide Batch, WithoutAll, Stored;
    BatchMembers(c, base[i], now, gone);
    MinusAll(base[i].items, gone);
    StoredPut(base, i, after[i]);
    assert after == base[i := after[i]];
  }

  lemma CleanedExpired<S>(c: Config<S>, base: seq<Shard<nat>>, after: seq<Shard<nat>>, i: nat, now: int, gone: set<Key>)
    requires c.Valid() && |base| == c.shardCount && i < |base| && AllHomes(c, base)
    requires CleanedUp(c, base, after, i, now, gone)
    ensures AllExpired(c, base, now, gone)
  {
    hide Batch, WellFormed;
    HomesAt(c, base, i);
    BatchMembers(c, base[i], now, gone);
  }

  lemma ReserveStep<S>(c: Config<S>, s0: State<S>, s: State<S>, g: nat, s': State<S>, w: Witness)
    requires g < |s.gs| && OnStep(c, s0, s, g, s', w)
    requires s.gs[g].pc.Reserve?
    ensures Solo(c, s0, s', g, w)
  {
    hide AllHomes, Stored, Missed, Roomy, Lost, Stuck;
    assert AtReserve(c, s0, s, g, w);
    if c.maxKeys == 0 {
      NeverStuck(c, c.hash(s0.gs[g].key), w.mid);
      NothingDone(c, s0, s, g, w);
    }
  }

  lemma NeverStuck<S>(c: Config<S>, home: nat, mid: seq<Shard<nat>>)
    requires c.maxKeys == 0
    ensures !Stuck(c, home, mid)
  {}

  /** A full store that may not evict turns the call away. */
  lemma TurnsAway<S>(c: Config<S>, s0: State<S>, s: State<S>, g: nat, w: Witness)
    requires Tidy(c, s0) && g < |s0.gs| && Missed(c, s0, g, w.mid, w.gone) && Roomy(c, s0, s.shards, s.lastSweep, g, w)
    requires c.policy == EvictReject && 0 < c.maxKeys <= Stored(s.shards)
    requires s.objs == s0.objs && s.evicts == s0.evicts + |w.evicted|
    ensures w.evicted == {} && TurnedAway(c, s0, s, g, w.gone + w.more)
  {
    hide AllHomes, Stored, Drops, Lost, AllExpired, Evicted, RoomDrops;
    hide CleanedUp;
    RoomySummary(c, s0, s, g, w);
    assert w.gone + w.more + w.evicted == w.gone + w.more;
  }

  lemma LoadStep<S>(c: Config<S>, s0: State<S>, s: State<S>, g: nat, s': State<S>, w: Witness)
    requires g < |s.gs| && OnStep(c, s0, s, g, s', w)
    requires s.gs[g].pc.Load? && Exact(c, s, g)
    ensures Solo(c, s0, s', g, w)
  {
    hide AllHomes, Stored, Roomy, TurnedAway, Lost, CleanedUp;
    assert AtReserve(c, s0, s, g, w);
    assert |w.mid| == c.shardCount;
    hide Missed;
    if s'.gs[g].pc.Unlock? {
      TurnsAway(c, s0, s', g, w);
    }
  }

  lemma CasStep<S>(c: Config<S>, s0: State<S>, s: State<S>, g: nat, s': State<S>, w: Witness)
    requires g < |s.gs| && OnStep(c, s0, s, g, s', w)
    requires s.gs[g].pc.Cas? && Exact(c, s, g)
    ensures Solo(c, s0, s', g, w)
  {
    hide AllHomes, Stored, Roomy, Lost, CleanedUp, Missed;
    assert AtReserve(c, s0, s, g, w);
    if Untried(s0, s, w) {
      NothingDone(c, s0, s, g, w);
    }
  }

  // ---- Evicting ----

  /** Evicting the last key of shard `i`, after a sweep or before any. */
  lemma EvictsOldest<S>(c: Config<S>, s0: State<S>, s: State<S>, g: nat, w: Witness, i: nat)
    requires Shape(c, s0) && g < |s0.gs| && AllHomes(c, s.shards) && |s.shards| == c.shardCount && i < c.shardCount
    requires c.policy == EvictLRU && s.shards[i].order != [] && Stored(s.shards) == c.maxKeys && Full(c, w.mid)
    requires w.evicted == {} && Roomy(c, s0, s.shards, s.lastSweep, g, w)
    requires var home := c.hash(s0.gs[g].key);
             i == home || (s.shards[home].order == [] && forall j :: 0 <= j < i ==> s.shards[j].order == [])
    ensures var e := s.shards[i].order[|s.shards[i].order| - 1];
            Roomy(c, s0, s.shards[i := Remove(s.shards[i], e)], s.lastSweep, g, w.(evicted := {e}))
  {
    hide AllHomes, Stored, Lost, AllExpired, Evicted, Without, RoomDrops;
    var (now, home) := (s0.gs[g].now, c.hash(s0.gs[g].key));
    var e := s.shards[i].order[|s.shards[i].order| - 1];
    var after := s.shards[i := Remove(s.shards[i], e)];
    assert w.more + w.evicted == w.more;
    LastIsOldest(c, s.shards, i, home);
    RemoveHomes(c, s.shards, i, e);
    LostOne(c, s.shards, i, e);
    EvictionSummary(c, w.mid, s.shards, after, home, w.more, {e});
    LostIsLater(s.shards, after, {e}, now);
    RoomDropsLater(c, w.mid, s.shards, after, s0.lastSweep, s.lastSweep, home, now, Full(c, w.mid), w.more);
  }

  lemma RoomDropsLater<S>(c: Config<S>, before: seq<Shard<nat>>, mid: seq<Shard<nat>>, after: seq<Shard<nat>>,
                          last: Option<int>, last': Option<int>, home: nat, now: int, full: bool, gone: set<Key>)
    requires home < |before| && RoomDrops(c, before, mid, last, last', home, now, full, gone)
    requires Later(mid, after, now) && SameMarks(mid, after)
    ensures RoomDrops(c, before, after, last, last', home, now, full, gone)
  {
    hide Later, Sweeps;
    if full && (c.policy == EvictReject || before[home].order == []) {
      SweepsLater(c, before, mid, after, last, last', now, gone);
    }
  }

  lemma EvictStep<S>(c: Config<S>, s0: State<S>, s: State<S>, g: nat, s': State<S>, w: Witness) returns (w': Witness)
    requires g < |s.gs| && OnStep(c, s0, s, g, s', w)
    requires s.gs[g].pc.Evict? && Exact(c, s, g)
    ensures Solo(c, s0, s', g, w')
  {
    hide AllHomes, Stored, Roomy, Lost, CleanedUp, Remove;
    var home := c.hash(s0.gs[g].key);
    assert AtReserve(c, s0, s, g, w);
    assert |w.mid| == c.shardCount;
    w' := w;
    if s.shards[home].order != [] {
      NothingDone(c, s0, s, g, w);
      EvictsOldest(c, s0, s, g, w, home);
      w' := w.(evicted := {s.shards[home].order[|s.shards[home].order| - 1]});
    }
    hide Missed;
  }

  lemma EvictedStep<S>(c: Config<S>, s0: State<S>, s: State<S>, g: nat, s': State<S>, w: Witness)
    requires g < |s.gs| && OnStep(c, s0, s, g, s', w)
    requires (s.gs[g].pc.EvictUncount? || s.gs[g].pc.EvictCount?) && Exact(c, s, g)
    ensures Solo(c, s0, s', g, w)
  {
    hide AllHomes, Stored, Missed, Roomy;
    assert AtReserve(c, s0, s, g, w);
  }

  // ---- Sweeping ----

  lemma ReleaseStep<S>(c: Config<S>, s0: State<S>, s: State<S>, g: nat, s': State<S>, w: Witness)
    requires g < |s.gs| && OnStep(c, s0, s, g, s', w)
    requires s.gs[g].pc.Release? || s.gs[g].pc.SweepLock?
    ensures Solo(c, s0, s', g, w)
  {
    hide AllHomes, Stored, Missed, Roomy, Stuck;
    assert AtReserve(c, s0, s, g, w);
    if s.gs[g].pc.Release? && !c.CleanupEnabled() {
      NothingDone(c, s0, s, g, w);
      assert w.evicted == {} && |w.evicted| == 0;
    }
  }

  lemma GateStep<S>(c: Config<S>, s0: State<S>, s: State<S>, g: nat, s': State<S>, w: Witness)
    requires g < |s.gs| && OnStep(c, s0, s, g, s', w)
    requires s.gs[g].pc.SweepGate?
    ensures Solo(c, s0, s', g, w)
  {
    hide AllHomes, Stored, CleanedUp, Roomy, Stuck, Lost, AllExpired;
    hide CleanupDue, SweptShard;
    assert AtReserve(c, s0, s, g, w);
    assert |w.mid| == c.shardCount;
    hide Missed;
    if CleanupDue(c, s.lastSweep, s.gs[g].now) {
      LostNone(w.mid, s.shards);
      NoneExpired(c, w.mid, s.gs[g].now);
      assert SweptUpTo(c, w.mid, s.shards, s.gs[g].now, {}, 0);
    } else {
      NothingDone(c, s0, s, g, w);
    }
  }

  /** One more shard has been swept. */
  lemma ShardDone<S>(c: Config<S>, s0: State<S>, shards: seq<Shard<nat>>, last: Option<int>, g: nat,
                     mid: seq<Shard<nat>>, more: set<Key>, i: nat, sh: Shard<nat>, gone: set<Key>)
    requires Shape(c, s0) && g < |s0.gs| && AllHomes(c, shards) && i < |shards|
    requires SweptSoFar(c, s0, shards, last, g, mid, more, i) && Cleaned(c, shards[i], sh, s0.gs[g].now, gone)
    ensures SweptSoFar(c, s0, shards[i := sh], last, g, mid, more + gone, i + 1)
  {
    hide AllHomes, Stored, Lost, AllExpired, Cleaned, SweptUpTo, CleanupDue, CleanedUp;
    var now := s0.gs[g].now;
    CleanedAmong(c, shards, i, sh, now, gone);
    SweptNext(c, mid, shards, shards[i := sh], now, more, i, gone);
    CleanedExpired(c, shards, shards[i := sh], i, now, gone);
    LostCompose(mid, shards, shards[i := sh], more, gone);
    ExpiredCompose(c, mid, shards, now, more, gone);
  }

  lemma ArriveStep<S>(c: Config<S>, s0: State<S>, s: State<S>, g: nat, s': State<S>, w: Witness)
    requires g < |s.gs| && OnStep(c, s0, s, g, s', w)
    requires s.gs[g].pc.SweepShardLock?
    ensures Solo(c, s0, s', g, w)
  {
    hide AllHomes, SweptSoFar, Missed, Roomy, InPlace, Answered, Stuck;
    assert AtReserve(c, s0, s, g, w);
  }

  lemma VisitStep<S>(c: Config<S>, s0: State<S>, s: State<S>, g: nat, s': State<S>, w: Witness) returns (w': Witness)
    requires g < |s.gs| && OnStep(c, s0, s, g, s', w)
    requires s.gs[g].pc.Cleanup? && s.gs[g].pc.cont.Swept?
    ensures Solo(c, s0, s', g, w')
  {
    hide AllHomes, Stored, SweptSoFar, Missed, Cleaning, Cleaned, CleanupDue, Scan, ExpiredOf, Roomy, InPlace;
    hide Answered, Stuck;
    assert AtReserve(c, s0, s, g, w);
    w' := w;
    var i := s.gs[g].pc.cont.i;
    CleanupStarts(c, s, g, s');
    hide AtStart;
    if CleanupDue(c, s.shards[i].lastCleanup, s.gs[g].now) {
      w' := w.(pre := s.shards, part := {});
      assert s'.shards == s.shards[i := s'.shards[i]];
      assert InBatch(c, s0, s', g, w', s'.gs[g].pc.batch, i);
    } else {
      CleanedNothing(c, s.shards[i], s.gs[g].now);
      ShardDone(c, s0, s.shards, s.lastSweep, g, w.mid, w.more, i, s.shards[i], {});
      assert w.more + {} == w.more && s.shards[i := s.shards[i]] == s.shards;
    }
  }

  lemma SweepRemovingStep<S>(c: Config<S>, s0: State<S>, s: State<S>, g: nat, s': State<S>, w: Witness)
    returns (w': Witness)
    requires g < |s.gs| && OnStep(c, s0, s, g, s', w)
    requires (s.gs[g].pc.Delete? || s.gs[g].pc.Uncount?) && s.gs[g].pc.cont.Swept?
    ensures Solo(c, s0, s', g, w')
  {
    hide AllHomes, Stored, SweptSoFar, Missed, Cleaning, Cleaned, Remove;
    assert AtReserve(c, s0, s, g, w);
    var (me, i) := (s.gs[g], s.gs[g].pc.cont.i);
    if me.pc == Delete([], me.pc.cont) {
      HomesAt(c, w.pre, i);
      CleaningEnds(c, w.pre[i], s.shards[i], me.now, w.part);
      ShardDone(c, s0, w.pre, s.lastSweep, g, w.mid, w.more, i, s.shards[i], w.part);
      w' := w.(more := w.more + w.part);
    } else {
      var part := RemovingStep(c, s, g, s', w.pre[i], w.part);
      w' := w.(part := part);
    }
  }

  /** With every shard visited the sweep is complete. */
  lemma AllSwept<S>(c: Config<S>, s0: State<S>, shards: seq<Shard<nat>>, last: Option<int>, g: nat, w: Witness)
    requires Shape(c, s0) && g < |s0.gs| && w.evicted == {}
    requires SweptSoFar(c, s0, shards, last, g, w.mid, w.more, c.shardCount)
    ensures Roomy(c, s0, shards, last, g, w)
  {
    hide Stored, Lost, AllExpired, Evicted, SweptShard, CleanupDue;
    NoneEvicted(c, w.mid, c.hash(s0.gs[g].key), w.more);
    assert w.more + w.evicted == w.more;
  }

  lemma SweptStep<S>(c: Config<S>, s0: State<S>, s: State<S>, g: nat, s': State<S>, w: Witness)
    requires g < |s.gs| && OnStep(c, s0, s, g, s', w)
    requires s.gs[g].pc.SweepShardUnlock? || s.gs[g].pc.SweepUnlock?
    ensures Solo(c, s0, s', g, w)
  {
    hide AllHomes, Stored, Lost, Missed, SweptUpTo, AllExpired, Roomy, Stuck;
    hide CleanupDue;
    assert AtReserve(c, s0, s, g, w);
    if s'.gs[g].pc.SweepUnlock? {
      AllSwept(c, s0, s.shards, s.lastSweep, g, w);
    }
    assert w.evicted == {} ==> |w.evicted| == 0;
  }

  // ---- Evicting elsewhere ----

  /** A full store whose home shard is empty has a key elsewhere. */
  lemma SomeOther<S>(c: Config<S>, s0: State<S>, s: State<S>, g: nat, w: Witness, i: nat) returns (j: nat)
    requires Shape(c, s0) && |s.gs| == |s0.gs| && g < |s0.gs| && AtOther(c, s0, s, g, w, i)
    requires AllHomes(c, s.shards) && Stored(s.shards) == s.live
    ensures s.shards != [] && |s.shards| == c.shardCount && s.shards[c.hash(s0.gs[g].key)].order == []
    ensures i <= j < c.shardCount && j != c.hash(s0.gs[g].key) && s.shards[j].order != []
  {
    hide AllHomes, Stored, AllExpired, Evicted, RoomDrops;
    var home := c.hash(s0.gs[g].key);
    LostLength(w.mid, s.shards, w.more + w.evicted);
    EmptyStaysEmpty(w.mid, s.shards, w.more + w.evicted, home);
    hide Lost;
    j := OtherHasKeys(c, s.shards, home);
  }

  /** On to the next shard, which exists. */
  lemma GoesOn<S>(c: Config<S>, s0: State<S>, s: State<S>, g: nat, w: Witness, i: nat)
    requires Shape(c, s0) && |s.gs| == |s0.gs| && g < |s0.gs| && AtOther(c, s0, s, g, w, i)
    requires AllHomes(c, s.shards) && Stored(s.shards) == s.live
    ensures var (home, pc) := (c.hash(s0.gs[g].key), NextOther(c, c.hash(s0.gs[g].key), i));
            pc.OtherLock? && pc.i != home && pc.i >= i && AtOther(c, s0, s, g, w, pc.i)
  {
    hide AllHomes, Stored, AfterSweeping;
    var j := SomeOther(c, s0, s, g, w, i);
  }

  lemma FullCheckStep<S>(c: Config<S>, s0: State<S>, s: State<S>, g: nat, s': State<S>, w: Witness)
    requires g < |s.gs| && OnStep(c, s0, s, g, s', w)
    requires s.gs[g].pc.FullCheck? && Exact(c, s, g)
    ensures Solo(c, s0, s', g, w)
  {
    hide AllHomes, Stored, Missed, Roomy, Stuck;
    assert AtReserve(c, s0, s, g, w);
    if s.live >= c.maxKeys {
      GoesOn(c, s0, s, g, w, 0);
    }
    assert |w.evicted| == 0;
  }

  lemma OtherUnlockStep<S>(c: Config<S>, s0: State<S>, s: State<S>, g: nat, s': State<S>, w: Witness)
    requires g < |s.gs| && OnStep(c, s0, s, g, s', w)
    requires (s.gs[g].pc.OtherLock? || s.gs[g].pc.OtherUnlock?) && Exact(c, s, g)
    ensures Solo(c, s0, s', g, w)
  {
    hide AllHomes, Stored, Missed, Stuck, Roomy, NextOther;
    assert AtReserve(c, s0, s, g, w);
    if s.gs[g].pc.OtherUnlock? {
      if s.gs[g].pc.evicted {
          } else {
        GoesOn(c, s0, s, g, w, s.gs[g].pc.i + 1);
      }
    }
  }

  lemma OtherEvictStep<S>(c: Config<S>, s0: State<S>, s: State<S>, g: nat, s': State<S>, w: Witness)
    returns (w': Witness)
    requires g < |s.gs| && OnStep(c, s0, s, g, s', w)
    requires s.gs[g].pc.OtherEvict? && Exact(c, s, g)
    ensures Solo(c, s0, s', g, w')
  {
    hide AllHomes, Stored, Roomy, Remove, CleanedUp, Lost;
    var i := s.gs[g].pc.i;
    assert AtReserve(c, s0, s, g, w);
    w' := w;
    if s.shards[i].order != [] {
      var j := SomeOther(c, s0, s, g, w, i);
      EvictsOldest(c, s0, s, g, w, i);
      w' := w.(evicted := {s.shards[i].order[|s.shards[i].order| - 1]});
    }
    hide Stuck;
  }

  // ---- Creating and deciding ----

  lemma RelockStep<S>(c: Config<S>, s0: State<S>, s: State<S>, g: nat, s': State<S>, w: Witness)
    requires g < |s.gs| && OnStep(c, s0, s, g, s', w)
    requires s.gs[g].pc.Relock? && c.maxKeys > 0
    ensures Solo(c, s0, s', g, w)
  {
    hide AllHomes, Stored, Missed, Roomy;
    assert AtReserve(c, s0, s, g, w);
  }

  lemma RecheckStep<S>(c: Config<S>, s0: State<S>, s: State<S>, g: nat, s': State<S>, w: Witness)
    requires g < |s.gs| && OnStep(c, s0, s, g, s', w)
    requires s.gs[g].pc.Recheck?
    ensures Solo(c, s0, s', g, w)
  {
    hide AllHomes, Stored, Missed, Roomy, Lost, Drops, Evicted;
    assert AtReserve(c, s0, s, g, w);
    RoomySummary(c, s0, s, g, w);
  }

  lemma {:induction false} CreateInPlace<S>(c: Config<S>, s0: State<S>, s: State<S>, g: nat, w: Witness, s': State<S>,
                                            ref: nat)
    requires Tidy(c, s0) && g < |s0.gs| && Missed(c, s0, g, w.mid, w.gone)
    requires Roomy(c, s0, s.shards, s.lastSweep, g, w) && Tidy(c, s) && ref == |s0.objs|
    requires var (key, now, home) := (s0.gs[g].key, s0.gs[g].now, c.hash(s0.gs[g].key));
             s'.shards == s.shards[home := Insert(c.policy, s.shards[home], key, ref, now)]
    requires s'.lastSweep == s.lastSweep && s'.evicts == s0.evicts + |w.evicted|
    ensures InPlace(c, s0, s', g, w.gone + w.more, w.evicted, ref)
  {
    hide AllHomes, Stored, Lost, Drops, Evicted, Placed, CleanedUp, RoomDrops, Insert, AllExpired;
    var (key, now, home, dropped) := (s0.gs[g].key, s0.gs[g].now, c.hash(s0.gs[g].key), w.gone + w.more);
    RoomySummary(c, s0, s, g, w);
    InsertIsLater(c, s.shards, home, key, ref, now);
    DropsLater(c, s0.shards, s.shards, s'.shards, s0.lastSweep, s.lastSweep, key, now, dropped);
    PlacedByInsert(c, s0.shards, s.shards, home, key, ref, now, dropped + w.evicted);
    InsertHomes(c, s.shards, home, key, ref, now);
  }

  lemma CreateStep<S>(c: Config<S>, s0: State<S>, s: State<S>, g: nat, s': State<S>, w: Witness)
    requires g < |s.gs| && OnStep(c, s0, s, g, s', w)
    requires s.gs[g].pc.Create?
    ensures Solo(c, s0, s', g, w)
  {
    hide AllHomes, Stored, InPlace, Insert, Roomy, Answered;
    assert AtReserve(c, s0, s, g, w);
    assert s.gs[g].key !in s0.shards[c.hash(s.gs[g].key)].items;
    hide Missed, AtStart;
    CreateInPlace(c, s0, s, g, w, s', |s.objs|);
  }

  lemma RunStep<S>(c: Config<S>, s0: State<S>, s: State<S>, g: nat, s': State<S>, w: Witness)
    requires g < |s.gs| && OnStep(c, s0, s, g, s', w)
    requires s.gs[g].pc.Run?
    ensures Solo(c, s0, s', g, w)
  {
    hide AllHomes, Stored, Drops, Evicted, Placed, Objects;
    assert InPlace(c, s0, s', g, w.gone + w.more, w.evicted, s.gs[g].pc.ref);
    hide InPlace;
  }

  lemma UnlockStep<S>(c: Config<S>, s0: State<S>, s: State<S>, g: nat, s': State<S>, w: Witness)
    requires g < |s.gs| && OnStep(c, s0, s, g, s', w)
    requires s.gs[g].pc.Unlock?
    ensures Solo(c, s0, s', g, w)
  {
    hide AllHomes, Answered;
    AnsweredFrame(c, s0, s, s', g, w.gone + w.more, w.evicted, s.gs[g].pc.outcome);
  }

  lemma AnsweredFrame<S>(c: Config<S>, s0: State<S>, s: State<S>, s': State<S>, g: nat, dropped: set<Key>,
                         evicted: set<Key>, out: Outcome)
    requires Shape(c, s0) && g < |s0.gs| && Answered(c, s0, s, g, dropped, evicted, out)
    requires s'.shards == s.shards && s'.lastSweep == s.lastSweep && s'.evicts == s.evicts && s'.objs == s.objs
    ensures Answered(c, s0, s', g, dropped, evicted, out)
  {
    hide Stored, Drops, Evicted, Placed, Lost, Objects;
    if out.Ok? {
      var ref: nat :|
        && InPlace(c, s0, s, g, dropped, evicted, ref) && ref < |Objects(c, s0, g)|
        && var (obj, r') := c.alg.decide(Objects(c, s0, g)[ref], s0.gs[g].now);
           out.result == r' && s.objs == Objects(c, s0, g)[ref := obj];
      assert InPlace(c, s0, s', g, dropped, evicted, ref);
    }
  }

  // ---- Every step, and the end ----

  /** A goroutine that runs alone stays on the path of one call. */
  lemma SoloStep<S>(c: Config<S>, s0: State<S>, s: State<S>, g: nat, s': State<S>, w: Witness) returns (w': Witness)
    requires Inv(c, s0) && Inv(c, s) && g < |s.gs| && Solo(c, s0, s, g, w) && Next(c, s, g, s')
    requires Quiet(c, s.gs, g)
    ensures Solo(c, s0, s', g, w')
  {
    hide Locks, Counted, AllPcs, History, Answers, AllHomes, Quiet, Solo, Next, Exact;
    SoloPcs(c, s0, s, g, s', w);
    PcAt(c, s.shards, s.gs, g);
    Counts(c, s, g);
    var pc := s.gs[g].pc;
    w' := w;
    match pc
    case Begin => BeginStep(c, s0, s, g, s', w);
    case Lookup => BeginStep(c, s0, s, g, s', w);
    case Cleanup(cont) =>
      if cont.Swept? {
        w' := VisitStep(c, s0, s, g, s', w);
      } else {
        w' := HomeCleanupStep(c, s0, s, g, s', w);
      }
    case Delete(_, cont) =>
      if cont.Swept? {
        w' := SweepRemovingStep(c, s0, s, g, s', w);
      } else {
        w' := HomeRemovingStep(c, s0, s, g, s', w);
      }
    case Uncount(_, cont) =>
      if cont.Swept? {
        w' := SweepRemovingStep(c, s0, s, g, s', w);
      } else {
        w' := HomeRemovingStep(c, s0, s, g, s', w);
      }
    case Reserve => ReserveStep(c, s0, s, g, s', w);
    case Load => LoadStep(c, s0, s, g, s', w);
    case Cas(_) => CasStep(c, s0, s, g, s', w);
    case Evict => w' := EvictStep(c, s0, s, g, s', w);
    case EvictUncount(_) => EvictedStep(c, s0, s, g, s', w);
    case EvictCount(_) => EvictedStep(c, s0, s, g, s', w);
    case Release => ReleaseStep(c, s0, s, g, s', w);
    case SweepLock => ReleaseStep(c, s0, s, g, s', w);
    case SweepGate => GateStep(c, s0, s, g, s', w);
    case SweepShardLock(_) => ArriveStep(c, s0, s, g, s', w);
    case SweepShardUnlock(_) => SweptStep(c, s0, s, g, s', w);
    case SweepUnlock => SweptStep(c, s0, s, g, s', w);
    case FullCheck => FullCheckStep(c, s0, s, g, s', w);
    case OtherLock(_) => OtherUnlockStep(c, s0, s, g, s', w);
    case OtherEvict(_) => w' := OtherEvictStep(c, s0, s, g, s', w);
    case OtherUnlock(_, _) => OtherUnlockStep(c, s0, s, g, s', w);
    case Relock => RelockStep(c, s0, s, g, s', w);
    case Recheck => RecheckStep(c, s0, s, g, s', w);
    case Create => CreateStep(c, s0, s, g, s', w);
    case Run(_) => RunStep(c, s0, s, g, s', w);
    case Unlock(_) => UnlockStep(c, s0, s, g, s', w);
    case _ =>
  }

  /** A goroutine alone never finds that its key has been created meanwhile. */
  lemma SoloPcs<S>(c: Config<S>, s0: State<S>, s: State<S>, g: nat, s': State<S>, w: Witness)
    requires Shape(c, s) && g < |s.gs| && Solo(c, s0, s, g, w) && Next(c, s, g, s')
    ensures !s.gs[g].pc.GiveBack? && !s.gs[g].pc.TouchAgain? && !s.gs[g].pc.Done?
  {
    hide Succ, MayScan, Missed, Answered, InPlace, Roomy;
  }

  /** How far a goroutine that runs alone is from its end. */
  ghost function Rank<S>(c: Config<S>, s: State<S>, g: nat): (nat, int, nat, nat)
    requires g < |s.gs|
  {
    var (me, n) := (s.gs[g], c.shardCount);
    match me.pc
    case Begin => (31, 0, 0, 0)
    case Lookup => (30, 0, 0, 0)
    case Cleanup(cont) => if cont.Swept? then (15, n - cont.i, 2, 0) else (29, 0, 0, 0)
    case Delete(batch, cont) => if cont.Swept? then (15, n - cont.i, 1, 2 * |batch|) else (28, 0, 0, 2 * |batch|)
    case Uncount(batch, cont) =>
      if cont.Swept? then (15, n - cont.i, 1, 2 * |batch| + 1) else (28, 0, 0, 2 * |batch| + 1)
    case Reserve => (27, 0, 0, 0)
    case Load => if s.live < c.maxKeys || me.swept then (6, 0, 0, 0) else (20, 0, 0, 0)
    case Cas(_) => (5, 0, 0, 0)
    case Evict => (19, 0, 0, 0)
    case EvictUncount(_) => (10, 0, 0, 0)
    case EvictCount(_) => (9, 0, 0, 0)
    case Release => (18, 0, 0, 0)
    case SweepLock => (17, 0, 0, 0)
    case SweepGate => (16, 0, 0, 0)
    case SweepShardLock(i) => (15, n - i, 3, 0)
    case SweepShardUnlock(i) => (15, n - i, 0, 0)
    case SweepUnlock => (14, 0, 0, 0)
    case FullCheck => (13, 0, 0, 0)
    case OtherLock(i) => (12, n - i, 2, 0)
    case OtherEvict(i) => (12, n - i, 1, 0)
    case OtherUnlock(i, evicted) => if evicted then (8, 0, 0, 0) else (12, n - i, 0, 0)
    case Relock => (7, 0, 0, 0)
    case Recheck => (4, 0, 0, 0)
    case Create => (3, 0, 0, 0)
    case Run(_) => (2, 0, 0, 0)
    case Unlock(_) => (1, 0, 0, 0)
    case _ => (0, 0, 0, 0)
  }

  ghost predicate Nearer(a: (nat, int, nat, nat), b: (nat, int, nat, nat)) {
    || a.0 < b.0
    || (a.0 == b.0 && 0 <= a.1 < b.1)
    || (a.0 == b.0 && a.1 == b.1 && a.2 < b.2)
    || (a.0 == b.0 && a.1 == b.1 && a.2 == b.2 && a.3 < b.3)
  }

  /** What the place of the goroutine says about the counter. */
  ghost predicate OnTrack<S>(c: Config<S>, s: State<S>, me: Goroutine) {
    match me.pc
    case Load => me.swept && c.policy == EvictLRU ==> s.live < c.maxKeys
    case Cas(n) => n == s.live
    case EvictCount(_) => s.live < c.maxKeys
    case Relock => s.live < c.maxKeys || me.swept
    case GiveBack(_) => false
    case TouchAgain(_) => false
    case Delete(_, cont) => cont.Swept? ==> cont.i < c.shardCount
    case SweepShardUnlock(i) => i < c.shardCount
    case _ => true
  }

  lemma SoloOnTrack<S>(c: Config<S>, s0: State<S>, s: State<S>, g: nat, w: Witness)
    requires g < |s.gs| && Solo(c, s0, s, g, w)
    ensures OnTrack(c, s, s.gs[g])
  {
    hide Missed, Answered, InPlace, Roomy, Cleaning, Untried, Stuck, SweptUpTo, Lost, AllExpired;
  }

  lemma LockNearer<S>(c: Config<S>, s: State<S>, g: nat, s': State<S>)
    requires Shape(c, s) && g < |s.gs| && Next(c, s, g, s') && OnTrack(c, s, s.gs[g]) && AtLock(s.gs[g].pc)
    ensures |s'.gs| == |s.gs| && Nearer(Rank(c, s', g), Rank(c, s, g))
  {
    hide CleanupDue;
    match s.gs[g].pc
    case Begin =>
    case Release =>
    case SweepLock =>
    case SweepGate =>
    case SweepShardLock(_) =>
    case SweepShardUnlock(_) =>
    case SweepUnlock =>
    case FullCheck =>
    case OtherLock(_) =>
    case OtherUnlock(_, _) =>
    case Relock =>
    case Unlock(_) =>
  }

  lemma LookNearer<S>(c: Config<S>, s: State<S>, g: nat, s': State<S>)
    requires Shape(c, s) && g < |s.gs| && Next(c, s, g, s') && OnTrack(c, s, s.gs[g]) && LookOrClean(s.gs[g].pc)
    ensures |s'.gs| == |s.gs| && Nearer(Rank(c, s', g), Rank(c, s, g))
  {
    hide Touch, Remove, Scan, ExpiredOf, CleanupDue;
    match s.gs[g].pc
    case Lookup =>
    case Cleanup(_) =>
    case Delete(_, _) =>
    case Uncount(_, _) =>
  }

  lemma WorkNearer<S>(c: Config<S>, s: State<S>, g: nat, s': State<S>)
    requires Shape(c, s) && g < |s.gs| && Next(c, s, g, s') && OnTrack(c, s, s.gs[g])
    requires !AtLock(s.gs[g].pc) && !LookOrClean(s.gs[g].pc)
    ensures |s'.gs| == |s.gs| && Nearer(Rank(c, s', g), Rank(c, s, g))
  {
    hide Touch, Insert, Remove;
    match s.gs[g].pc
    case Reserve =>
    case Load =>
    case Cas(_) =>
    case Evict =>
    case EvictUncount(_) =>
    case EvictCount(_) =>
    case OtherEvict(_) =>
    case Recheck =>
    case Create =>
    case Run(_) =>
  }

  lemma StepNearer<S>(c: Config<S>, s: State<S>, g: nat, s': State<S>)
    requires Shape(c, s) && g < |s.gs| && Next(c, s, g, s') && OnTrack(c, s, s.gs[g])
    ensures |s'.gs| == |s.gs| && Nearer(Rank(c, s', g), Rank(c, s, g))
  {
    hide Next, AtLock, LookOrClean, Nearer, Rank, OnTrack;
    if AtLock(s.gs[g].pc) {
      LockNearer(c, s, g, s');
    } else if LookOrClean(s.gs[g].pc) {
      LookNearer(c, s, g, s');
    } else {
      WorkNearer(c, s, g, s');
    }
  }

  /** While the others hold no lock, the goroutine waits for none. */
  lemma QuietUnblocked<S>(c: Config<S>, s: State<S>, g: nat)
    requires Inv(c, s) && g < |s.gs| && Quiet(c, s.gs, g)
    ensures Unblocked(c, s, g)
  {
    hide Counted, AllHomes, History, Answers;
    PcAt(c, s.shards, s.gs, g);
    hide AllPcs;
    if Wants(c, s.gs[g]).Some? {
      var i := Wants(c, s.gs[g]).value;
      assert i < |s.owner|;
      assert s.owner[i].Some? ==> Locked(c, s.gs[s.owner[i].value]) == Some(i);
      assert Locked(c, s.gs[g]) == None;
    }
  }

  /** A run of `g` alone: from its beginning, while the others hold no lock, every step is its. */
  ghost predicate Alone<S>(c: Config<S>, run: seq<State<S>>, g: nat) {
    && run != [] && Inv(c, run[0]) && g < |run[0].gs| && run[0].gs[g].pc.Begin? && Quiet(c, run[0].gs, g)
    && forall i :: 0 <= i < |run| - 1 ==> Shape(c, run[i]) && g < |run[i].gs| && Next(c, run[i], g, run[i + 1])
  }

  lemma {:induction false} AloneAt<S>(c: Config<S>, run: seq<State<S>>, g: nat, n: nat) returns (w: Witness)
    requires Alone(c, run, g) && n < |run|
    ensures Inv(c, run[n]) && Shape(c, run[n]) && Quiet(c, run[n].gs, g)
    ensures Shape(c, run[0]) && g < |run[n].gs| && Solo(c, run[0], run[n], g, w)
    decreases n
  {
    hide Locks, Counted, AllPcs, History, Answers, AllHomes, Next, Quiet, Missed;
    if n == 0 {
      w := Witness([], {}, [], {}, {}, {});
      assert run[0].gs == run[0].gs[g := run[0].gs[g]];
      assert AtStart(c, run[0], run[0], g, w);
    } else {
      w := AloneAt(c, run, g, n - 1);
      hide Solo;
      assert Next(c, run[n - 1], g, run[(n - 1) + 1]);
      w := SoloStep(c, run[0], run[n - 1], g, run[n], w);
      InvStep(c, run[n - 1], g, run[n]);
      AnyStepFor(c, run[n - 1], g, run[n]);
      QuietOthers(c, run[n - 1].gs, g, run[n].gs[g]);
    }
  }

  lemma QuietOthers<S>(c: Config<S>, gs: seq<Goroutine>, g: nat, me: Goroutine)
    requires Quiet(c, gs, g) && g < |gs|
    ensures Quiet(c, gs[g := me], g)
  {
    hide Locked, HoldsSweep;
  }

  /** A goroutine that runs alone answers as the sequential store: it drops exactly what that
      drops, evicts what it evicts, and serves or rejects the call as it does. */
  lemma AloneAnswers<S>(c: Config<S>, run: seq<State<S>>, g: nat, n: nat) returns (dropped: set<Key>, evicted: set<Key>)
    requires Alone(c, run, g) && n < |run| && g < |run[n].gs| && run[n].gs[g].pc.Done?
    ensures Shape(c, run[0]) && Answered(c, run[0], run[n], g, dropped, evicted, run[n].gs[g].pc.outcome)
  {
    hide Alone, Inv, Answered, Quiet;
    var w := AloneAt(c, run, g, n);
    dropped, evicted := w.gone + w.more, w.evicted;
  }

  /** And it does return: it is never stuck, and no run of it alone goes on for ever. */
  lemma {:induction false} AloneReturns<S>(c: Config<S>, run: seq<State<S>>, g: nat) returns (whole: seq<State<S>>)
    requires Alone(c, run, g)
    ensures Alone(c, whole, g) && run <= whole
    ensures g < |whole[|whole| - 1].gs| && whole[|whole| - 1].gs[g].pc.Done?
    decreases var last := run[|run| - 1]; if g < |last.gs| then Rank(c, last, g).0 else 0,
              var last := run[|run| - 1]; if g < |last.gs| then Rank(c, last, g).1 else 0,
              var last := run[|run| - 1]; if g < |last.gs| then Rank(c, last, g).2 else 0,
              var last := run[|run| - 1]; if g < |last.gs| then Rank(c, last, g).3 else 0
  {
    hide Inv, Next, Quiet, Solo, Rank, OnTrack, Unblocked;
    var s := run[|run| - 1];
    var w := AloneAt(c, run, g, |run| - 1);
    if s.gs[g].pc.Done? {
      whole := run;
    } else {
      QuietUnblocked(c, s, g);
      var s' := CanStep(c, s, g);
      SoloOnTrack(c, run[0], s, g, w);
      StepNearer(c, s, g, s');
      var more := run + [s'];
      assert Alone(c, more, g);
      whole := AloneReturns(c, more, g);
    }
  }

}
