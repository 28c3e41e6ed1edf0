/** The key store as a concurrent protocol (memory/sharded_store.go). Any number of
    goroutines call withState; each step below is one lock or unlock, one atomic
    operation on `live` or `evicts`, or one access to a shard whose lock is held. */
module Protocol {
  import opened Limiter
  import opened Shards

  /** What happened to the states, in order. A state object is created, used by the
      decisions of goroutines, and dropped with its key. */
  datatype Event =
    | Created(key: Key, now: int)
    | Ran(g: nat, key: Key, now: int, result: Result)
    | Removed(key: Key, now: int)

  /** Where a cleanup goes on: the key was found, it was not, or shard `i` is being swept. */
  datatype Cont = Hit(ref: nat) | Miss | Swept(i: nat)

  /** Where an eviction goes on: the home shard, or shard `i` of evictAnyOther. */
  datatype Back = Local | Other(i: nat)

  datatype Pc =
    | Begin                                  // sh.mu.Lock() in withState
    | Lookup                                 // first look at the key, touching it if found
    | Cleanup(cont: Cont)                    // gate and scan of cleanupMap/cleanupLRU
    | Delete(batch: seq<Key>, cont: Cont)    // delete the next expired key
    | Uncount(batch: seq<Key>, cont: Cont)   // live.Add(-1) for the deleted key
    | Reserve                                // entry of reserveSlot
    | Load                                   // n := live.Load()
    | Cas(n: int)                            // live.CompareAndSwap(n, n+1)
    | Evict                                  // full, EvictLRU: evictFrom(sh)
    | EvictUncount(back: Back)               // live.Add(-1) in evictFrom
    | EvictCount(back: Back)                 // evicts.Add(1) in evictFrom
    | Release                                // sh.mu.Unlock() in reserveSlot
    | SweepLock                              // sweepMu.Lock()
    | SweepGate                              // the lastSweep rate limit
    | SweepShardLock(i: nat)
    | SweepShardUnlock(i: nat)
    | SweepUnlock                            // sweepMu.Unlock()
    | FullCheck                              // live.Load() >= maxKeys before evictAnyOther
    | OtherLock(i: nat)
    | OtherEvict(i: nat)                     // evictFrom(other)
    | OtherUnlock(i: nat, evicted: bool)
    | Relock                                 // sh.mu.Lock() in reserveSlot
    | Recheck                                // second look at the key, slot reserved
    | GiveBack(ref: nat)                     // live.Add(-1): the key exists by now
    | TouchAgain(ref: nat)
    | Create                                 // create the state and store the key
    | Run(ref: nat)                          // fn(v, now)
    | Unlock(outcome: Outcome)               // deferred sh.mu.Unlock()
    | Done(outcome: Outcome)

  datatype Goroutine = Goroutine(key: Key, now: int, swept: bool, pc: Pc)

  /** `objs` is the heap of state objects; entries refer to them by index. */
  datatype State<S> = State(
    live: int, evicts: nat, shards: seq<Shard<nat>>, owner: seq<Option<nat>>,
    sweepOwner: Option<nat>, lastSweep: Option<int>, objs: seq<S>, gs: seq<Goroutine>, log: seq<Event>)

  /** The shapes that never change during a run. */
  ghost predicate Shape<S>(c: Config<S>, s: State<S>) {
    c.Valid() && |s.shards| == |s.owner| == c.shardCount
  }

  function Goto<S>(s: State<S>, g: nat, pc: Pc): State<S>
    requires g < |s.gs|
  {
    s.(gs := s.gs[g := s.gs[g].(pc := pc)])
  }

  function Put<S>(s: State<S>, i: nat, sh: Shard<nat>): State<S>
    requires i < |s.shards|
  {
    s.(shards := s.shards[i := sh])
  }

  function Target(home: nat, cont: Cont): nat { if cont.Swept? then cont.i else home }

  function BackTarget(home: nat, back: Back): nat { if back.Other? then back.i else home }

  function Proceed(cont: Cont): Pc {
    match cont
    case Hit(ref) => Run(ref)
    case Miss => Reserve
    case Swept(i) => SweepShardUnlock(i)
  }

  /** After the sweep: EvictLRU may have to evict elsewhere, EvictReject looks again. */
  function AfterSweep<S>(c: Config<S>): Pc { if c.policy == EvictLRU then FullCheck else Relock }

  /** The first shard from `i` on that is not the home shard. */
  function NextOther<S>(c: Config<S>, home: nat, i: nat): Pc {
    var j := if i == home then i + 1 else i;
    if j < c.shardCount then OtherLock(j) else Relock
  }

  function Take<S>(s: State<S>, g: nat, i: nat, pc: Pc): State<S>
    requires g < |s.gs| && i < |s.owner|
  {
    Goto(s.(owner := s.owner[i := Some(g)]), g, pc)
  }

  function Free<S>(s: State<S>, g: nat, i: nat, pc: Pc): State<S>
    requires g < |s.gs| && i < |s.owner|
  {
    Goto(s.(owner := s.owner[i := None]), g, pc)
  }

  /** evictFrom on shard `i`: drop the oldest key, or find the shard empty. */
  function EvictFrom<S>(s: State<S>, g: nat, i: nat, back: Back, empty: Pc): State<S>
    requires g < |s.gs| && i < |s.shards|
  {
    var sh := s.shards[i];
    if sh.order == [] then Goto(s, g, empty) else
    var key := sh.order[|sh.order| - 1];
    Goto(Put(s, i, Remove(sh, key)).(log := s.log + [Removed(key, s.gs[g].now)]), g, EvictUncount(back))
  }

  /** Goroutine `g` can step: a lock it is to take is free, and what it refers to exists. */
  ghost predicate Ready<S>(c: Config<S>, s: State<S>, g: nat)
    requires Shape(c, s) && g < |s.gs|
  {
    var me := s.gs[g];
    var home := c.hash(me.key);
    match me.pc
    case Begin => s.owner[home] == None
    case Cleanup(cont) => Target(home, cont) < c.shardCount
    case Delete(_, cont) => Target(home, cont) < c.shardCount
    case SweepLock => s.sweepOwner == None
    case SweepShardLock(i) => i < c.shardCount && s.owner[i] == None
    case SweepShardUnlock(i) => i < c.shardCount
    case OtherLock(i) => i < c.shardCount && s.owner[i] == None
    case OtherEvict(i) => i < c.shardCount
    case OtherUnlock(i, _) => i < c.shardCount
    case Relock => s.owner[home] == None
    case TouchAgain(_) => me.key in s.shards[home].items
    case Run(ref) => ref < |s.objs|
    case Done(_) => false
    case _ => true
  }

  /** The step of goroutine `g`; `scanned` are the keys a cleanup looks at. */
  ghost function Succ<S>(c: Config<S>, s: State<S>, g: nat, scanned: seq<Key>): State<S>
    requires Shape(c, s) && g < |s.gs| && Ready(c, s, g)
  {
    var me := s.gs[g];
    var home := c.hash(me.key);
    match me.pc
    case Begin => Take(s, g, home, Lookup)
    case Lookup =>
      var sh := s.shards[home];
      if me.key in sh.items then
        Goto(Put(s, home, Touch(c.policy, sh, me.key, me.now)), g, Cleanup(Hit(sh.items[me.key].value)))
      else Goto(s, g, Cleanup(Miss))
    case Cleanup(cont) =>
      var i := Target(home, cont);
      var sh := s.shards[i];
      if CleanupDue(c, sh.lastCleanup, me.now) then
        Goto(Put(s, i, sh.(lastCleanup := Some(me.now))), g, Delete(ExpiredOf(c, sh, me.now, scanned), cont))
      else Goto(s, g, Proceed(cont))
    case Delete(batch, cont) =>
      var i := Target(home, cont);
      if batch == [] then Goto(s, g, Proceed(cont))
      else if batch[0] !in s.shards[i].items then Goto(s, g, Delete(batch[1..], cont))
      else Goto(Put(s, i, Remove(s.shards[i], batch[0])).(log := s.log + [Removed(batch[0], me.now)]),
                g, Uncount(batch[1..], cont))
    case Uncount(batch, cont) => Goto(s.(live := s.live - 1), g, Delete(batch, cont))
    case Reserve =>
      if c.maxKeys == 0 then Goto(s.(live := s.live + 1), g, Recheck)
      else s.(gs := s.gs[g := me.(pc := Load, swept := false)])
    case Load =>
      Goto(s, g,
        if s.live < c.maxKeys then Cas(s.live)
        else if c.policy == EvictLRU then Evict
        else if me.swept then Unlock(MaxKeysExceeded)
        else Release)
    case Cas(n) => if s.live == n then Goto(s.(live := n + 1), g, Recheck) else Goto(s, g, Load)
    case Evict => EvictFrom(s, g, home, Local, Release)
    case EvictUncount(back) => Goto(s.(live := s.live - 1), g, EvictCount(back))
    case EvictCount(back) =>
      Goto(s.(evicts := s.evicts + 1), g, if back.Other? then OtherUnlock(back.i, true) else Load)
    case Release =>
      var pc := if !me.swept && c.CleanupEnabled() then SweepLock else AfterSweep(c);
      Free(s.(gs := s.gs[g := me.(swept := true)]), g, home, pc)
    case SweepLock => Goto(s.(sweepOwner := Some(g)), g, SweepGate)
    case SweepGate =>
      if CleanupDue(c, s.lastSweep, me.now) then Goto(s.(lastSweep := Some(me.now)), g, SweepShardLock(0))
      else Goto(s, g, SweepUnlock)
    case SweepShardLock(i) => Take(s, g, i, Cleanup(Swept(i)))
    case SweepShardUnlock(i) => Free(s, g, i, if i + 1 < c.shardCount then SweepShardLock(i + 1) else SweepUnlock)
    case SweepUnlock => Goto(s.(sweepOwner := None), g, AfterSweep(c))
    case FullCheck => Goto(s, g, if s.live >= c.maxKeys then NextOther(c, home, 0) else Relock)
    case OtherLock(i) => Take(s, g, i, OtherEvict(i))
    case OtherEvict(i) => EvictFrom(s, g, i, Other(i), OtherUnlock(i, false))
    case OtherUnlock(i, evicted) => Free(s, g, i, if evicted then Relock else NextOther(c, home, i + 1))
    case Relock => Take(s, g, home, Load)
    case Recheck =>
      var sh := s.shards[home];
      Goto(s, g, if me.key in sh.items then GiveBack(sh.items[me.key].value) else Create)
    case GiveBack(ref) => Goto(s.(live := s.live - 1), g, TouchAgain(ref))
    case TouchAgain(ref) => Goto(Put(s, home, Touch(c.policy, s.shards[home], me.key, me.now)), g, Run(ref))
    case Create =>
      var ref: nat := |s.objs|;
      Goto(Put(s, home, Insert(c.policy, s.shards[home], me.key, ref, me.now))
             .(objs := s.objs + [c.alg.create(me.now)], log := s.log + [Created(me.key, me.now)]),
           g, Run(ref))
    case Run(ref) =>
      var (obj, r) := c.alg.decide(s.objs[ref], me.now);
      Goto(s.(objs := s.objs[ref := obj], log := s.log + [Ran(g, me.key, me.now, r)]), g, Unlock(Ok(r)))
    case Unlock(outcome) => Free(s, g, home, Done(outcome))
  }

  /** What a cleanup of goroutine `g` may look at; no other step looks at `scanned`. */
  ghost predicate MayScan<S>(c: Config<S>, s: State<S>, g: nat, scanned: seq<Key>)
    requires Shape(c, s) && g < |s.gs| && Ready(c, s, g)
  {
    var me := s.gs[g];
    me.pc.Cleanup? ==> Scan(c.policy, s.shards[Target(c.hash(me.key), me.pc.cont)], scanned)
  }

  /** One step of goroutine `g`. */
  ghost predicate Next<S>(c: Config<S>, s: State<S>, g: nat, s': State<S>)
    requires Shape(c, s) && g < |s.gs|
  {
    Ready(c, s, g) && exists scanned: seq<Key> :: MayScan(c, s, g, scanned) && s' == Succ(c, s, g, scanned)
  }

  /** An empty store and any number of goroutines, each about to serve one request. */
  ghost predicate Init<S>(c: Config<S>, s: State<S>) {
    && Shape(c, s)
    && s.live == 0 && s.evicts == 0 && s.objs == [] && s.log == []
    && s.sweepOwner == None && s.lastSweep == None
    && (forall i :: 0 <= i < c.shardCount ==> s.shards[i] == EMPTY_SHARD && s.owner[i] == None)
    && (forall g :: 0 <= g < |s.gs| ==> s.gs[g].pc == Begin)
  }

  ghost predicate Step<S>(c: Config<S>, s: State<S>, s': State<S>) {
    Shape(c, s) && exists g: nat :: g < |s.gs| && Next(c, s, g, s')
  }

  /** A run: any interleaving of goroutine steps from an initial state. */
  ghost predicate Execution<S>(c: Config<S>, run: seq<State<S>>) {
    && run != [] && Init(c, run[0])
    && forall i :: 0 <= i < |run| - 1 ==> Step(c, run[i], run[i + 1])
  }

  // ---- What the log means ----

  /** The state of `key` after the events of the log, run one after the other. */
  ghost function Replay<S>(alg: Algorithm<S>, log: seq<Event>, key: Key): Option<S> {
    if log == [] then None else
    var before := Replay(alg, log[..|log| - 1], key);
    match log[|log| - 1]
    case Created(k, now) => if k == key then Some(alg.create(now)) else before
    case Ran(_, k, now, _) =>
      if k == key && before.Some? then Some(alg.decide(before.value, now).0) else before
    case Removed(k, _) => if k == key then None else before
  }

  /** The log is a sequential history: a state is created only where there is none, every
      result is what the decision function returns on the one current state of the key. */
  ghost predicate Legal<S>(alg: Algorithm<S>, log: seq<Event>) {
    log == [] ||
    var init := log[..|log| - 1];
    && Legal(alg, init)
    && match log[|log| - 1]
       case Created(k, _) => Replay(alg, init, k).None?
       case Ran(_, k, now, r) =>
         Replay(alg, init, k).Some? && r == alg.decide(Replay(alg, init, k).value, now).1
       case Removed(k, _) => Replay(alg, init, k).Some?
  }

  /** The decisions goroutine `g` has run. */
  ghost function RunsOf(log: seq<Event>, g: nat): seq<Event> {
    if log == [] then [] else
    var last := log[|log| - 1];
    RunsOf(log[..|log| - 1], g) + (if last.Ran? && last.g == g then [last] else [])
  }
}
