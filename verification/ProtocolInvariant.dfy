/** The invariant of the protocol, part by part, with what each kind of step does to it. */
module ProtocolInvariant {
  import opened Limiter
  import opened Shards
  import opened Protocol

  // ---- Locks ----

  /** The shard lock a goroutine holds. */
  ghost function Locked<S>(c: Config<S>, me: Goroutine): Option<nat> {
    var home := c.hash(me.key);
    match me.pc
    case Begin => None
    case SweepLock => None
    case SweepGate => None
    case SweepShardLock(_) => None
    case SweepUnlock => None
    case FullCheck => None
    case OtherLock(_) => None
    case Relock => None
    case Done(_) => None
    case Cleanup(cont) => Some(Target(home, cont))
    case Delete(_, cont) => Some(Target(home, cont))
    case Uncount(_, cont) => Some(Target(home, cont))
    case EvictUncount(back) => Some(BackTarget(home, back))
    case EvictCount(back) => Some(BackTarget(home, back))
    case SweepShardUnlock(i) => Some(i)
    case OtherEvict(i) => Some(i)
    case OtherUnlock(i, _) => Some(i)
    case _ => Some(home)
  }

  ghost predicate HoldsSweep(pc: Pc) {
    match pc
    case SweepGate => true
    case SweepShardLock(_) => true
    case SweepShardUnlock(_) => true
    case SweepUnlock => true
    case Cleanup(cont) => cont.Swept?
    case Delete(_, cont) => cont.Swept?
    case Uncount(_, cont) => cont.Swept?
    case _ => false
  }

  /** Every lock has at most one owner, and the owner's program counter shows it. A
      goroutine has a single `Locked` shard, so none ever holds two. */
  ghost predicate Locks<S>(c: Config<S>, owner: seq<Option<nat>>, sweep: Option<nat>, gs: seq<Goroutine>) {
    && (forall g :: 0 <= g < |gs| && Locked(c, gs[g]).Some? ==>
          Locked(c, gs[g]).value < |owner| && owner[Locked(c, gs[g]).value] == Some(g))
    && (forall i :: 0 <= i < |owner| && owner[i].Some? ==>
          owner[i].value < |gs| && Locked(c, gs[owner[i].value]) == Some(i))
    && (forall g :: 0 <= g < |gs| && HoldsSweep(gs[g].pc) ==> sweep == Some(g))
    && (sweep.Some? ==> sweep.value < |gs| && HoldsSweep(gs[sweep.value].pc))
  }

  lemma LocksSame<S>(c: Config<S>, owner: seq<Option<nat>>, sweep: Option<nat>, gs: seq<Goroutine>, g: nat,
                     me: Goroutine)
    requires Locks(c, owner, sweep, gs) && g < |gs|
    requires Locked(c, me) == Locked(c, gs[g]) && HoldsSweep(me.pc) == HoldsSweep(gs[g].pc)
    ensures Locks(c, owner, sweep, gs[g := me])
  {
    hide Locked, HoldsSweep;
  }

  lemma LocksTake<S>(c: Config<S>, owner: seq<Option<nat>>, sweep: Option<nat>, gs: seq<Goroutine>, g: nat,
                     me: Goroutine, i: nat)
    requires Locks(c, owner, sweep, gs) && g < |gs| && i < |owner|
    requires owner[i] == None && Locked(c, gs[g]) == None && Locked(c, me) == Some(i)
    requires HoldsSweep(me.pc) == HoldsSweep(gs[g].pc)
    ensures Locks(c, owner[i := Some(g)], sweep, gs[g := me])
  {
    hide Locked, HoldsSweep;
  }

  lemma LocksFree<S>(c: Config<S>, owner: seq<Option<nat>>, sweep: Option<nat>, gs: seq<Goroutine>, g: nat,
                     me: Goroutine, i: nat)
    requires Locks(c, owner, sweep, gs) && g < |gs|
    requires Locked(c, gs[g]) == Some(i) && Locked(c, me) == None
    requires HoldsSweep(me.pc) == HoldsSweep(gs[g].pc)
    ensures i < |owner| && Locks(c, owner[i := None], sweep, gs[g := me])
  {
    hide Locked, HoldsSweep;
  }

  lemma LocksSweep<S>(c: Config<S>, owner: seq<Option<nat>>, sweep: Option<nat>, gs: seq<Goroutine>, g: nat,
                      me: Goroutine, sweep': Option<nat>)
    requires Locks(c, owner, sweep, gs) && g < |gs| && Locked(c, me) == Locked(c, gs[g])
    requires if HoldsSweep(gs[g].pc) then !HoldsSweep(me.pc) && sweep' == None
             else HoldsSweep(me.pc) && sweep == None && sweep' == Some(g)
    ensures Locks(c, owner, sweep', gs[g := me])
  {
    hide Locked, HoldsSweep;
  }

  // ---- Counting ----

  /** One for a slot reserved but not yet used or given back, and for a removed key whose
      decrement of `live` is still to come. */
  ghost function Debt(pc: Pc): nat {
    match pc
    case Uncount(_, _) => 1
    case EvictUncount(_) => 1
    case Recheck => 1
    case GiveBack(_) => 1
    case Create => 1
    case _ => 0
  }

  ghost function Debts(gs: seq<Goroutine>): nat {
    if gs == [] then 0 else Debts(gs[..|gs| - 1]) + Debt(gs[|gs| - 1].pc)
  }

  /** `live` counts exactly the stored keys and the debts, and never exceeds the cap. */
  ghost predicate Counted<S>(c: Config<S>, live: int, shards: seq<Shard<nat>>, gs: seq<Goroutine>) {
    live == Stored(shards) + Debts(gs) && (c.maxKeys > 0 ==> live <= c.maxKeys)
  }

  lemma {:induction false} DebtsPut(gs: seq<Goroutine>, g: nat, me: Goroutine)
    requires g < |gs|
    ensures Debts(gs[g := me]) == Debts(gs) - Debt(gs[g].pc) + Debt(me.pc)
    decreases |gs|
  {
    hide Debt;
    var n := |gs| - 1;
    if g == n {
      assert gs[g := me][..n] == gs[..n];
    } else {
      assert gs[g := me][..n] == gs[..n][g := me];
      DebtsPut(gs[..n], g, me);
    }
  }

  // ---- Program counters ----

  ghost predicate HasRef(sh: Shard<nat>, key: Key, ref: nat) {
    key in sh.items && sh.items[key].value == ref
  }

  /** A key found at the first look stays where it was, just touched, through its cleanup. */
  ghost predicate ContOk<S>(c: Config<S>, sh: Shard<nat>, me: Goroutine, cont: Cont) {
    match cont
    case Hit(ref) => HasRef(sh, me.key, ref) && sh.items[me.key].lastSeen == me.now
    case Miss => true
    case Swept(i) => i < c.shardCount && c.maxKeys > 0
  }

  ghost predicate BatchOk(me: Goroutine, batch: seq<Key>, cont: Cont) {
    cont.Hit? ==> me.key !in batch
  }

  /** What each program counter says about the goroutine and the shard it holds. */
  ghost predicate PcOk<S>(c: Config<S>, sh: Shard<nat>, me: Goroutine) {
    match me.pc
    case Cleanup(cont) => ContOk(c, sh, me, cont)
    case Delete(batch, cont) => ContOk(c, sh, me, cont) && BatchOk(me, batch, cont)
    case Uncount(batch, cont) => ContOk(c, sh, me, cont) && BatchOk(me, batch, cont)
    case Load => c.maxKeys > 0
    case Cas(n) => c.maxKeys > 0 && n < c.maxKeys
    case Evict => c.maxKeys > 0 && c.policy == EvictLRU
    case EvictUncount(back) => c.maxKeys > 0 && c.policy == EvictLRU && (back.Other? ==> back.i < c.shardCount)
    case EvictCount(back) => c.maxKeys > 0 && c.policy == EvictLRU && (back.Other? ==> back.i < c.shardCount)
    case Release => c.maxKeys > 0
    case SweepLock => c.maxKeys > 0
    case SweepGate => c.maxKeys > 0
    case SweepShardLock(i) => c.maxKeys > 0 && i < c.shardCount
    case SweepShardUnlock(i) => c.maxKeys > 0 && i < c.shardCount
    case SweepUnlock => c.maxKeys > 0
    case FullCheck => c.maxKeys > 0 && c.policy == EvictLRU
    case OtherLock(i) => c.maxKeys > 0 && c.policy == EvictLRU && i < c.shardCount
    case OtherEvict(i) => c.maxKeys > 0 && c.policy == EvictLRU && i < c.shardCount
    case OtherUnlock(i, _) => c.maxKeys > 0 && c.policy == EvictLRU && i < c.shardCount
    case Relock => c.maxKeys > 0
    case GiveBack(ref) => HasRef(sh, me.key, ref)
    case TouchAgain(ref) => HasRef(sh, me.key, ref)
    case Create => me.key !in sh.items
    case Run(ref) => HasRef(sh, me.key, ref)
    case Unlock(o) => o.MaxKeysExceeded? ==> c.maxKeys > 0 && c.policy == EvictReject
    case Done(o) => o.MaxKeysExceeded? ==> c.maxKeys > 0 && c.policy == EvictReject
    case _ => true
  }

  ghost predicate AllPcs<S>(c: Config<S>, shards: seq<Shard<nat>>, gs: seq<Goroutine>)
    requires c.Valid() && |shards| == c.shardCount
  {
    forall g :: 0 <= g < |gs| ==> PcOk(c, shards[c.hash(gs[g].key)], gs[g])
  }

  /** Only the holder of a shard lock relies on what the shard holds. */
  lemma PcOkFrame<S>(c: Config<S>, sh: Shard<nat>, sh': Shard<nat>, me: Goroutine)
    requires PcOk(c, sh, me) && Locked(c, me) != Some(c.hash(me.key))
    ensures PcOk(c, sh', me)
  {}

  lemma PcsSame<S>(c: Config<S>, shards: seq<Shard<nat>>, gs: seq<Goroutine>, g: nat, me: Goroutine)
    requires c.Valid() && |shards| == c.shardCount && g < |gs|
    requires AllPcs(c, shards, gs) && PcOk(c, shards[c.hash(me.key)], me)
    ensures AllPcs(c, shards, gs[g := me])
  {
    hide PcOk;
  }

  /** The lock holder may change its shard: it disturbs no other goroutine. */
  lemma PcsPut<S>(c: Config<S>, shards: seq<Shard<nat>>, owner: seq<Option<nat>>, sweep: Option<nat>,
                  gs: seq<Goroutine>, g: nat, me: Goroutine, i: nat, sh: Shard<nat>)
    requires c.Valid() && |shards| == c.shardCount && g < |gs| && i < |shards|
    requires AllPcs(c, shards, gs) && Locks(c, owner, sweep, gs) && Locked(c, gs[g]) == Some(i)
    requires PcOk(c, shards[i := sh][c.hash(me.key)], me)
    ensures AllPcs(c, shards[i := sh], gs[g := me])
  {
    hide PcOk, Locked, HoldsSweep;
    forall h | 0 <= h < |gs| && h != g
      ensures PcOk(c, shards[i := sh][c.hash(gs[h].key)], gs[h])
    {
      if c.hash(gs[h].key) == i {
        assert Locked(c, gs[h]) != Some(i);
        PcOkFrame(c, shards[i], sh, gs[h]);
      }
    }
  }

  // ---- History ----

  /** The state object a stored key refers to. */
  ghost function Ref<S>(c: Config<S>, shards: seq<Shard<nat>>, key: Key): Option<nat>
    requires c.Valid() && |shards| == c.shardCount
  {
    var sh := shards[c.hash(key)];
    if key in sh.items then Some(sh.items[key].value) else None
  }

  ghost predicate Agrees<S>(c: Config<S>, shards: seq<Shard<nat>>, objs: seq<S>, log: seq<Event>, key: Key)
    requires c.Valid() && |shards| == c.shardCount
  {
    match Ref(c, shards, key)
    case None => Replay(c.alg, log, key).None?
    case Some(r) => r < |objs| && Replay(c.alg, log, key) == Some(objs[r])
  }

  /** The stored states are what the log replays to, and no two keys share an object. */
  ghost predicate History<S>(c: Config<S>, shards: seq<Shard<nat>>, objs: seq<S>, log: seq<Event>)
    requires c.Valid() && |shards| == c.shardCount
  {
    && Legal(c.alg, log)
    && (forall k: Key :: Agrees(c, shards, objs, log, k))
    && (forall k: Key, l: Key :: k != l && Ref(c, shards, k).Some? ==> Ref(c, shards, k) != Ref(c, shards, l))
  }

  /** A goroutine has run one decision, its own, once it has a result, and none before. */
  ghost function Expected(g: nat, me: Goroutine): seq<Event> {
    match me.pc
    case Unlock(o) => if o.Ok? then [Ran(g, me.key, me.now, o.result)] else []
    case Done(o) => if o.Ok? then [Ran(g, me.key, me.now, o.result)] else []
    case _ => []
  }

  ghost predicate Answers(gs: seq<Goroutine>, log: seq<Event>) {
    && (forall g :: 0 <= g < |gs| ==> RunsOf(log, g) == Expected(g, gs[g]))
  }

  lemma AppendUnfolds(log: seq<Event>, e: Event)
    ensures (log + [e])[..|log + [e]| - 1] == log && (log + [e])[|log + [e]| - 1] == e
  {}

  lemma HistorySameRefs<S>(c: Config<S>, shards: seq<Shard<nat>>, objs: seq<S>, log: seq<Event>,
                           shards': seq<Shard<nat>>)
    requires c.Valid() && |shards| == |shards'| == c.shardCount && History(c, shards, objs, log)
    requires forall k: Key :: Ref(c, shards', k) == Ref(c, shards, k)
    ensures History(c, shards', objs, log)
  {
    hide Ref, Legal, Replay;
    forall k: Key ensures Agrees(c, shards', objs, log, k) {
      assert Agrees(c, shards, objs, log, k);
    }
  }

  lemma HistoryRemove<S>(c: Config<S>, shards: seq<Shard<nat>>, objs: seq<S>, log: seq<Event>, shards': seq<Shard<nat>>,
                         key: Key, now: int)
    requires c.Valid() && |shards| == |shards'| == c.shardCount && History(c, shards, objs, log)
    requires Ref(c, shards, key).Some? && Ref(c, shards', key).None?
    requires forall k: Key :: k != key ==> Ref(c, shards', k) == Ref(c, shards, k)
    ensures History(c, shards', objs, log + [Removed(key, now)])
  {
    hide Ref;
    AppendUnfolds(log, Removed(key, now));
    assert Agrees(c, shards, objs, log, key);
    forall k: Key ensures Agrees(c, shards', objs, log + [Removed(key, now)], k) {
      assert Agrees(c, shards, objs, log, k);
    }
  }

  lemma HistoryCreate<S>(c: Config<S>, shards: seq<Shard<nat>>, objs: seq<S>, log: seq<Event>, shards': seq<Shard<nat>>,
                         key: Key, now: int)
    requires c.Valid() && |shards| == |shards'| == c.shardCount && History(c, shards, objs, log)
    requires Ref(c, shards, key).None? && Ref(c, shards', key) == Some(|objs|)
    requires forall k: Key :: k != key ==> Ref(c, shards', k) == Ref(c, shards, k)
    ensures History(c, shards', objs + [c.alg.create(now)], log + [Created(key, now)])
  {
    hide Ref;
    AppendUnfolds(log, Created(key, now));
    assert Agrees(c, shards, objs, log, key);
    forall k: Key ensures Agrees(c, shards', objs + [c.alg.create(now)], log + [Created(key, now)], k) {
      assert Agrees(c, shards, objs, log, k);
    }
    forall k: Key, l: Key | k != l && Ref(c, shards', k).Some? ensures Ref(c, shards', k) != Ref(c, shards', l) {
      assert Agrees(c, shards, objs, log, k) && Agrees(c, shards, objs, log, l);
    }
  }

  lemma HistoryRun<S>(c: Config<S>, shards: seq<Shard<nat>>, objs: seq<S>, log: seq<Event>, g: nat, key: Key, now: int,
                      ref: nat)
    requires c.Valid() && |shards| == c.shardCount && History(c, shards, objs, log)
    requires Ref(c, shards, key) == Some(ref)
    ensures ref < |objs|
    ensures var (obj, r) := c.alg.decide(objs[ref], now);
            History(c, shards, objs[ref := obj], log + [Ran(g, key, now, r)])
  {
    hide Ref;
    assert Agrees(c, shards, objs, log, key);
    var (obj, r) := c.alg.decide(objs[ref], now);
    var e := Ran(g, key, now, r);
    AppendUnfolds(log, e);
    var objs', log' := objs[ref := obj], log + [e];
    forall k: Key ensures Agrees(c, shards, objs', log', k) {
      assert Agrees(c, shards, objs, log, k);
    }
  }

  lemma AnswersSame(gs: seq<Goroutine>, log: seq<Event>, g: nat, me: Goroutine)
    requires Answers(gs, log) && g < |gs| && Expected(g, me) == Expected(g, gs[g])
    ensures Answers(gs[g := me], log)
  {
    hide Expected, RunsOf;
  }

  lemma AnswersLog(gs: seq<Goroutine>, log: seq<Event>, e: Event)
    requires Answers(gs, log) && !e.Ran?
    ensures Answers(gs, log + [e])
  {
    hide Expected;
    assert (log + [e])[..|log + [e]| - 1] == log;
  }

  lemma AnswersRun(gs: seq<Goroutine>, log: seq<Event>, g: nat, me: Goroutine, r: Result)
    requires Answers(gs, log) && g < |gs| && Expected(g, gs[g]) == []
    requires Expected(g, me) == [Ran(g, me.key, me.now, r)]
    ensures Answers(gs[g := me], log + [Ran(g, me.key, me.now, r)])
  {
    hide Expected;
    var e := Ran(g, me.key, me.now, r);
    assert (log + [e])[..|log + [e]| - 1] == log;
    assert RunsOf(log + [e], g) == [] + [e];
  }

  // ---- All of it ----

  ghost predicate Inv<S>(c: Config<S>, s: State<S>) {
    && Shape(c, s)
    && Locks(c, s.owner, s.sweepOwner, s.gs)
    && Counted(c, s.live, s.shards, s.gs)
    && AllHomes(c, s.shards)
    && AllPcs(c, s.shards, s.gs)
    && History(c, s.shards, s.objs, s.log)
    && Answers(s.gs, s.log)
  }
}
