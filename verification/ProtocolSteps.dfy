/** Every step of every goroutine keeps the invariant. */
module ProtocolSteps {
  import opened Limiter
  import opened Shards
  import opened Protocol
  import opened ProtocolInvariant

  // ---- The kinds of steps ----

  /** What every step of `g` that leaves locks and results alone has in common. */
  ghost predicate Moves<S>(c: Config<S>, s: State<S>, g: nat, me: Goroutine) {
    && g < |s.gs| && me.key == s.gs[g].key
    && Locked(c, me) == Locked(c, s.gs[g]) && HoldsSweep(me.pc) == HoldsSweep(s.gs[g].pc)
    && Expected(g, me) == Expected(g, s.gs[g])
  }

  /** A step that changes at most `live`, `evicts` or `lastSweep`. */
  lemma LocalStep<S>(c: Config<S>, s: State<S>, g: nat, me: Goroutine, s': State<S>)
    requires Inv(c, s) && Moves(c, s, g, me)
    requires s' == s.(live := s'.live, evicts := s'.evicts, lastSweep := s'.lastSweep, gs := s.gs[g := me])
    requires s'.live - s.live == Debt(me.pc) - Debt(s.gs[g].pc)
    requires c.maxKeys > 0 ==> s'.live <= c.maxKeys
    requires PcOk(c, s.shards[c.hash(me.key)], me)
    ensures Inv(c, s')
  {
    hide Locked, HoldsSweep, Debt, PcOk, Expected, Locks, AllPcs, History, Answers;
    LocksSame(c, s.owner, s.sweepOwner, s.gs, g, me);
    DebtsPut(s.gs, g, me);
    PcsSame(c, s.shards, s.gs, g, me);
    AnswersSame(s.gs, s.log, g, me);
  }

  lemma QuietStep<S>(c: Config<S>, s: State<S>, g: nat, me: Goroutine, s': State<S>)
    requires Inv(c, s) && Moves(c, s, g, me)
    requires s' == s.(evicts := s'.evicts, lastSweep := s'.lastSweep, gs := s.gs[g := me])
    requires Debt(me.pc) == Debt(s.gs[g].pc) && PcOk(c, s.shards[c.hash(me.key)], me)
    ensures Inv(c, s')
  {
    hide Locked, HoldsSweep, Debt, PcOk, Expected, Locks, AllPcs, History, Answers;
    LocalStep(c, s, g, me, s');
  }

  lemma TakeStep<S>(c: Config<S>, s: State<S>, g: nat, i: nat, pc: Pc, s': State<S>)
    requires Inv(c, s) && g < |s.gs| && i < |s.owner| && s.owner[i] == None && s' == Take(s, g, i, pc)
    requires var me := s.gs[g].(pc := pc);
             && Locked(c, s.gs[g]) == None && Locked(c, me) == Some(i)
             && HoldsSweep(pc) == HoldsSweep(s.gs[g].pc)
             && Debt(pc) == Debt(s.gs[g].pc) && Expected(g, me) == Expected(g, s.gs[g])
             && PcOk(c, s.shards[c.hash(me.key)], me)
    ensures Inv(c, s')
  {
    hide Locked, HoldsSweep, Debt, PcOk, Expected, Locks, AllPcs, History, Answers;
    var me := s.gs[g].(pc := pc);
    LocksTake(c, s.owner, s.sweepOwner, s.gs, g, me, i);
    DebtsPut(s.gs, g, me);
    PcsSame(c, s.shards, s.gs, g, me);
    AnswersSame(s.gs, s.log, g, me);
  }

  lemma FreeStep<S>(c: Config<S>, s: State<S>, g: nat, me: Goroutine, i: nat, s': State<S>)
    requires Inv(c, s) && g < |s.gs| && me.key == s.gs[g].key && i < |s.owner|
    requires s' == s.(owner := s.owner[i := None], gs := s.gs[g := me])
    requires Locked(c, s.gs[g]) == Some(i) && Locked(c, me) == None
    requires HoldsSweep(me.pc) == HoldsSweep(s.gs[g].pc)
    requires Debt(me.pc) == Debt(s.gs[g].pc) && Expected(g, me) == Expected(g, s.gs[g])
    requires PcOk(c, s.shards[c.hash(me.key)], me)
    ensures Inv(c, s')
  {
    hide Locked, HoldsSweep, Debt, PcOk, Expected, Locks, AllPcs, History, Answers;
    LocksFree(c, s.owner, s.sweepOwner, s.gs, g, me, i);
    DebtsPut(s.gs, g, me);
    PcsSame(c, s.shards, s.gs, g, me);
    AnswersSame(s.gs, s.log, g, me);
  }

  lemma SweepStep<S>(c: Config<S>, s: State<S>, g: nat, me: Goroutine, s': State<S>)
    requires Inv(c, s) && g < |s.gs| && me.key == s.gs[g].key
    requires s' == s.(sweepOwner := s'.sweepOwner, gs := s.gs[g := me])
    requires if HoldsSweep(s.gs[g].pc) then !HoldsSweep(me.pc) && s'.sweepOwner == None
             else HoldsSweep(me.pc) && s.sweepOwner == None && s'.sweepOwner == Some(g)
    requires Locked(c, me) == Locked(c, s.gs[g])
    requires Debt(me.pc) == Debt(s.gs[g].pc) && Expected(g, me) == Expected(g, s.gs[g])
    requires PcOk(c, s.shards[c.hash(me.key)], me)
    ensures Inv(c, s')
  {
    hide Locked, HoldsSweep, Debt, PcOk, Expected, Locks, AllPcs, History, Answers;
    LocksSweep(c, s.owner, s.sweepOwner, s.gs, g, me, s'.sweepOwner);
    DebtsPut(s.gs, g, me);
    PcsSame(c, s.shards, s.gs, g, me);
    AnswersSame(s.gs, s.log, g, me);
  }

  /** A step that changes the locked shard but neither its keys nor their states. */
  lemma RefreshStep<S>(c: Config<S>, s: State<S>, g: nat, me: Goroutine, i: nat, sh: Shard<nat>, s': State<S>)
    requires Inv(c, s) && Moves(c, s, g, me) && Locked(c, s.gs[g]) == Some(i) && i < |s.shards|
    requires s' == s.(shards := s.shards[i := sh], gs := s.gs[g := me])
    requires WellFormed(c.policy, sh) && sh.items.Keys == s.shards[i].items.Keys
    requires forall k :: k in sh.items ==> sh.items[k].value == s.shards[i].items[k].value
    requires Debt(me.pc) == Debt(s.gs[g].pc)
    requires PcOk(c, s'.shards[c.hash(me.key)], me)
    ensures Inv(c, s')
  {
    hide Locked, HoldsSweep, Debt, PcOk, Expected, Locks, AllPcs, History, Answers, WellFormed;
    LocksSame(c, s.owner, s.sweepOwner, s.gs, g, me);
    DebtsPut(s.gs, g, me);
    assert |sh.items| == |sh.items.Keys| == |s.shards[i].items|;
    StoredPut(s.shards, i, sh);
    PcsPut(c, s.shards, s.owner, s.sweepOwner, s.gs, g, me, i, sh);
    HistorySameRefs(c, s.shards, s.objs, s.log, s'.shards);
    AnswersSame(s.gs, s.log, g, me);
    assert Homes(c, i, s.shards[i]);
  }

  /** Changing one key of a shard leaves the others with the states they had. */
  lemma OthersKeepRefs<S>(c: Config<S>, shards: seq<Shard<nat>>, i: nat, sh: Shard<nat>, key: Key)
    requires c.Valid() && |shards| == c.shardCount && i < |shards|
    requires forall k :: k != key ==> (k in sh.items <==> k in shards[i].items)
    requires forall k :: k != key && k in sh.items ==> sh.items[k] == shards[i].items[k]
    ensures forall k: Key :: k != key ==> Ref(c, shards[i := sh], k) == Ref(c, shards, k)
  {}

  /** A step that removes a key from the locked shard: the key becomes a debt. */
  lemma RemoveStep<S>(c: Config<S>, s: State<S>, g: nat, me: Goroutine, i: nat, key: Key, s': State<S>)
    requires Inv(c, s) && Moves(c, s, g, me) && Locked(c, s.gs[g]) == Some(i) && i < |s.shards|
    requires key in s.shards[i].items
    requires s' == s.(shards := s.shards[i := Remove(s.shards[i], key)], log := s.log + [Removed(key, me.now)],
                      gs := s.gs[g := me])
    requires Debt(me.pc) == Debt(s.gs[g].pc) + 1
    requires PcOk(c, s'.shards[c.hash(me.key)], me)
    ensures Inv(c, s')
  {
    hide Locked, HoldsSweep, Debt, PcOk, Expected, Locks, AllPcs, History, Answers, AllHomes, Stored, Without;
    var sh := Remove(s.shards[i], key);
    RemoveHomes(c, s.shards, i, key);
    LocksSame(c, s.owner, s.sweepOwner, s.gs, g, me);
    DebtsPut(s.gs, g, me);
    PcsPut(c, s.shards, s.owner, s.sweepOwner, s.gs, g, me, i, sh);
    OthersKeepRefs(c, s.shards, i, sh, key);
    HistoryRemove(c, s.shards, s.objs, s.log, s'.shards, key, me.now);
    AnswersSame(s.gs, s.log, g, me);
    AnswersLog(s'.gs, s.log, Removed(key, me.now));
  }

  /** A step that uses a reserved slot: a fresh state object under a key not stored yet. */
  lemma CreateStep<S>(c: Config<S>, s: State<S>, g: nat, me: Goroutine, s': State<S>)
    requires Inv(c, s) && Moves(c, s, g, me) && Locked(c, s.gs[g]) == Some(c.hash(me.key))
    requires me.key !in s.shards[c.hash(me.key)].items
    requires var home := c.hash(me.key);
             s' == s.(shards := s.shards[home := Insert<nat>(c.policy, s.shards[home], me.key, |s.objs|, me.now)],
                      objs := s.objs + [c.alg.create(me.now)], log := s.log + [Created(me.key, me.now)],
                      gs := s.gs[g := me])
    requires Debt(s.gs[g].pc) == Debt(me.pc) + 1
    requires PcOk(c, s'.shards[c.hash(me.key)], me)
    ensures Inv(c, s')
  {
    hide Locked, HoldsSweep, Debt, PcOk, Expected, Locks, AllPcs, History, Answers, AllHomes, Stored, ToFront;
    var i := c.hash(me.key);
    var sh := Insert<nat>(c.policy, s.shards[i], me.key, |s.objs|, me.now);
    InsertHomes<S, nat>(c, s.shards, i, me.key, |s.objs|, me.now);
    LocksSame(c, s.owner, s.sweepOwner, s.gs, g, me);
    DebtsPut(s.gs, g, me);
    PcsPut(c, s.shards, s.owner, s.sweepOwner, s.gs, g, me, i, sh);
    OthersKeepRefs(c, s.shards, i, sh, me.key);
    HistoryCreate(c, s.shards, s.objs, s.log, s'.shards, me.key, me.now);
    AnswersSame(s.gs, s.log, g, me);
    AnswersLog(s'.gs, s.log, Created(me.key, me.now));
  }

  // ---- The steps ----

  /** Reserving a slot: it becomes a debt, and `live` stays within the cap. */
  lemma KeepsReserve<S>(c: Config<S>, s: State<S>, g: nat, s': State<S>)
    requires Inv(c, s) && g < |s.gs| && Next(c, s, g, s')
    requires s.gs[g].pc.Reserve? || s.gs[g].pc.Cas?
    ensures Inv(c, s')
  {
    hide Locks, History, Answers, AllPcs, AllHomes, Stored, Debts;
    PcAt(c, s.shards, s.gs, g);
    LocalStep(c, s, g, s'.gs[g], s');
  }

  /** Each decrement of `live` settles one debt. */
  lemma KeepsUncount<S>(c: Config<S>, s: State<S>, g: nat, s': State<S>)
    requires Inv(c, s) && g < |s.gs| && Next(c, s, g, s')
    requires s.gs[g].pc.Uncount? || s.gs[g].pc.EvictUncount? || s.gs[g].pc.GiveBack?
    ensures Inv(c, s')
  {
    hide Locks, History, Answers, AllPcs, AllHomes, Stored, Debts;
    PcAt(c, s.shards, s.gs, g);
    LocalStep(c, s, g, s'.gs[g], s');
  }

  lemma KeepsBranch<S>(c: Config<S>, s: State<S>, g: nat, s': State<S>)
    requires Inv(c, s) && g < |s.gs| && Next(c, s, g, s')
    requires var pc := s.gs[g].pc; pc.Load? || pc.EvictCount? || pc.SweepGate? || pc.FullCheck? || pc.Recheck?
    ensures Inv(c, s')
  {
    hide Locks, History, Answers, AllPcs, AllHomes, Counted;
    PcAt(c, s.shards, s.gs, g);
    QuietStep(c, s, g, s'.gs[g], s');
  }

  lemma KeepsLocks<S>(c: Config<S>, s: State<S>, g: nat, s': State<S>)
    requires Inv(c, s) && g < |s.gs| && Next(c, s, g, s')
    requires var pc := s.gs[g].pc; pc.Begin? || pc.SweepShardLock? || pc.OtherLock? || pc.Relock?
    ensures Inv(c, s')
  {
    hide Locks, History, Answers, Counted, AllHomes, AllPcs;
    var me := s.gs[g];
    var home := c.hash(me.key);
    PcAt(c, s.shards, s.gs, g);
    match me.pc
    case Begin => TakeStep(c, s, g, home, Lookup, s');
    case SweepShardLock(i) => TakeStep(c, s, g, i, Cleanup(Swept(i)), s');
    case OtherLock(i) => TakeStep(c, s, g, i, OtherEvict(i), s');
    case Relock => TakeStep(c, s, g, home, Load, s');
  }

  lemma KeepsUnlocks<S>(c: Config<S>, s: State<S>, g: nat, s': State<S>)
    requires Inv(c, s) && g < |s.gs| && Next(c, s, g, s')
    requires var pc := s.gs[g].pc; pc.Release? || pc.SweepShardUnlock? || pc.OtherUnlock? || pc.Unlock?
    ensures Inv(c, s')
  {
    hide Locks, History, Answers, Counted, AllHomes, AllPcs;
    var me := s.gs[g];
    var home := c.hash(me.key);
    PcAt(c, s.shards, s.gs, g);
    match me.pc
    case Release => FreeStep(c, s, g, s'.gs[g], home, s');
    case SweepShardUnlock(i) => FreeStep(c, s, g, s'.gs[g], i, s');
    case OtherUnlock(i, _) => FreeStep(c, s, g, s'.gs[g], i, s');
    case Unlock(_) => FreeStep(c, s, g, s'.gs[g], home, s');
  }

  lemma KeepsSweep<S>(c: Config<S>, s: State<S>, g: nat, s': State<S>)
    requires Inv(c, s) && g < |s.gs| && Next(c, s, g, s')
    requires s.gs[g].pc.SweepLock? || s.gs[g].pc.SweepUnlock?
    ensures Inv(c, s')
  {
    hide Locks, History, Answers, Counted, AllHomes;
    assert PcOk(c, s.shards[c.hash(s.gs[g].key)], s.gs[g]);
    SweepStep(c, s, g, s'.gs[g], s');
  }

  /** The two looks at the key, and the touch that keeps a found key from its own cleanup. */
  lemma KeepsTouch<S>(c: Config<S>, s: State<S>, g: nat, s': State<S>)
    requires Inv(c, s) && g < |s.gs| && Next(c, s, g, s')
    requires s.gs[g].pc.Lookup? || s.gs[g].pc.TouchAgain?
    ensures Inv(c, s')
  {
    hide Locks, History, Answers, Counted, AllHomes, AllPcs, WellFormed, ToFront;
    var me := s.gs[g];
    var home := c.hash(me.key);
    var sh := s.shards[home];
    PcAt(c, s.shards, s.gs, g);
    HomesAt(c, s.shards, home);
    if me.key in sh.items {
      TouchKeeps(c.policy, sh, me.key, me.now);
      RefreshStep(c, s, g, s'.gs[g], home, Touch(c.policy, sh, me.key, me.now), s');
    } else {
      QuietStep(c, s, g, s'.gs[g], s');
    }
  }

  lemma MarkKeeps<V>(policy: Policy, sh: Shard<V>, now: int)
    requires WellFormed(policy, sh)
    ensures WellFormed(policy, sh.(lastCleanup := Some(now)))
  {}

  /** The keys a cleanup picks have expired; one just touched is not among them. */
  lemma {:induction false} BatchIsOk<S>(c: Config<S>, sh: Shard<nat>, home: Shard<nat>, me: Goroutine, cont: Cont,
                                        scanned: seq<Key>)
    requires ContOk(c, home, me, cont) && (!cont.Swept? ==> sh == home) && c.CleanupEnabled()
    ensures BatchOk(me, ExpiredOf(c, sh, me.now, scanned), cont)
  {
    ExpiredOfMembers(c, sh, me.now, scanned);
  }

  /** A cleanup picks a batch of expired keys. */
  lemma KeepsCleanup<S>(c: Config<S>, s: State<S>, g: nat, s': State<S>)
    requires Inv(c, s) && g < |s.gs| && Next(c, s, g, s') && s.gs[g].pc.Cleanup?
    ensures Inv(c, s')
  {
    hide Locks, History, Answers, Counted, AllHomes, AllPcs, WellFormed, Scan, ExpiredOf;
    var me := s.gs[g];
    var cont := me.pc.cont;
    var i := Target(c.hash(me.key), cont);
    var sh := s.shards[i];
    PcAt(c, s.shards, s.gs, g);
    HomesAt(c, s.shards, i);
    if CleanupDue(c, sh.lastCleanup, me.now) {
      var scanned: seq<Key> :| MayScan(c, s, g, scanned) && s' == Succ(c, s, g, scanned);
      BatchIsOk(c, sh, s.shards[c.hash(me.key)], me, cont, scanned);
      MarkKeeps(c.policy, sh, me.now);
      hide BatchOk;
      RefreshStep(c, s, g, s'.gs[g], i, sh.(lastCleanup := Some(me.now)), s');
    } else {
      QuietStep(c, s, g, s'.gs[g], s');
    }
  }

  lemma KeepsDelete<S>(c: Config<S>, s: State<S>, g: nat, s': State<S>)
    requires Inv(c, s) && g < |s.gs| && Next(c, s, g, s') && s.gs[g].pc.Delete?
    ensures Inv(c, s')
  {
    hide Locks, History, Answers, Counted, AllHomes, AllPcs, Without;
    var me := s.gs[g];
    var (batch, cont) := (me.pc.batch, me.pc.cont);
    var i := Target(c.hash(me.key), cont);
    PcAt(c, s.shards, s.gs, g);
    assert batch != [] ==> batch[0] in batch && forall k :: k in batch[1..] ==> k in batch;
    if batch != [] && batch[0] in s.shards[i].items {
      RemoveStep(c, s, g, s'.gs[g], i, batch[0], s');
    } else {
      QuietStep(c, s, g, s'.gs[g], s');
    }
  }

  lemma ListedStored<S>(c: Config<S>, shards: seq<Shard<nat>>, i: nat, key: Key)
    requires AllHomes(c, shards) && c.policy == EvictLRU && i < |shards| && key in shards[i].order
    ensures key in shards[i].items
  {
    HomesAt(c, shards, i);
  }

  /** The oldest key of a list is in the index, so an eviction frees exactly one slot. */
  lemma KeepsEvict<S>(c: Config<S>, s: State<S>, g: nat, s': State<S>)
    requires Inv(c, s) && g < |s.gs| && Next(c, s, g, s')
    requires s.gs[g].pc.Evict? || s.gs[g].pc.OtherEvict?
    ensures Inv(c, s')
  {
    hide Locks, History, Answers, Counted, AllHomes, AllPcs, Without;
    var me := s.gs[g];
    var i := if me.pc.Evict? then c.hash(me.key) else me.pc.i;
    PcAt(c, s.shards, s.gs, g);
    var sh := s.shards[i];
    if sh.order != [] {
      var key := sh.order[|sh.order| - 1];
      ListedStored(c, s.shards, i, key);
      RemoveStep(c, s, g, s'.gs[g], i, key, s');
    } else {
      QuietStep(c, s, g, s'.gs[g], s');
    }
  }

  lemma KeepsCreate<S>(c: Config<S>, s: State<S>, g: nat, s': State<S>)
    requires Inv(c, s) && g < |s.gs| && Next(c, s, g, s') && s.gs[g].pc.Create?
    ensures Inv(c, s')
  {
    hide Locks, History, Answers, AllPcs, AllHomes, Counted;
    PcAt(c, s.shards, s.gs, g);
    CreateStep(c, s, g, s'.gs[g], s');
  }

  lemma PcAt<S>(c: Config<S>, shards: seq<Shard<nat>>, gs: seq<Goroutine>, g: nat)
    requires c.Valid() && |shards| == c.shardCount && AllPcs(c, shards, gs) && g < |gs|
    ensures PcOk(c, shards[c.hash(gs[g].key)], gs[g])
  {}

  lemma KeepsRun<S>(c: Config<S>, s: State<S>, g: nat, s': State<S>)
    requires Inv(c, s) && g < |s.gs| && Next(c, s, g, s') && s.gs[g].pc.Run?
    ensures Inv(c, s')
  {
    hide Locks, History, Answers, AllPcs;
    var me, me' := s.gs[g], s'.gs[g];
    PcAt(c, s.shards, s.gs, g);
    LocksSame(c, s.owner, s.sweepOwner, s.gs, g, me');
    DebtsPut(s.gs, g, me');
    PcsSame(c, s.shards, s.gs, g, me');
    HistoryRun(c, s.shards, s.objs, s.log, g, me.key, me.now, me.pc.ref);
    AnswersRun(s.gs, s.log, g, me', me'.pc.outcome.result);
  }

  lemma InvStep<S>(c: Config<S>, s: State<S>, g: nat, s': State<S>)
    requires Inv(c, s) && g < |s.gs| && Next(c, s, g, s')
    ensures Inv(c, s')
  {
    hide Locks, History, Answers, AllPcs, AllHomes, Counted;
    var pc := s.gs[g].pc;
    if pc.Begin? || pc.SweepShardLock? || pc.OtherLock? || pc.Relock? {
      KeepsLocks(c, s, g, s');
    } else if pc.Release? || pc.SweepShardUnlock? || pc.OtherUnlock? || pc.Unlock? {
      KeepsUnlocks(c, s, g, s');
    } else if pc.SweepLock? || pc.SweepUnlock? {
      KeepsSweep(c, s, g, s');
    } else if pc.Lookup? || pc.TouchAgain? {
      KeepsTouch(c, s, g, s');
    } else if pc.Cleanup? {
      KeepsCleanup(c, s, g, s');
    } else if pc.Delete? {
      KeepsDelete(c, s, g, s');
    } else if pc.Evict? || pc.OtherEvict? {
      KeepsEvict(c, s, g, s');
    } else if pc.Create? {
      KeepsCreate(c, s, g, s');
    } else if pc.Run? {
      KeepsRun(c, s, g, s');
    } else if pc.Reserve? || pc.Cas? {
      KeepsReserve(c, s, g, s');
    } else if pc.Uncount? || pc.EvictUncount? || pc.GiveBack? {
      KeepsUncount(c, s, g, s');
    } else {
      KeepsBranch(c, s, g, s');
    }
  }
}
