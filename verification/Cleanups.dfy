/** What cleanups and sweeps have removed when they end, in every interleaving. */
module Cleanups {
  import opened Limiter
  import opened Shards
  import opened Protocol
  import opened ProtocolInvariant
  import opened ProtocolSteps
  import opened ProtocolTheorems
  import opened Rejections
  import opened AbsentKeys
  import opened StoreView

  // ---- One shard ----

  /** A due cleanup is under way: of the expired keys it found in `base`, those in `gone`
      have been removed and the others are in `batch`. */
  ghost predicate Cleaning<S>(c: Config<S>, base: Shard<nat>, sh: Shard<nat>, now: int, batch: seq<Key>, gone: set<Key>)
  {
    && CleanupDue(c, base.lastCleanup, now) && sh.lastCleanup == Some(now)
    && sh.items == base.items - gone && sh.order == WithoutAll(base.order, gone)
    && exists scanned :: Scan(c.policy, base, scanned)
                         && forall k :: k in gone || k in batch <==> k in ExpiredOf(c, base, now, scanned)
  }

  /** A cleanup has ended: the shard has lost exactly the keys `gone`. */
  ghost predicate Cleaned<S>(c: Config<S>, base: Shard<nat>, sh: Shard<nat>, now: int, gone: set<Key>) {
    && sh.items == base.items - gone && sh.order == WithoutAll(base.order, gone)
    && SweptShard(c, base, sh, now, gone)
  }

  lemma {:induction false} CleaningStarts<S>(c: Config<S>, base: Shard<nat>, now: int, scanned: seq<Key>)
    requires Scan(c.policy, base, scanned) && CleanupDue(c, base.lastCleanup, now)
    ensures Cleaning(c, base, base.(lastCleanup := Some(now)), now, ExpiredOf(c, base, now, scanned), {})
  {
    hide Scan, ExpiredOf;
    WithoutAllMembers(base.order, {});
    assert base.items - {} == base.items;
  }

  lemma CleaningRemoves<S>(c: Config<S>, base: Shard<nat>, sh: Shard<nat>, now: int, batch: seq<Key>, gone: set<Key>)
    requires Cleaning(c, base, sh, now, batch, gone) && batch != []
    ensures Cleaning(c, base, Remove(sh, batch[0]), now, batch[1..], gone + {batch[0]})
  {
    hide Scan, ExpiredOf, Without, WithoutAll, CleanupDue;
    WithoutAllOne(sh.order, batch[0]);
    WithoutAllCompose(base.order, gone, {batch[0]});
    assert batch == [batch[0]] + batch[1..];
    assert base.items - gone - {batch[0]} == base.items - (gone + {batch[0]});
  }

  lemma CleaningSkips<S>(c: Config<S>, base: Shard<nat>, sh: Shard<nat>, now: int, batch: seq<Key>, gone: set<Key>)
    requires Cleaning(c, base, sh, now, batch, gone) && batch != [] && batch[0] !in sh.items
    ensures Cleaning(c, base, sh, now, batch[1..], gone)
  {
    hide Scan, ExpiredOf, WithoutAll, CleanupDue;
    var scanned :| Scan(c.policy, base, scanned)
                   && forall k :: k in gone || k in batch <==> k in ExpiredOf(c, base, now, scanned);
    ExpiredOfMembers(c, base, now, scanned);
    assert batch == [batch[0]] + batch[1..];
  }

  lemma CleaningEnds<S>(c: Config<S>, base: Shard<nat>, sh: Shard<nat>, now: int, gone: set<Key>)
    requires Cleaning(c, base, sh, now, [], gone) && WellFormed(c.policy, base)
    ensures Cleaned(c, base, sh, now, gone)
  {
    hide Scan, ExpiredOf, WithoutAll, WellFormed;
    var scanned :| Scan(c.policy, base, scanned)
                   && forall k :: k in gone || k in [] <==> k in ExpiredOf(c, base, now, scanned);
    assert forall k :: k in gone <==> k in ExpiredOf(c, base, now, scanned);
    SweptByBatch(c, base, sh, now, gone);
  }

  lemma CleanedNothing<S>(c: Config<S>, base: Shard<nat>, now: int)
    requires !CleanupDue(c, base.lastCleanup, now)
    ensures Cleaned(c, base, base, now, {})
  {
    WithoutAllMembers(base.order, {});
    assert base.items - {} == base.items;
  }

  // ---- One step ----

  /** Where a goroutine is in its sweep. */
  ghost function Phase(pc: Pc): Option<nat> {
    match pc
    case SweepShardLock(i) => Some(i)
    case Cleanup(cont) => if cont.Swept? then Some(cont.i) else None
    case Delete(_, cont) => if cont.Swept? then Some(cont.i) else None
    case Uncount(_, cont) => if cont.Swept? then Some(cont.i) else None
    case SweepShardUnlock(i) => Some(i)
    case _ => None
  }

  ghost predicate Removing(pc: Pc, cont: Cont) { (pc.Delete? || pc.Uncount?) && pc.cont == cont }

  /** Program counters of a goroutine that has tried a sweep, or found that none is due. */
  ghost predicate HasSwept(me: Goroutine) {
    match me.pc
    case Load => me.swept
    case Cas(_) => me.swept
    case Evict => me.swept
    case EvictUncount(back) => back.Other? || me.swept
    case EvictCount(back) => back.Other? || me.swept
    case Release => me.swept
    case FullCheck => true
    case OtherLock(_) => true
    case OtherEvict(_) => true
    case OtherUnlock(_, _) => true
    case Relock => true
    case _ => Rejected(me.pc)
  }

  /** Program counters of a goroutine that is past the cleanup of its home shard. */
  ghost predicate PastCleanup(pc: Pc) {
    match pc
    case Begin => false
    case Lookup => false
    case Cleanup(cont) => cont.Swept?
    case Delete(_, cont) => cont.Swept?
    case Uncount(_, cont) => cont.Swept?
    case _ => true
  }

  /** How a goroutine gets through its cleanups and its sweep. */
  ghost predicate FlowStep<S>(c: Config<S>, s: State<S>, a: Goroutine, b: Goroutine) {
    && b.key == a.key && b.now == a.now
    && (b.pc.Delete? || b.pc.Uncount? ==> Removing(a.pc, b.pc.cont) || a.pc == Cleanup(b.pc.cont))
    && (a.pc.Delete? && a.pc.batch == [] ==> b.pc == Proceed(a.pc.cont))
    && (Phase(b.pc).Some? ==>
          || (Phase(a.pc) == Phase(b.pc) && !a.pc.SweepShardUnlock?)
          || (a.pc.SweepShardUnlock? && b.pc == SweepShardLock(a.pc.i + 1))
          || (a.pc.SweepGate? && b.pc == SweepShardLock(0) && CleanupDue(c, s.lastSweep, a.now)))
    && (b.pc.SweepShardUnlock? ==> a.pc == Cleanup(Swept(b.pc.i)) || a.pc == Delete([], Swept(b.pc.i)))
    && (b.pc.SweepUnlock? ==>
          || (a.pc.SweepGate? && !CleanupDue(c, s.lastSweep, a.now))
          || (a.pc.SweepShardUnlock? && a.pc.i + 1 >= c.shardCount))
    && (c.CleanupEnabled() && HasSwept(b) ==> HasSwept(a) || a.pc.SweepUnlock?)
    && (PastCleanup(b.pc) ==> PastCleanup(a.pc) || (a.pc.Cleanup? && b.pc == Proceed(a.pc.cont))
                              || (a.pc.Delete? && a.pc.batch == [] && b.pc == Proceed(a.pc.cont)))
  }

  /** Where a step can take a goroutine. */
  ghost predicate Hops<S>(c: Config<S>, s: State<S>, a: Goroutine, b: Goroutine) {
    && b.key == a.key && b.now == a.now && (a.pc.Reserve? || a.pc.Release? || b.swept == a.swept)
    && match a.pc
       case Begin => b.pc.Lookup?
       case Lookup => b.pc.Cleanup? && !b.pc.cont.Swept?
       case Cleanup(cont) => b.pc == Proceed(cont) || (b.pc.Delete? && b.pc.cont == cont)
       case Delete(batch, cont) =>
         if batch == [] then b.pc == Proceed(cont)
         else b.pc == Delete(batch[1..], cont) || b.pc == Uncount(batch[1..], cont)
       case Uncount(batch, cont) => b.pc == Delete(batch, cont)
       case Reserve => b.pc.Recheck? || (b.pc.Load? && !b.swept)
       case Load => b.pc.Cas? || b.pc.Evict? || b.pc.Release? || (b.pc == Unlock(MaxKeysExceeded) && a.swept)
       case Cas(_) => b.pc.Recheck? || b.pc.Load?
       case Evict => b.pc == EvictUncount(Local) || b.pc.Release?
       case EvictUncount(back) => b.pc == EvictCount(back)
       case EvictCount(back) => b.pc == if back.Other? then OtherUnlock(back.i, true) else Load
       case Release => b.swept && b.pc == if !a.swept && c.CleanupEnabled() then SweepLock else AfterSweep(c)
       case SweepLock => b.pc.SweepGate?
       case SweepGate => b.pc == if CleanupDue(c, s.lastSweep, a.now) then SweepShardLock(0) else SweepUnlock
       case SweepShardLock(i) => b.pc == Cleanup(Swept(i))
       case SweepShardUnlock(i) => b.pc == if i + 1 < c.shardCount then SweepShardLock(i + 1) else SweepUnlock
       case SweepUnlock => b.pc == AfterSweep(c)
       case FullCheck => b.pc.OtherLock? || b.pc.Relock?
       case OtherLock(i) => b.pc == OtherEvict(i)
       case OtherEvict(i) => b.pc == EvictUncount(Other(i)) || b.pc == OtherUnlock(i, false)
       case OtherUnlock(_, _) => b.pc.OtherLock? || b.pc.Relock?
       case Relock => b.pc.Load?
       case Recheck => b.pc.GiveBack? || b.pc.Create?
       case GiveBack(_) => b.pc.TouchAgain?
       case TouchAgain(_) => b.pc.Run?
       case Create => b.pc.Run?
       case Run(_) => b.pc.Unlock? && b.pc.outcome.Ok?
       case Unlock(out) => b.pc == Done(out)
       case Done(_) => false
  }

  lemma LockHops<S>(c: Config<S>, s: State<S>, h: nat, s': State<S>)
    requires Shape(c, s) && h < |s.gs| && Next(c, s, h, s') && AtLock(s.gs[h].pc)
    ensures |s'.gs| == |s.gs| && Hops(c, s, s.gs[h], s'.gs[h])
  {
    hide CleanupDue;
    match s.gs[h].pc
    case Begin =>
    case Release =>
    case SweepLock =>
    case SweepGate =>
    case SweepShardLock(_) =>
    case SweepShardUnlock(_) =>
    case SweepUnlock =>
    case FullCheck =>
    case OtherLock(_) =>
    case OtherUnlock(_, _) =>
    case Relock =>
    case Unlock(_) =>
  }

  lemma LookHops<S>(c: Config<S>, s: State<S>, h: nat, s': State<S>)
    requires Shape(c, s) && h < |s.gs| && Next(c, s, h, s') && LookOrClean(s.gs[h].pc)
    ensures |s'.gs| == |s.gs| && Hops(c, s, s.gs[h], s'.gs[h])
  {
    hide Without, ToFront, Touch, Remove, Scan, ExpiredOf, CleanupDue;
    match s.gs[h].pc
    case Lookup =>
    case Cleanup(_) =>
    case Delete(_, _) =>
    case Uncount(_, _) =>
  }

  lemma WorkHops<S>(c: Config<S>, s: State<S>, h: nat, s': State<S>)
    requires Shape(c, s) && h < |s.gs| && Next(c, s, h, s') && !AtLock(s.gs[h].pc) && !LookOrClean(s.gs[h].pc)
    ensures |s'.gs| == |s.gs| && Hops(c, s, s.gs[h], s'.gs[h])
  {
    hide Without, ToFront, Touch, Insert, Remove;
    match s.gs[h].pc
    case Reserve =>
    case Load =>
    case Cas(_) =>
    case Evict =>
    case EvictUncount(_) =>
    case EvictCount(_) =>
    case OtherEvict(_) =>
    case Recheck =>
    case GiveBack(_) =>
    case TouchAgain(_) =>
    case Create =>
    case Run(_) =>
  }

  lemma AnyHops<S>(c: Config<S>, s: State<S>, h: nat, s': State<S>)
    requires Shape(c, s) && h < |s.gs| && Next(c, s, h, s')
    ensures |s'.gs| == |s.gs| && Hops(c, s, s.gs[h], s'.gs[h])
  {
    hide Next, AtLock, LookOrClean, Hops;
    if AtLock(s.gs[h].pc) {
      LockHops(c, s, h, s');
    } else if LookOrClean(s.gs[h].pc) {
      LookHops(c, s, h, s');
    } else {
      WorkHops(c, s, h, s');
    }
  }

  lemma AnyFlow<S>(c: Config<S>, s: State<S>, h: nat, s': State<S>)
    requires Shape(c, s) && h < |s.gs| && Next(c, s, h, s')
    ensures |s'.gs| == |s.gs| && FlowStep(c, s, s.gs[h], s'.gs[h])
  {
    hide Next, CleanupDue;
    AnyHops(c, s, h, s');
  }

  /** A step changes only the shard its goroutine has locked. */
  ghost predicate KeepsOthers<S>(c: Config<S>, s: State<S>, h: nat, s': State<S>)
    requires Shape(c, s) && h < |s.gs|
  {
    && |s'.shards| == |s.shards|
    && forall i :: 0 <= i < |s.shards| ==> s'.shards[i] == s.shards[i] || Locked(c, s.gs[h]) == Some(i)
  }

  lemma LockKeepsOthers<S>(c: Config<S>, s: State<S>, h: nat, s': State<S>)
    requires Shape(c, s) && h < |s.gs| && Next(c, s, h, s') && AtLock(s.gs[h].pc)
    ensures KeepsOthers(c, s, h, s')
  {
    hide CleanupDue, Locked;
    match s.gs[h].pc
    case Begin =>
    case Release =>
    case SweepLock =>
    case SweepGate =>
    case SweepShardLock(_) =>
    case SweepShardUnlock(_) =>
    case SweepUnlock =>
    case FullCheck =>
    case OtherLock(_) =>
    case OtherUnlock(_, _) =>
    case Relock =>
    case Unlock(_) =>
  }

  lemma LookKeepsOthers<S>(c: Config<S>, s: State<S>, h: nat, s': State<S>)
    requires Shape(c, s) && h < |s.gs| && Next(c, s, h, s') && LookOrClean(s.gs[h].pc)
    ensures KeepsOthers(c, s, h, s')
  {
    hide Without, ToFront, Touch, Remove, Scan, ExpiredOf, CleanupDue;
    match s.gs[h].pc
    case Lookup =>
    case Cleanup(_) =>
    case Delete(_, _) =>
    case Uncount(_, _) =>
  }

  lemma WorkKeepsOthers<S>(c: Config<S>, s: State<S>, h: nat, s': State<S>)
    requires Shape(c, s) && h < |s.gs| && Next(c, s, h, s') && !AtLock(s.gs[h].pc) && !LookOrClean(s.gs[h].pc)
    ensures KeepsOthers(c, s, h, s')
  {
    hide Without, ToFront, Touch, Insert, Remove;
    match s.gs[h].pc
    case Reserve =>
    case Load =>
    case Cas(_) =>
    case Evict =>
    case EvictUncount(_) =>
    case EvictCount(_) =>
    case OtherEvict(_) =>
    case Recheck =>
    case GiveBack(_) =>
    case TouchAgain(_) =>
    case Create =>
    case Run(_) =>
  }

  lemma AnyKeepsOthers<S>(c: Config<S>, s: State<S>, h: nat, s': State<S>)
    requires Shape(c, s) && h < |s.gs| && Next(c, s, h, s')
    ensures KeepsOthers(c, s, h, s')
  {
    hide Next, AtLock, LookOrClean, KeepsOthers;
    if AtLock(s.gs[h].pc) {
      LockKeepsOthers(c, s, h, s');
    } else if LookOrClean(s.gs[h].pc) {
      LookKeepsOthers(c, s, h, s');
    } else {
      WorkKeepsOthers(c, s, h, s');
    }
  }

  /** The step before state `n`, for goroutine `g`: its own, or one that leaves `g` and the
      shard `g` has locked as they were. */
  lemma StepOf<S>(c: Config<S>, run: seq<State<S>>, n: nat, g: nat) returns (own: bool)
    requires Execution(c, run) && 0 < n < |run| && g < |run[n].gs|
    ensures Inv(c, run[n - 1]) && Shape(c, run[n - 1])
    ensures |run[n - 1].gs| == |run[n].gs| && |run[n].shards| == |run[n - 1].shards|
    ensures own ==> Next(c, run[n - 1], g, run[n]) && FlowStep(c, run[n - 1], run[n - 1].gs[g], run[n].gs[g])
    ensures !own ==> run[n].gs[g] == run[n - 1].gs[g]
    ensures !own ==> forall i :: 0 <= i < |run[n].shards| && Locked(c, run[n].gs[g]) == Some(i) ==>
                       run[n].shards[i] == run[n - 1].shards[i]
  {
    hide Execution, Inv, Next, FlowStep, PastMiss, Rejected, LooksInVain, FindsFull, Locked;
    var s, s' := run[n - 1], run[n];
    ReachableInv(c, run, n - 1);
    var h := StepBefore(c, run, n);
    AnyStepFor(c, s, h, s');
    AnyKeepsOthers(c, s, h, s');
    own := h == g;
    if own {
      AnyFlow(c, s, g, s');
    } else {
      forall i | 0 <= i < |s'.shards| && Locked(c, s'.gs[g]) == Some(i) ensures s'.shards[i] == s.shards[i] {
        if s'.shards[i] != s.shards[i] {
          OneHolder(c, s, g, h, i);
        }
      }
    }
  }

  /** The shard a goroutine is cleaning up. */
  ghost function Cleans<S>(c: Config<S>, me: Goroutine): nat
    requires LookOrClean(me.pc) && !me.pc.Lookup?
  {
    Target(c.hash(me.key), me.pc.cont)
  }

  lemma CleansOwn<S>(c: Config<S>, s: State<S>, g: nat)
    requires Inv(c, s) && g < |s.gs| && LookOrClean(s.gs[g].pc) && !s.gs[g].pc.Lookup?
    ensures Cleans(c, s.gs[g]) < |s.shards| && Locked(c, s.gs[g]) == Some(Cleans(c, s.gs[g]))
    ensures WellFormed(c.policy, s.shards[Cleans(c, s.gs[g])])
  {
    hide Counted, History, Answers, WellFormed;
    PcAt(c, s.shards, s.gs, g);
    HomesAt(c, s.shards, Cleans(c, s.gs[g]));
  }

  /** What a cleanup step does: nothing if not due, else it begins to remove a batch. */
  lemma CleanupStarts<S>(c: Config<S>, s: State<S>, g: nat, s': State<S>)
    requires Shape(c, s) && g < |s.gs| && Next(c, s, g, s') && s.gs[g].pc.Cleanup?
    ensures |s'.gs| == |s.gs| && |s'.shards| == |s.shards| && Cleans(c, s.gs[g]) < |s.shards|
    ensures var (me, cont, i) := (s.gs[g], s.gs[g].pc.cont, Cleans(c, s.gs[g]));
            if CleanupDue(c, s.shards[i].lastCleanup, me.now) then
              && s'.gs[g].pc.Delete? && s'.gs[g].pc.cont == cont
              && Cleaning(c, s.shards[i], s'.shards[i], me.now, s'.gs[g].pc.batch, {})
            else s'.gs[g].pc == Proceed(cont) && s'.shards == s.shards
  {
    hide Scan, ExpiredOf, CleanupDue, Cleaning;
    var i := Cleans(c, s.gs[g]);
    var scanned: seq<Key> :| MayScan(c, s, g, scanned) && s' == Succ(c, s, g, scanned);
    if CleanupDue(c, s.shards[i].lastCleanup, s.gs[g].now) {
      CleaningStarts(c, s.shards[i], s.gs[g].now, scanned);
    }
  }

  lemma RemovingStep<S>(c: Config<S>, s: State<S>, g: nat, s': State<S>, base: Shard<nat>, gone: set<Key>)
    returns (gone': set<Key>)
    requires Shape(c, s) && g < |s.gs| && Next(c, s, g, s') && (s.gs[g].pc.Delete? || s.gs[g].pc.Uncount?)
    requires Cleans(c, s.gs[g]) < |s.shards| && s.gs[g].pc != Delete([], s.gs[g].pc.cont)
    requires Cleaning(c, base, s.shards[Cleans(c, s.gs[g])], s.gs[g].now, s.gs[g].pc.batch, gone)
    ensures |s'.gs| == |s.gs| && |s'.shards| == |s.shards| && Removing(s'.gs[g].pc, s.gs[g].pc.cont)
    ensures Cleaning(c, base, s'.shards[Cleans(c, s.gs[g])], s.gs[g].now, s'.gs[g].pc.batch, gone')
  {
    hide Cleaning, Remove;
    var (me, sh) := (s.gs[g], s.shards[Cleans(c, s.gs[g])]);
    var batch := me.pc.batch;
    gone' := gone;
    if me.pc.Delete? {
      if batch[0] in sh.items {
        CleaningRemoves(c, base, sh, me.now, batch, gone);
        gone' := gone + {batch[0]};
      } else {
        CleaningSkips(c, base, sh, me.now, batch, gone);
      }
    }
  }

  /** A goroutine that is removing a batch began to at some state `m`, and has done nothing
      else since. */
  lemma {:induction false} RemovingSince<S>(c: Config<S>, run: seq<State<S>>, n: nat, g: nat)
    returns (m: nat, gone: set<Key>)
    requires Execution(c, run) && n < |run| && g < |run[n].gs| && (run[n].gs[g].pc.Delete? || run[n].gs[g].pc.Uncount?)
    ensures m < n && g < |run[m].gs| && run[m].gs[g].pc == Cleanup(run[n].gs[g].pc.cont)
    ensures run[m].gs[g].key == run[n].gs[g].key && run[m].gs[g].now == run[n].gs[g].now
    ensures forall k :: m < k <= n ==> g < |run[k].gs| && Removing(run[k].gs[g].pc, run[n].gs[g].pc.cont)
    ensures var i := Cleans(c, run[n].gs[g]);
            && i < |run[m].shards| && i < |run[n].shards|
            && Cleaning(c, run[m].shards[i], run[n].shards[i], run[n].gs[g].now, run[n].gs[g].pc.batch, gone)
    decreases n
  {
    hide Execution, Inv, Next, Cleaning;
    StartsAtBegin(c, run);
    var own := StepOf(c, run, n, g);
    var (s, me) := (run[n - 1], run[n - 1].gs[g]);
    if own && me.pc.Cleanup? {
      m, gone := n - 1, {};
      CleanupStarts(c, s, g, run[n]);
    } else {
      m, gone := RemovingSince(c, run, n - 1, g);
      ReachableInv(c, run, n);
      CleansOwn(c, run[n], g);
      if own {
        gone := RemovingStep(c, s, g, run[n], run[m].shards[Cleans(c, me)], gone);
      }
    }
  }

  // ---- Whole cleanups ----

  /** Goroutine `g` cleaned up shard `i` between states `a` and `b`: there it was about to look
      at the shard, here it is about to go on, and the shard has lost exactly `gone`. */
  ghost predicate CleansUp<S>(c: Config<S>, run: seq<State<S>>, g: nat, cont: Cont, a: nat, b: nat, gone: set<Key>) {
    && a < b < |run| && g < |run[a].gs| && g < |run[b].gs|
    && run[a].gs[g].pc == Cleanup(cont) && run[b].gs[g].pc == Proceed(cont)
    && var i := Target(c.hash(run[a].gs[g].key), cont);
       && i < |run[a].shards| && i < |run[b].shards|
       && Cleaned(c, run[a].shards[i], run[b].shards[i], run[a].gs[g].now, gone)
  }

  /** A cleanup that ends with the step to state `n`. */
  lemma CleanupEnds<S>(c: Config<S>, run: seq<State<S>>, n: nat, g: nat, cont: Cont) returns (m: nat, gone: set<Key>)
    requires Execution(c, run) && 0 < n < |run| && g < |run[n].gs| && |run[n - 1].gs| == |run[n].gs|
    requires Shape(c, run[n - 1]) && Next(c, run[n - 1], g, run[n]) && run[n].gs[g].pc == Proceed(cont)
    requires run[n - 1].gs[g].pc == Cleanup(cont) || run[n - 1].gs[g].pc == Delete([], cont)
    ensures CleansUp(c, run, g, cont, m, n, gone)
    ensures run[m].gs[g].key == run[n].gs[g].key && run[m].gs[g].now == run[n].gs[g].now
    ensures forall k :: m < k < n ==> g < |run[k].gs| && Removing(run[k].gs[g].pc, cont)
  {
    hide Execution, Inv, Next, Cleaning, Cleaned, FlowStep, CleanupDue;
    var (s, i) := (run[n - 1], Cleans(c, run[n - 1].gs[g]));
    ReachableInv(c, run, n - 1);
    CleansOwn(c, s, g);
    AnyFlow(c, s, g, run[n]);
    SameClock(c, s, s.gs[g], run[n].gs[g]);
    if s.gs[g].pc.Cleanup? {
      m, gone := n - 1, {};
      CleanupStarts(c, s, g, run[n]);
      CleanedNothing(c, s.shards[i], s.gs[g].now);
    } else {
      m, gone := RemovingSince(c, run, n - 1, g);
      ReachableInv(c, run, m);
      CleansOwn(c, run[m], g);
      CleaningEnds(c, run[m].shards[i], s.shards[i], s.gs[g].now, gone);
      NothingLeft(c, s, g, run[n]);
    }
  }

  lemma SameClock<S>(c: Config<S>, s: State<S>, a: Goroutine, b: Goroutine)
    requires FlowStep(c, s, a, b)
    ensures b.key == a.key && b.now == a.now
  {}

  lemma NothingLeft<S>(c: Config<S>, s: State<S>, g: nat, s': State<S>)
    requires Shape(c, s) && g < |s.gs| && Next(c, s, g, s') && s.gs[g].pc.Delete? && s.gs[g].pc.batch == []
    ensures s'.shards == s.shards
  {}

  /** In every run, a goroutine that is past the cleanup of its home shard has carried it out:
      from the shard as it found it, it removed exactly a batch, if that was due. */
  lemma {:induction false} HomeCleanedUp<S>(c: Config<S>, run: seq<State<S>>, n: nat, g: nat)
    returns (a: nat, b: nat, gone: set<Key>)
    requires Execution(c, run) && n < |run| && g < |run[n].gs| && PastCleanup(run[n].gs[g].pc)
    ensures a < b <= n && g < |run[a].gs| && run[a].gs[g].pc.Cleanup? && !run[a].gs[g].pc.cont.Swept?
    ensures CleansUp(c, run, g, run[a].gs[g].pc.cont, a, b, gone)
    ensures run[a].gs[g].key == run[n].gs[g].key && run[a].gs[g].now == run[n].gs[g].now
    decreases n
  {
    hide Execution, Inv, Next, CleansUp;
    StartsAtBegin(c, run);
    var own := StepOf(c, run, n, g);
    var pc := run[n - 1].gs[g].pc;
    if PastCleanup(pc) {
      a, b, gone := HomeCleanedUp(c, run, n - 1, g);
    } else {
      b := n;
      a, gone := CleanupEnds(c, run, n, g, pc.cont);
      CleansUpFrom(c, run, g, pc.cont, a, b, gone);
    }
  }

  lemma CleansUpFrom<S>(c: Config<S>, run: seq<State<S>>, g: nat, cont: Cont, a: nat, b: nat, gone: set<Key>)
    requires CleansUp(c, run, g, cont, a, b, gone)
    ensures a < b < |run| && g < |run[a].gs| && run[a].gs[g].pc == Cleanup(cont)
  {}

  // ---- Whole sweeps ----

  /** A goroutine about to unlock a shard in its sweep has cleaned it up. */
  lemma {:induction false} ShardSwept<S>(c: Config<S>, run: seq<State<S>>, n: nat, g: nat)
    returns (a: nat, b: nat, gone: set<Key>)
    requires Execution(c, run) && n < |run| && g < |run[n].gs| && run[n].gs[g].pc.SweepShardUnlock?
    ensures a < b <= n && CleansUp(c, run, g, Swept(run[n].gs[g].pc.i), a, b, gone)
    ensures Locked(c, run[n].gs[g]) == Some(run[n].gs[g].pc.i) && run[n].gs[g].pc.i < |run[n].shards| == |run[b].shards|
    ensures run[n].shards[run[n].gs[g].pc.i] == run[b].shards[run[n].gs[g].pc.i]
    ensures forall k :: a <= k <= n ==> g < |run[k].gs| && Phase(run[k].gs[g].pc).Some?
    decreases n
  {
    hide Execution, Inv, Next, CleansUp;
    StartsAtBegin(c, run);
    var own := StepOf(c, run, n, g);
    UnlocksOwn(c, run, n, g);
    if own {
      b := n;
      a, gone := CleanupEnds(c, run, n, g, Swept(run[n].gs[g].pc.i));
      CleansUpFrom(c, run, g, Swept(run[n].gs[g].pc.i), a, b, gone);
    } else {
      a, b, gone := ShardSwept(c, run, n - 1, g);
    }
  }

  lemma UnlocksOwn<S>(c: Config<S>, run: seq<State<S>>, n: nat, g: nat)
    requires Execution(c, run) && n < |run| && g < |run[n].gs| && run[n].gs[g].pc.SweepShardUnlock?
    ensures Locked(c, run[n].gs[g]) == Some(run[n].gs[g].pc.i) && run[n].gs[g].pc.i < |run[n].shards|
  {
    ReachableInv(c, run, n);
    hide Execution, Locks, Counted, AllHomes, History, Answers;
    PcAt(c, run[n].shards, run[n].gs, g);
  }

  /** A goroutine in its sweep has passed the gate, and has been sweeping since. */
  lemma {:induction false} PassedGate<S>(c: Config<S>, run: seq<State<S>>, n: nat, g: nat) returns (gate: nat)
    requires Execution(c, run) && n < |run| && g < |run[n].gs| && Phase(run[n].gs[g].pc).Some?
    ensures gate < n && g < |run[gate].gs| && run[gate].gs[g].pc.SweepGate?
    ensures run[gate].gs[g].key == run[n].gs[g].key && run[gate].gs[g].now == run[n].gs[g].now
    ensures CleanupDue(c, run[gate].lastSweep, run[n].gs[g].now)
    ensures forall k :: gate < k <= n ==> g < |run[k].gs| && Phase(run[k].gs[g].pc).Some?
    decreases n
  {
    hide Execution, Inv, Next, CleanupDue;
    StartsAtBegin(c, run);
    var own := StepOf(c, run, n, g);
    if own && run[n - 1].gs[g].pc.SweepGate? {
      gate := n - 1;
    } else {
      gate := PassedGate(c, run, n - 1, g);
    }
  }

  /** A goroutine in its sweep has been through every shard before the one it is at. */
  lemma {:induction false} SweptEarlier<S>(c: Config<S>, run: seq<State<S>>, n: nat, g: nat, i: nat)
    returns (a: nat, b: nat, gone: set<Key>)
    requires Execution(c, run) && n < |run| && g < |run[n].gs|
    requires Phase(run[n].gs[g].pc).Some? && i < Phase(run[n].gs[g].pc).value
    ensures a < b < n && CleansUp(c, run, g, Swept(i), a, b, gone)
    ensures forall k :: a <= k <= n ==> g < |run[k].gs| && Phase(run[k].gs[g].pc).Some?
    decreases n
  {
    hide Execution, Inv, Next, CleanupDue, CleansUp;
    StartsAtBegin(c, run);
    var own := StepOf(c, run, n, g);
    if run[n - 1].gs[g].pc == SweepShardUnlock(i) && own {
      a, b, gone := ShardSwept(c, run, n - 1, g);
    } else {
      a, b, gone := SweptEarlier(c, run, n - 1, g, i);
    }
  }

  /** Goroutine `g` swept between states `gate` and `end`: if a sweep was due it cleaned up
      every shard in between. */
  ghost predicate SweptBetween<S>(c: Config<S>, run: seq<State<S>>, g: nat, gate: nat, end: nat) {
    && gate < end < |run| && g < |run[gate].gs| && g < |run[end].gs|
    && run[gate].gs[g].pc.SweepGate? && run[end].gs[g].pc.SweepUnlock?
    && (CleanupDue(c, run[gate].lastSweep, run[gate].gs[g].now) ==>
          forall i :: 0 <= i < c.shardCount ==> SweptWithin(c, run, g, i, gate, end))
  }

  ghost predicate SweptWithin<S>(c: Config<S>, run: seq<State<S>>, g: nat, i: nat, gate: nat, end: nat) {
    exists a: nat, b: nat, gone: set<Key> :: gate < a && b < end && CleansUp(c, run, g, Swept(i), a, b, gone)
  }

  lemma SweptOneWithin<S>(c: Config<S>, run: seq<State<S>>, n: nat, g: nat, i: nat, gate: nat)
    requires Execution(c, run) && gate < n < |run| && g < |run[n].gs| && run[n].gs[g].pc.SweepShardUnlock?
    requires i <= run[n].gs[g].pc.i && g < |run[gate].gs| && run[gate].gs[g].pc.SweepGate?
    ensures SweptWithin(c, run, g, i, gate, n + 1)
  {
    hide Execution, CleansUp;
    var a: nat, b: nat, gone: set<Key>;
    if i == run[n].gs[g].pc.i {
      a, b, gone := ShardSwept(c, run, n, g);
    } else {
      a, b, gone := SweptEarlier(c, run, n, g, i);
    }
    assert Phase(run[gate].gs[g].pc).None?;
    assert CleansUp(c, run, g, Swept(i), a, b, gone);
  }

  lemma {:induction false} SweepEnds<S>(c: Config<S>, run: seq<State<S>>, n: nat, g: nat) returns (gate: nat)
    requires Execution(c, run) && n < |run| && g < |run[n].gs| && run[n].gs[g].pc.SweepUnlock?
    ensures SweptBetween(c, run, g, gate, n)
    ensures run[gate].gs[g].key == run[n].gs[g].key && run[gate].gs[g].now == run[n].gs[g].now
    decreases n
  {
    hide Execution, Inv, Next, CleanupDue, SweptWithin;
    StartsAtBegin(c, run);
    var own := StepOf(c, run, n, g);
    if !own {
      gate := SweepEnds(c, run, n - 1, g);
      SweptBetweenLater(c, run, g, gate, n - 1);
    } else if run[n - 1].gs[g].pc.SweepGate? {
      gate := n - 1;
    } else {
      gate := PassedGate(c, run, n - 1, g);
      forall i | 0 <= i < c.shardCount ensures SweptWithin(c, run, g, i, gate, n) {
        SweptOneWithin(c, run, n - 1, g, i, gate);
      }
    }
  }

  lemma SweptBetweenLater<S>(c: Config<S>, run: seq<State<S>>, g: nat, gate: nat, end: nat)
    requires SweptBetween(c, run, g, gate, end) && end + 1 < |run|
    requires g < |run[end + 1].gs| && run[end + 1].gs[g] == run[end].gs[g]
    ensures SweptBetween(c, run, g, gate, end + 1)
  {
    hide CleansUp, CleanupDue;
    var later := end + 1;
    forall i | 0 <= i < c.shardCount && CleanupDue(c, run[gate].lastSweep, run[gate].gs[g].now)
      ensures SweptWithin(c, run, g, i, gate, later)
    {
      assert SweptWithin(c, run, g, i, gate, end);
    }
  }

  /** In every run with a TTL, a goroutine that is turned away, or evicts elsewhere, has swept
      first: it passed the gate and, if a sweep was due, removed from every shard exactly a
      batch of it, if that was due, so everything expired if a batch covers the shard. */
  lemma {:induction false} SweptFirst<S>(c: Config<S>, run: seq<State<S>>, n: nat, g: nat) returns (gate: nat, end: nat)
    requires Execution(c, run) && n < |run| && g < |run[n].gs| && HasSwept(run[n].gs[g]) && c.CleanupEnabled()
    ensures end < n && SweptBetween(c, run, g, gate, end)
    ensures run[gate].gs[g].key == run[n].gs[g].key && run[gate].gs[g].now == run[n].gs[g].now
    decreases n
  {
    hide Execution, Inv, Next, CleanupDue, SweptBetween;
    StartsAtBegin(c, run);
    var own := StepOf(c, run, n, g);
    if HasSwept(run[n - 1].gs[g]) {
      gate, end := SweptFirst(c, run, n - 1, g);
    } else {
      end := n - 1;
      gate := SweepEnds(c, run, n - 1, g);
    }
  }

  /** In particular, of the shards that were due when a rejected goroutine visited them, those
      that a batch covers had no expired key left when it unlocked them. */
  lemma RejectedSweptClean<S>(c: Config<S>, run: seq<State<S>>, n: nat, g: nat, i: nat)
    returns (gate: nat, visited: nat, left: nat)
    requires Execution(c, run) && n < |run| && g < |run[n].gs| && run[n].gs[g].pc == Done(MaxKeysExceeded)
    requires c.CleanupEnabled() && i < c.shardCount
    ensures gate < n && g < |run[gate].gs| && run[gate].gs[g].pc.SweepGate?
    ensures CleanupDue(c, run[gate].lastSweep, run[n].gs[g].now) ==>
              && gate < visited < left < n && g < |run[visited].gs| && g < |run[left].gs|
              && run[visited].gs[g].pc == Cleanup(Swept(i)) && run[left].gs[g].pc == SweepShardUnlock(i)
              && i < |run[visited].shards| && i < |run[left].shards|
              && var (before, after) := (run[visited].shards[i], run[left].shards[i]);
                 CleanupDue(c, before.lastCleanup, run[n].gs[g].now) ==>
                   && after.lastCleanup == Some(run[n].gs[g].now)
                   && (|before.items| <= CLEANUP_BATCH_SIZE ==> Clean(c, after, run[n].gs[g].now))
  {
    hide Execution, Clean, WithoutAll, Batch, CleanupDue;
    var end: nat;
    gate, end := SweptFirst(c, run, n, g);
    visited, left := 0, 0;
    if CleanupDue(c, run[gate].lastSweep, run[n].gs[g].now) {
      assert SweptWithin(c, run, g, i, gate, end);
      var a: nat, b: nat, gone: set<Key> :| gate < a && b < end && CleansUp(c, run, g, Swept(i), a, b, gone);
      visited, left := a, b;
      SameRequest(c, run, gate, n, g);
      SameRequest(c, run, a, n, g);
    }
  }

  lemma {:induction false} SameRequest<S>(c: Config<S>, run: seq<State<S>>, m: nat, n: nat, g: nat)
    requires Execution(c, run) && m <= n < |run| && g < |run[n].gs|
    ensures g < |run[m].gs| && run[m].gs[g].key == run[n].gs[g].key && run[m].gs[g].now == run[n].gs[g].now
    decreases n
  {
    hide Execution, Inv, Next;
    if m < n {
      var own := StepOf(c, run, n, g);
      SameRequest(c, run, m, n - 1, g);
    }
  }

  // ---- One sweep per request ----

  /** Away from home: sweeping, evicting elsewhere, or on the way back. */
  ghost predicate Outside(pc: Pc) {
    || pc.SweepLock? || pc.SweepGate? || Phase(pc).Some? || pc.SweepUnlock? || pc.FullCheck? || pc.Relock?
    || pc.OtherLock? || pc.OtherEvict? || pc.OtherUnlock? || ((pc.EvictUncount? || pc.EvictCount?) && pc.back.Other?)
  }

  /** Past its sweep, a goroutine only reserves a slot, serves or gives up. */
  ghost predicate PastSweep(me: Goroutine) {
    || (me.swept && (me.pc.SweepUnlock? || HasSwept(me))) || me.pc.Recheck? || me.pc.GiveBack? || me.pc.TouchAgain?
    || me.pc.Create? || me.pc.Run? || me.pc.Unlock? || me.pc.Done?
  }

  ghost predicate StaysPast(a: Goroutine, b: Goroutine) {
    (PastSweep(a) ==> PastSweep(b)) && ((Outside(a.pc) ==> a.swept) ==> (Outside(b.pc) ==> b.swept))
  }

  lemma AnyStaysPast<S>(c: Config<S>, s: State<S>, h: nat, s': State<S>)
    requires Shape(c, s) && h < |s.gs| && Next(c, s, h, s')
    ensures |s'.gs| == |s.gs| && StaysPast(s.gs[h], s'.gs[h])
  {
    hide Next, CleanupDue;
    AnyHops(c, s, h, s');
  }

  lemma {:induction false} OutsideSwept<S>(c: Config<S>, run: seq<State<S>>, i: nat, g: nat)
    requires Execution(c, run) && i < |run| && g < |run[i].gs|
    ensures Outside(run[i].gs[g].pc) ==> run[i].gs[g].swept
    decreases i
  {
    hide Execution, Next, PastSweep, PastMiss, Rejected, LooksInVain, FindsFull;
    StartsAtBegin(c, run);
    if i > 0 {
      hide Outside;
      var h := StepBefore(c, run, i);
      AnyStepFor(c, run[i - 1], h, run[i]);
      OutsideSwept(c, run, i - 1, g);
      AnyStaysPast(c, run[i - 1], h, run[i]);
    }
  }

  lemma {:induction false} StaysPastSweep<S>(c: Config<S>, run: seq<State<S>>, i: nat, j: nat, g: nat)
    requires Execution(c, run) && i <= j < |run| && g < |run[i].gs| && PastSweep(run[i].gs[g])
    ensures |run[j].gs| == |run[i].gs| && PastSweep(run[j].gs[g])
    decreases j - i
  {
    hide Execution, Next, PastSweep, Outside, PastMiss, Rejected, LooksInVain, FindsFull;
    if i < j {
      StaysPastSweep(c, run, i, j - 1, g);
      var h := StepBefore(c, run, j);
      AnyStepFor(c, run[j - 1], h, run[j]);
      AnyStaysPast(c, run[j - 1], h, run[j]);
    }
  }

  /** In every run a request sweeps at most once: past the end of its sweep it never comes to
      the gate, or to another shard, again. */
  lemma SweepsOnce<S>(c: Config<S>, run: seq<State<S>>, i: nat, j: nat, g: nat)
    requires Execution(c, run) && i <= j < |run| && g < |run[i].gs| && run[i].gs[g].pc.SweepUnlock?
    ensures |run[j].gs| == |run[i].gs|
    ensures !run[j].gs[g].pc.SweepLock? && !run[j].gs[g].pc.SweepGate? && Phase(run[j].gs[g].pc).None?
  {
    hide Execution;
    OutsideSwept(c, run, i, g);
    StaysPastSweep(c, run, i, j, g);
  }
}
