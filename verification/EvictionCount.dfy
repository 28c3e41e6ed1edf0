/** When keys are evicted, and how many, in every interleaving. */
module EvictionCount {
  import opened Shards
  import opened Protocol
  import opened ProtocolInvariant
  import opened ProtocolSteps
  import opened ProtocolTheorems
  import opened Rejections
  import opened EvictionOrder

  // ---- The counter ----

  /** One for an evicted key that is still to be counted. */
  ghost function Uncounted(pc: Pc): nat { if pc.EvictUncount? || pc.EvictCount? then 1 else 0 }

  ghost function AllUncounted(gs: seq<Goroutine>): nat {
    if gs == [] then 0 else AllUncounted(gs[..|gs| - 1]) + Uncounted(gs[|gs| - 1].pc)
  }

  lemma {:induction false} UncountedPut(gs: seq<Goroutine>, g: nat, me: Goroutine)
    requires g < |gs|
    ensures AllUncounted(gs[g := me]) == AllUncounted(gs) - Uncounted(gs[g].pc) + Uncounted(me.pc)
    decreases |gs|
  {
    hide Uncounted;
    var n := |gs| - 1;
    if g == n {
      assert gs[g := me][..n] == gs[..n];
    } else {
      assert gs[g := me][..n] == gs[..n][g := me];
      UncountedPut(gs[..n], g, me);
    }
  }

  lemma {:induction false} NoneUncounted(gs: seq<Goroutine>)
    requires forall g :: 0 <= g < |gs| ==> Uncounted(gs[g].pc) == 0
    ensures AllUncounted(gs) == 0
  {
    hide Uncounted;
    if gs != [] {
      NoneUncounted(gs[..|gs| - 1]);
    }
  }

  /** The next step of `g` evicts a key. */
  ghost predicate Evicting<S>(c: Config<S>, s: State<S>, g: nat)
    requires Shape(c, s) && g < |s.gs|
  {
    var t := EvictsFrom(c, s, g);
    t.Some? && t.value < |s.shards| && s.shards[t.value].order != []
  }

  /** How many keys have been evicted before state `i`. */
  ghost function Evictions<S>(c: Config<S>, run: seq<State<S>>, who: seq<nat>, i: nat): nat
    requires Scheduled(c, run, who) && i < |run|
    decreases i
  {
    if i == 0 then 0 else
    Evictions(c, run, who, i - 1) + if Evicting(c, run[i - 1], who[i - 1]) then 1 else 0
  }

  ghost predicate CountStep<S>(c: Config<S>, s: State<S>, g: nat, s': State<S>)
    requires Shape(c, s) && g < |s.gs|
  {
    && |s'.gs| == |s.gs| && s'.gs == s.gs[g := s'.gs[g]]
    && s'.evicts + Uncounted(s'.gs[g].pc)
       == s.evicts + Uncounted(s.gs[g].pc) + if Evicting(c, s, g) then 1 else 0
  }

  lemma LockCountStep<S>(c: Config<S>, s: State<S>, h: nat, s': State<S>)
    requires Shape(c, s) && h < |s.gs| && Next(c, s, h, s') && AtLock(s.gs[h].pc)
    ensures CountStep(c, s, h, s')
  {
    hide CleanupDue;
    match s.gs[h].pc
    case Begin =>
    case Release =>
    case SweepLock =>
    case SweepGate =>
    case SweepShardLock(_) =>
    case SweepShardUnlock(_) =>
    case SweepUnlock =>
    case FullCheck =>
    case OtherLock(_) =>
    case OtherUnlock(_, _) =>
    case Relock =>
    case Unlock(_) =>
  }

  lemma LookCountStep<S>(c: Config<S>, s: State<S>, h: nat, s': State<S>)
    requires Shape(c, s) && h < |s.gs| && Next(c, s, h, s') && LookOrClean(s.gs[h].pc)
    ensures CountStep(c, s, h, s')
  {
    hide Without, ToFront, Touch, Insert, Remove, Scan, ExpiredOf, CleanupDue;
    match s.gs[h].pc
    case Lookup =>
    case Cleanup(_) =>
    case Delete(_, _) =>
    case Uncount(_, _) =>
  }

  lemma WorkCountStep<S>(c: Config<S>, s: State<S>, h: nat, s': State<S>)
    requires Shape(c, s) && h < |s.gs| && Next(c, s, h, s') && !AtLock(s.gs[h].pc) && !LookOrClean(s.gs[h].pc)
    ensures CountStep(c, s, h, s')
  {
    hide Without, ToFront, Touch, Insert, Remove;
    match s.gs[h].pc
    case Reserve =>
    case Load =>
    case Cas(_) =>
    case Evict =>
    case EvictUncount(_) =>
    case EvictCount(_) =>
    case OtherEvict(_) =>
    case Recheck =>
    case GiveBack(_) =>
    case TouchAgain(_) =>
    case Create =>
    case Run(_) =>
  }

  lemma AnyCountStep<S>(c: Config<S>, s: State<S>, h: nat, s': State<S>)
    requires Shape(c, s) && h < |s.gs| && Next(c, s, h, s')
    ensures CountStep(c, s, h, s')
  {
    hide Next, AtLock, LookOrClean, CountStep;
    if AtLock(s.gs[h].pc) {
      LockCountStep(c, s, h, s');
    } else if LookOrClean(s.gs[h].pc) {
      LookCountStep(c, s, h, s');
    } else {
      WorkCountStep(c, s, h, s');
    }
  }

  /** In every run `evicts` counts the evicted keys, but for those whose goroutine is about
      to; so it is exact when all have returned. */
  lemma {:induction false} EvictsCounted<S>(c: Config<S>, run: seq<State<S>>, who: seq<nat>, i: nat)
    requires Scheduled(c, run, who) && i < |run|
    ensures run[i].evicts + AllUncounted(run[i].gs) == Evictions(c, run, who, i)
    ensures (forall g :: 0 <= g < |run[i].gs| ==> run[i].gs[g].pc.Done?) ==>
              run[i].evicts == Evictions(c, run, who, i)
    decreases i
  {
    hide Next, AllUncounted, Evicting;
    if i == 0 {
      NoneUncounted(run[0].gs);
    } else {
      EvictsCounted(c, run, who, i - 1);
      ScheduledStep(c, run, who, i - 1);
      AnyCountStep(c, run[i - 1], who[i - 1], run[i]);
      UncountedPut(run[i - 1].gs, who[i - 1], run[i].gs[who[i - 1]]);
    }
    if forall g :: 0 <= g < |run[i].gs| ==> run[i].gs[g].pc.Done? {
      NoneUncounted(run[i].gs);
    }
  }

  // ---- The cause ----

  /** Program counters from the decision to evict elsewhere to an eviction. */
  ghost predicate Elsewhere(pc: Pc) { pc.OtherLock? || pc.OtherEvict? || (pc.OtherUnlock? && !pc.evicted) }

  /** Goroutine `g` finds the counter at the cap, at home or, after trying to make room there,
      before it evicts elsewhere. */
  ghost predicate SeesFull<S>(c: Config<S>, s: State<S>, g: nat, home: bool) {
    && g < |s.gs| && s.live >= c.maxKeys > 0 && c.policy == EvictLRU
    && if home then s.gs[g].pc.Load? else s.gs[g].pc.FullCheck?
  }

  ghost predicate CauseStep<S>(c: Config<S>, s: State<S>, g: nat, s': State<S>)
    requires Shape(c, s) && g < |s.gs|
  {
    && |s'.gs| == |s.gs| && s'.gs == s.gs[g := s'.gs[g]] && s'.gs[g].key == s.gs[g].key
    && (s'.gs[g].pc.Evict? ==> SeesFull(c, s, g, true))
    && (Elsewhere(s'.gs[g].pc) ==> Elsewhere(s.gs[g].pc) || SeesFull(c, s, g, false))
  }

  lemma LockCauseStep<S>(c: Config<S>, s: State<S>, h: nat, s': State<S>)
    requires Shape(c, s) && h < |s.gs| && PcOk(c, s.shards[c.hash(s.gs[h].key)], s.gs[h]) && Next(c, s, h, s')
    requires AtLock(s.gs[h].pc)
    ensures CauseStep(c, s, h, s')
  {
    hide CleanupDue;
    match s.gs[h].pc
    case Begin =>
    case Release =>
    case SweepLock =>
    case SweepGate =>
    case SweepShardLock(_) =>
    case SweepShardUnlock(_) =>
    case SweepUnlock =>
    case FullCheck =>
    case OtherLock(_) =>
    case OtherUnlock(_, _) =>
    case Relock =>
    case Unlock(_) =>
  }

  lemma LookCauseStep<S>(c: Config<S>, s: State<S>, h: nat, s': State<S>)
    requires Shape(c, s) && h < |s.gs| && PcOk(c, s.shards[c.hash(s.gs[h].key)], s.gs[h]) && Next(c, s, h, s')
    requires LookOrClean(s.gs[h].pc)
    ensures CauseStep(c, s, h, s')
  {
    hide Without, ToFront, Touch, Insert, Remove, Scan, ExpiredOf, CleanupDue;
    match s.gs[h].pc
    case Lookup =>
    case Cleanup(_) =>
    case Delete(_, _) =>
    case Uncount(_, _) =>
  }

  lemma WorkCauseStep<S>(c: Config<S>, s: State<S>, h: nat, s': State<S>)
    requires Shape(c, s) && h < |s.gs| && PcOk(c, s.shards[c.hash(s.gs[h].key)], s.gs[h]) && Next(c, s, h, s')
    requires !AtLock(s.gs[h].pc) && !LookOrClean(s.gs[h].pc)
    ensures CauseStep(c, s, h, s')
  {
    hide Without, ToFront, Touch, Insert, Remove;
    match s.gs[h].pc
    case Reserve =>
    case Load =>
    case Cas(_) =>
    case Evict =>
    case EvictUncount(_) =>
    case EvictCount(_) =>
    case OtherEvict(_) =>
    case Recheck =>
    case GiveBack(_) =>
    case TouchAgain(_) =>
    case Create =>
    case Run(_) =>
  }

  lemma AnyCauseStep<S>(c: Config<S>, s: State<S>, h: nat, s': State<S>)
    requires Inv(c, s) && h < |s.gs| && Next(c, s, h, s')
    ensures CauseStep(c, s, h, s')
  {
    hide Next, AtLock, LookOrClean, CauseStep, Locks, Counted, AllHomes, AllPcs, History, Answers, PcOk;
    PcAt(c, s.shards, s.gs, h);
    if AtLock(s.gs[h].pc) {
      LockCauseStep(c, s, h, s');
    } else if LookOrClean(s.gs[h].pc) {
      LookCauseStep(c, s, h, s');
    } else {
      WorkCauseStep(c, s, h, s');
    }
  }

  /** In every run a goroutine evicts only after it has itself seen the counter at the cap: at
      home, holding its lock, in the step before; elsewhere, since it last tried to make room. */
  lemma {:induction false} EvictsOnlyWhenFull<S>(c: Config<S>, run: seq<State<S>>, i: nat, g: nat) returns (j: nat)
    requires Execution(c, run) && i < |run| && g < |run[i].gs|
    requires run[i].gs[g].pc.Evict? || Elsewhere(run[i].gs[g].pc)
    ensures j < i && SeesFull(c, run[j], g, run[i].gs[g].pc.Evict?)
    ensures forall k :: j < k <= i ==>
              g < |run[k].gs| && (run[k].gs[g].pc == Evict || (!run[i].gs[g].pc.Evict? && Elsewhere(run[k].gs[g].pc)))
    decreases i
  {
    hide Execution, Next, Inv, SeesFull;
    StartsAtBegin(c, run);
    var h := StepBefore(c, run, i);
    ReachableInv(c, run, i - 1);
    AnyCauseStep(c, run[i - 1], h, run[i]);
    if h == g && SeesFull(c, run[i - 1], g, run[i].gs[g].pc.Evict?) {
      j := i - 1;
    } else {
      j := EvictsOnlyWhenFull(c, run, i - 1, g);
    }
  }
}
