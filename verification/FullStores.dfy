/** How full the store is when a request is turned away. */
module FullStores {
  import opened Limiter
  import opened Shards
  import opened Protocol
  import opened ProtocolInvariant
  import opened ProtocolSteps
  import opened ProtocolTheorems
  import opened Rejections
  import opened AbsentKeys
  import opened RealTime

  // ---- The instant of a rejection ----

  /** A goroutine that did not find its key and has not given up its lock since. */
  ghost predicate MissHeld(me: Goroutine) {
    || (me.pc.Cleanup? && me.pc.cont.Miss?) || (me.pc.Delete? && me.pc.cont.Miss?)
    || (me.pc.Uncount? && me.pc.cont.Miss?) || me.pc.Reserve? || ((me.pc.Load? || me.pc.Cas?) && !me.swept)
  }

  /** Sweeping, or on the way back from it. */
  ghost predicate Away(pc: Pc) {
    || pc.SweepLock? || pc.SweepGate? || pc.SweepShardLock? || pc.SweepShardUnlock? || pc.SweepUnlock? || pc.Relock?
    || (pc.Cleanup? && pc.cont.Swept?) || (pc.Delete? && pc.cont.Swept?) || (pc.Uncount? && pc.cont.Swept?)
  }

  /** A goroutine that has found the store full. */
  ghost predicate Tried(me: Goroutine) {
    me.pc.Release? || Away(me.pc) || ((me.pc.Load? || me.pc.Cas?) && me.swept) || Rejected(me.pc)
  }

  /** Goroutine `g` finds the counter at the cap for the first time. */
  ghost predicate FirstFull<S>(c: Config<S>, s: State<S>, g: nat) {
    g < |s.gs| && s.gs[g].pc.Load? && !s.gs[g].swept && s.live >= c.maxKeys
  }

  ghost predicate HasKeys<S>(c: Config<S>, i: nat) { exists k: Key :: c.hash(k) == i }

  /** A key that was missed stays absent while the lock is held; a sweep removes keys only
      where there can be some. */
  ghost predicate MissOk<S>(c: Config<S>, sh: Shard<nat>, me: Goroutine) {
    && (MissHeld(me) ==> me.key !in sh.items)
    && (me.pc.Uncount? && me.pc.cont.Swept? ==> HasKeys(c, me.pc.cont.i))
    && (Away(me.pc) ==> me.swept)
  }

  ghost predicate MissInv<S>(c: Config<S>, s: State<S>)
    requires Shape(c, s)
  {
    forall g :: 0 <= g < |s.gs| ==> MissOk(c, s.shards[c.hash(s.gs[g].key)], s.gs[g])
  }

  /** What a step of `h` does to itself; other shards than the one it has locked stay. */
  ghost predicate MissStep<S>(c: Config<S>, s: State<S>, h: nat, s': State<S>, me: Goroutine)
    requires Shape(c, s) && Shape(c, s') && h < |s.gs|
  {
    && MissOk(c, s'.shards[c.hash(me.key)], me)
    && (forall i :: 0 <= i < c.shardCount ==> s'.shards[i] == s.shards[i] || Locked(c, s.gs[h]) == Some(i))
    && (Tried(me) ==> Tried(s.gs[h]) || FirstFull(c, s, h))
  }

  lemma LockMissStep<S>(c: Config<S>, s: State<S>, h: nat, s': State<S>)
    requires Inv(c, s) && h < |s.gs| && Next(c, s, h, s') && c.policy == EvictReject && AtLock(s.gs[h].pc)
    requires MissOk(c, s.shards[c.hash(s.gs[h].key)], s.gs[h])
    ensures Shape(c, s') && |s'.gs| == |s.gs| && MissStep(c, s, h, s', s'.gs[h])
  {
    hide Locks, History, Answers, AllPcs, AllHomes, Counted, Locked;
    PcAt(c, s.shards, s.gs, h);
  }

  lemma LookMissStep<S>(c: Config<S>, s: State<S>, h: nat, s': State<S>)
    requires Inv(c, s) && h < |s.gs| && Next(c, s, h, s') && c.policy == EvictReject
    requires s.gs[h].pc.Lookup? || s.gs[h].pc.Cleanup?
    requires MissOk(c, s.shards[c.hash(s.gs[h].key)], s.gs[h])
    ensures Shape(c, s') && |s'.gs| == |s.gs| && MissStep(c, s, h, s', s'.gs[h])
  {
    hide Locks, History, Answers, AllPcs, AllHomes, Counted, ToFront, Scan, ExpiredOf, CleanupDue, HasKeys;
  }

  lemma DeleteMissStep<S>(c: Config<S>, s: State<S>, h: nat, s': State<S>)
    requires Inv(c, s) && h < |s.gs| && Next(c, s, h, s') && c.policy == EvictReject
    requires s.gs[h].pc.Delete? || s.gs[h].pc.Uncount?
    requires MissOk(c, s.shards[c.hash(s.gs[h].key)], s.gs[h])
    ensures Shape(c, s') && |s'.gs| == |s.gs| && MissStep(c, s, h, s', s'.gs[h])
  {
    hide Locks, History, Answers, AllPcs, AllHomes, Counted, Without, WellFormed;
    var me := s.gs[h];
    if me.pc.Delete? && me.pc.batch != [] {
      var i := Target(c.hash(me.key), me.pc.cont);
      HomesAt(c, s.shards, i);
      assert me.pc.batch[0] in s.shards[i].items ==> c.hash(me.pc.batch[0]) == i;
    }
  }

  lemma WorkMissStep<S>(c: Config<S>, s: State<S>, h: nat, s': State<S>)
    requires Inv(c, s) && h < |s.gs| && Next(c, s, h, s') && c.policy == EvictReject
    requires !AtLock(s.gs[h].pc) && !LookOrClean(s.gs[h].pc)
    requires MissOk(c, s.shards[c.hash(s.gs[h].key)], s.gs[h])
    ensures Shape(c, s') && |s'.gs| == |s.gs| && MissStep(c, s, h, s', s'.gs[h])
  {
    hide Locks, History, Answers, AllPcs, AllHomes, Counted, Without, ToFront;
    PcAt(c, s.shards, s.gs, h);
  }

  lemma AnyMissStep<S>(c: Config<S>, s: State<S>, h: nat, s': State<S>)
    requires Inv(c, s) && h < |s.gs| && Next(c, s, h, s') && c.policy == EvictReject
    requires MissOk(c, s.shards[c.hash(s.gs[h].key)], s.gs[h])
    ensures Shape(c, s') && |s'.gs| == |s.gs| && MissStep(c, s, h, s', s'.gs[h])
    ensures s'.gs == s.gs[h := s'.gs[h]] && s'.gs[h].key == s.gs[h].key
  {
    hide Inv, Next, AtLock, MissOk, MissStep;
    var pc := s.gs[h].pc;
    AnyStepFor(c, s, h, s') by { InvShape(c, s); }
    if AtLock(pc) {
      LockMissStep(c, s, h, s');
    } else if pc.Lookup? || pc.Cleanup? {
      LookMissStep(c, s, h, s');
    } else if pc.Delete? || pc.Uncount? {
      DeleteMissStep(c, s, h, s');
    } else {
      WorkMissStep(c, s, h, s');
    }
  }

  lemma HoldsHome<S>(c: Config<S>, me: Goroutine)
    requires MissHeld(me)
    ensures Locked(c, me) == Some(c.hash(me.key))
  {}

  lemma MissInvStep<S>(c: Config<S>, s: State<S>, h: nat, s': State<S>)
    requires Inv(c, s) && MissInv(c, s) && h < |s.gs| && Next(c, s, h, s') && c.policy == EvictReject
    ensures Shape(c, s') && MissInv(c, s')
  {
    AnyMissStep(c, s, h, s') by {
      assert MissOk(c, s.shards[c.hash(s.gs[h].key)], s.gs[h]);
    }
    forall g: nat | g < |s'.gs| ensures MissOk(c, s'.shards[c.hash(s'.gs[g].key)], s'.gs[g]) {
      if g != h {
        assert MissOk(c, s.shards[c.hash(s.gs[g].key)], s.gs[g]);
        hide Inv, MissInv, Next, MissHeld, Locked, Tried, FirstFull;
        if MissHeld(s.gs[g]) {
          HoldsHome(c, s.gs[g]);
          if Locked(c, s.gs[h]) == Locked(c, s.gs[g]) {
            OneHolder(c, s, g, h, c.hash(s.gs[g].key));
          }
        }
      }
    }
  }

  lemma {:induction false} MissRun<S>(c: Config<S>, run: seq<State<S>>, i: nat)
    requires Execution(c, run) && i < |run| && c.policy == EvictReject
    ensures Inv(c, run[i]) && MissInv(c, run[i])
    decreases i
  {
    hide Execution, Inv, MissInv, Next;
    ReachableInv(c, run, i);
    if i == 0 {
      StartsMissless(c, run);
    } else {
      MissRun(c, run, i - 1);
      var h := StepBefore(c, run, i);
      MissInvStep(c, run[i - 1], h, run[i]);
    }
  }

  lemma StartsMissless<S>(c: Config<S>, run: seq<State<S>>)
    requires Execution(c, run)
    ensures Shape(c, run[0]) && MissInv(c, run[0])
  {
    StartsAtBegin(c, run);
  }

  lemma {:induction false} FoundFirst<S>(c: Config<S>, run: seq<State<S>>, i: nat, g: nat) returns (j: nat)
    requires Execution(c, run) && i < |run| && c.policy == EvictReject && g < |run[i].gs| && Tried(run[i].gs[g])
    ensures j < i && FirstFull(c, run[j], g) && run[j].gs[g].key == run[i].gs[g].key
    decreases i
  {
    hide Execution, Inv, Next, FirstFull;
    StartsAtBegin(c, run);
    assert i > 0;
    hide Tried;
    var h := StepBefore(c, run, i);
    MissRun(c, run, i - 1);
    AnyMissStep(c, run[i - 1], h, run[i]) by {
      assert MissOk(c, run[i - 1].shards[c.hash(run[i - 1].gs[h].key)], run[i - 1].gs[h]);
    }
    if FirstFull(c, run[i - 1], g) {
      j := i - 1;
    } else {
      j := FoundFirst(c, run, i - 1, g);
    }
  }

  /** A request that is turned away has an instant, between its first look, which missed its
      key, and its rejection, at which it holds the lock of its shard, its key is absent and
      the counter is at the cap. */
  lemma RejectedAtInstant<S>(c: Config<S>, run: seq<State<S>>, i: nat, g: nat) returns (looked: nat, at: nat)
    requires Execution(c, run) && i < |run| && g < |run[i].gs| && Rejected(run[i].gs[g].pc)
    ensures looked < at < i && LooksInVain(c, run[looked], g)
    ensures var (s, key) := (run[at], run[i].gs[g].key);
            && Shape(c, s) && FirstFull(c, s, g) && s.live == c.maxKeys > 0 && s.gs[g].key == key
            && s.owner[c.hash(key)] == Some(g) && key !in s.shards[c.hash(key)].items
  {
    ReachableInv(c, run, i);
    RejectedPolicy(c, run[i], g);
    hide Execution, Inv, LooksInVain;
    at := FoundFirst(c, run, i, g);
    looked := LookedInVain(c, run, at, g);
    MissRun(c, run, at);
    AtFirstFull(c, run[at], g);
  }

  /** That instant lies after its beginning: a request that returned before is in the log by
      then, one that begins after the rejection is not. */
  lemma InstantInRealTime<S>(c: Config<S>, run: seq<State<S>>, i: nat, j: nat, g: nat) returns (at: nat)
    requires Execution(c, run) && i <= j < |run| && g < |run[i].gs| && g < |run[j].gs|
    requires run[i].gs[g].pc.Begin? && Rejected(run[j].gs[g].pc)
    ensures i < at < j && FirstFull(c, run[at], g) && run[i].log <= run[at].log <= run[j].log
    ensures var (s, key) := (run[at], run[j].gs[g].key);
            && Shape(c, s) && s.live == c.maxKeys > 0 && s.gs[g].key == key
            && s.owner[c.hash(key)] == Some(g) && key !in s.shards[c.hash(key)].items
  {
    hide Execution, LooksInVain;
    var looked;
    looked, at := RejectedAtInstant(c, run, j, g);
    if at <= i {
      BeginBefore(c, run, at, i, g);
    }
    RunExtends(c, run, i, at);
    RunExtends(c, run, at, j);
  }

  lemma RejectedPolicy<S>(c: Config<S>, s: State<S>, g: nat)
    requires Inv(c, s) && g < |s.gs| && Rejected(s.gs[g].pc)
    ensures c.policy == EvictReject && c.maxKeys > 0
  {
    hide Locks, History, Answers, AllHomes, Counted;
    assert PcOk(c, s.shards[c.hash(s.gs[g].key)], s.gs[g]);
  }

  lemma AtFirstFull<S>(c: Config<S>, s: State<S>, g: nat)
    requires Inv(c, s) && MissInv(c, s) && FirstFull(c, s, g) && c.maxKeys > 0
    ensures var key := s.gs[g].key;
            && s.live == c.maxKeys && s.owner[c.hash(key)] == Some(g) && key !in s.shards[c.hash(key)].items
  {
    hide History, Answers, AllHomes, AllPcs;
    assert MissOk(c, s.shards[c.hash(s.gs[g].key)], s.gs[g]);
  }

  // ---- Keys of one shard ----

  ghost predicate OneShard<S>(c: Config<S>) { forall k: Key, l: Key :: c.hash(k) == c.hash(l) }

  /** Whoever has reserved a slot, or removed a key and not counted it yet, holds a lock of a
      shard that can have keys. */
  lemma DebtHolds<S>(c: Config<S>, s: State<S>, g: nat) returns (k: Key)
    requires Inv(c, s) && MissInv(c, s) && g < |s.gs| && c.policy == EvictReject && Debt(s.gs[g].pc) > 0
    ensures Locked(c, s.gs[g]) == Some(c.hash(k))
  {
    hide Locks, History, Answers, AllPcs, AllHomes, Counted;
    PcAt(c, s.shards, s.gs, g);
    assert MissOk(c, s.shards[c.hash(s.gs[g].key)], s.gs[g]);
    var me := s.gs[g];
    k := me.key;
    if me.pc.Uncount? && me.pc.cont.Swept? {
      k :| c.hash(k) == me.pc.cont.i;
    }
  }

  /** If all keys share a shard, the counter is exact at the instant of a rejection. */
  lemma FullAtInstant<S>(c: Config<S>, s: State<S>, g: nat)
    requires Inv(c, s) && MissInv(c, s) && c.policy == EvictReject && OneShard(c)
    requires FirstFull(c, s, g) && s.live == c.maxKeys
    ensures Stored(s.shards) == c.maxKeys
  {
    forall h: nat | h < |s.gs| ensures Debt(s.gs[h].pc) == 0 {
      hide Inv, MissInv;
      NoDebtAt(c, s, g, h);
    }
    hide Locks, History, Answers, AllPcs, AllHomes, MissInv;
    NoDebts(s.gs);
  }

  lemma NoDebtAt<S>(c: Config<S>, s: State<S>, g: nat, h: nat)
    requires Inv(c, s) && MissInv(c, s) && c.policy == EvictReject && OneShard(c) && FirstFull(c, s, g) && h < |s.gs|
    ensures Debt(s.gs[h].pc) == 0
  {
    hide Inv, MissInv, Locked;
    if Debt(s.gs[h].pc) > 0 {
      var k := DebtHolds(c, s, h);
      SameHolder(c, s, g, h);
    }
  }

  lemma SameHolder<S>(c: Config<S>, s: State<S>, g: nat, h: nat)
    requires Inv(c, s) && FirstFull(c, s, g) && h < |s.gs| && Locked(c, s.gs[h]) == Some(c.hash(s.gs[g].key))
    ensures h == g
  {
    hide Inv;
    OneHolder(c, s, g, h, c.hash(s.gs[g].key));
  }
}
