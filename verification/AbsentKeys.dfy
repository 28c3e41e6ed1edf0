/** When a request that is turned away is certain not to have its key in the store. */
module AbsentKeys {
  import opened Limiter
  import opened Shards
  import opened Protocol
  import opened ProtocolInvariant
  import opened ProtocolSteps
  import opened ProtocolTheorems
  import opened Rejections

  // ---- Without a TTL ----

  /** Without a TTL a full EvictReject store stays full, so a goroutine that found it full
      is on its way to a rejection. */
  ghost predicate Waits(me: Goroutine) {
    me.pc.Release? || me.pc.Relock? || (me.pc.Load? && me.swept) || Rejected(me.pc)
  }

  /** A slot is reserved, and the state is about to be created. */
  ghost predicate Creates(pc: Pc) { pc.Recheck? || pc.Create? }

  /** What a program counter says where nothing is ever removed. */
  ghost predicate KeepsAll<S>(c: Config<S>, live: int, sh: Shard<nat>, me: Goroutine) {
    match me.pc
    case Begin => true
    case Lookup => true
    case Cleanup(cont) => cont.Hit? || (cont.Miss? && me.key !in sh.items)
    case Reserve => me.key !in sh.items
    case Load => me.key !in sh.items && (me.swept ==> live >= c.maxKeys)
    case Cas(_) => me.key !in sh.items && !me.swept
    case Release => me.key !in sh.items && live >= c.maxKeys
    case Relock => me.key !in sh.items && live >= c.maxKeys && me.swept
    case Recheck => me.key !in sh.items
    case Create => me.key !in sh.items
    case Run(_) => true
    case Unlock(o) => o.MaxKeysExceeded? ==> me.key !in sh.items && live >= c.maxKeys
    case Done(o) => o.MaxKeysExceeded? ==> me.key !in sh.items && live >= c.maxKeys
    case _ => false
  }

  ghost predicate NoneCreates(gs: seq<Goroutine>, me: Goroutine) {
    forall h :: 0 <= h < |gs| && gs[h].key == me.key ==> !Creates(gs[h].pc)
  }

  ghost predicate KeptInv<S>(c: Config<S>, s: State<S>)
    requires Shape(c, s)
  {
    forall g :: 0 <= g < |s.gs| ==>
      KeepsAll(c, s.live, s.shards[c.hash(s.gs[g].key)], s.gs[g]) && (Waits(s.gs[g]) ==> NoneCreates(s.gs, s.gs[g]))
  }

  ghost predicate NoTtlReject<S>(c: Config<S>) { c.policy == EvictReject && !c.CleanupEnabled() }

  /** What a step of `h` does to itself and to the store. */
  ghost predicate OwnStep<S>(c: Config<S>, s: State<S>, h: nat, s': State<S>, me: Goroutine)
    requires Shape(c, s) && Shape(c, s') && h < |s.gs|
  {
    var before := s.gs[h];
    && KeepsAll(c, s'.live, s'.shards[c.hash(me.key)], me) && s'.live >= s.live
    && (forall k: Key :: k in s'.shards[c.hash(k)].items ==>
          k in s.shards[c.hash(k)].items || (before.pc.Create? && k == before.key))
    && (Creates(me.pc) ==> Creates(before.pc) || c.maxKeys == 0 || (before.pc.Cas? && s.live < c.maxKeys))
    && (Waits(me) ==> Waits(before) || before.pc.Load?)
  }

  lemma LockOwnStep<S>(c: Config<S>, s: State<S>, h: nat, s': State<S>)
    requires Inv(c, s) && h < |s.gs| && Next(c, s, h, s') && NoTtlReject(c) && AtLock(s.gs[h].pc)
    requires KeepsAll(c, s.live, s.shards[c.hash(s.gs[h].key)], s.gs[h])
    ensures Shape(c, s') && |s'.gs| == |s.gs| && OwnStep(c, s, h, s', s'.gs[h])
  {
    hide Locks, History, Answers, AllPcs, AllHomes, Counted;
  }

  lemma LookOwnStep<S>(c: Config<S>, s: State<S>, h: nat, s': State<S>)
    requires Inv(c, s) && h < |s.gs| && Next(c, s, h, s') && NoTtlReject(c) && LookOrClean(s.gs[h].pc)
    requires KeepsAll(c, s.live, s.shards[c.hash(s.gs[h].key)], s.gs[h])
    ensures Shape(c, s') && |s'.gs| == |s.gs| && OwnStep(c, s, h, s', s'.gs[h])
  {
    hide Locks, History, Answers, AllPcs, AllHomes, Counted, Without, ToFront, Scan, ExpiredOf;
    PcAt(c, s.shards, s.gs, h);
  }

  lemma WorkOwnStep<S>(c: Config<S>, s: State<S>, h: nat, s': State<S>)
    requires Inv(c, s) && h < |s.gs| && Next(c, s, h, s') && NoTtlReject(c)
    requires !AtLock(s.gs[h].pc) && !LookOrClean(s.gs[h].pc)
    requires KeepsAll(c, s.live, s.shards[c.hash(s.gs[h].key)], s.gs[h])
    ensures Shape(c, s') && |s'.gs| == |s.gs| && OwnStep(c, s, h, s', s'.gs[h])
  {
    hide Locks, History, Answers, AllPcs, AllHomes, Counted, Without, ToFront;
    PcAt(c, s.shards, s.gs, h);
  }

  lemma AnyOwnStep<S>(c: Config<S>, s: State<S>, h: nat, s': State<S>)
    requires Inv(c, s) && h < |s.gs| && Next(c, s, h, s') && NoTtlReject(c)
    requires KeepsAll(c, s.live, s.shards[c.hash(s.gs[h].key)], s.gs[h])
    ensures Shape(c, s') && |s'.gs| == |s.gs| && OwnStep(c, s, h, s', s'.gs[h])
    ensures s'.gs == s.gs[h := s'.gs[h]] && s'.gs[h].key == s.gs[h].key
  {
    hide Inv, Next, AtLock, LookOrClean, KeepsAll, OwnStep;
    AnyStepFor(c, s, h, s') by { InvShape(c, s); }
    if AtLock(s.gs[h].pc) {
      LockOwnStep(c, s, h, s');
    } else if LookOrClean(s.gs[h].pc) {
      LookOwnStep(c, s, h, s');
    } else {
      WorkOwnStep(c, s, h, s');
    }
  }

  lemma InvShape<S>(c: Config<S>, s: State<S>)
    requires Inv(c, s)
    ensures Shape(c, s)
  {}

  /** A goroutine that relies on its key being absent waits, or holds the lock of its shard. */
  lemma NeedsAbsence<S>(c: Config<S>, live: int, live': int, sh: Shard<nat>, sh': Shard<nat>, me: Goroutine)
    requires KeepsAll(c, live, sh, me) && live <= live'
    requires me.key in sh'.items && me.key !in sh.items ==> !Waits(me) && Locked(c, me) != Some(c.hash(me.key))
    ensures KeepsAll(c, live', sh', me)
  {}

  lemma WaitsFull<S>(c: Config<S>, live: int, sh: Shard<nat>, me: Goroutine)
    requires KeepsAll(c, live, sh, me) && PcOk(c, sh, me) && Waits(me)
    ensures live >= c.maxKeys > 0 && !Creates(me.pc)
  {}

  lemma HoldHome<S>(c: Config<S>, me: Goroutine)
    requires Creates(me.pc) || me.pc.Load?
    ensures Locked(c, me) == Some(c.hash(me.key))
  {}

  lemma OneHolder<S>(c: Config<S>, s: State<S>, g: nat, h: nat, i: nat)
    requires Inv(c, s) && g < |s.gs| && h < |s.gs| && Locked(c, s.gs[g]) == Locked(c, s.gs[h]) == Some(i)
    ensures g == h
  {
    hide Locked;
  }

  /** A step of another goroutine leaves `g` as it was. */
  lemma OtherStep<S>(c: Config<S>, s: State<S>, h: nat, s': State<S>, g: nat)
    requires Inv(c, s) && KeptInv(c, s) && Shape(c, s') && g < |s.gs| && h < |s.gs| == |s'.gs| && g != h
    requires OwnStep(c, s, h, s', s'.gs[h]) && s'.gs == s.gs[h := s'.gs[h]] && s'.gs[h].key == s.gs[h].key
    ensures KeepsAll(c, s'.live, s'.shards[c.hash(s'.gs[g].key)], s'.gs[g])
    ensures Waits(s'.gs[g]) ==> NoneCreates(s'.gs, s'.gs[g])
  {
    var (me, i) := (s.gs[g], c.hash(s.gs[g].key));
    assert KeepsAll(c, s.live, s.shards[i], me) && (Waits(me) ==> NoneCreates(s.gs, me));
    PcAt(c, s.shards, s.gs, g);
    hide KeepsAll, Waits, Creates, Locked, Inv, KeptInv, PcOk;
    if me.key in s'.shards[i].items && me.key !in s.shards[i].items {
      assert Creates(s.gs[h].pc) by { CreatesAt(s.gs[h].pc); }
      HoldHome(c, s.gs[h]);
      if Locked(c, me) == Some(i) {
        OneHolder(c, s, g, h, i);
      }
    }
    NeedsAbsence(c, s.live, s'.live, s.shards[i], s'.shards[i], me);
    if Waits(me) {
      WaitsFull(c, s.live, s.shards[i], me);
    }
  }

  lemma CreatesAt(pc: Pc)
    ensures pc.Create? ==> Creates(pc)
  {}

  /** A goroutine begins to wait while it holds the lock of its shard. */
  lemma OwnWait<S>(c: Config<S>, s: State<S>, h: nat, s': State<S>)
    requires Inv(c, s) && KeptInv(c, s) && Shape(c, s') && h < |s.gs| == |s'.gs|
    requires OwnStep(c, s, h, s', s'.gs[h]) && s'.gs == s.gs[h := s'.gs[h]] && s'.gs[h].key == s.gs[h].key
    requires Waits(s'.gs[h])
    ensures NoneCreates(s'.gs, s'.gs[h])
  {
    var me := s.gs[h];
    assert Waits(me) ==> NoneCreates(s.gs, me);
    assert !Creates(s'.gs[h].pc);
    hide KeepsAll, Waits, Creates, Locked, Inv, KeptInv;
    forall g: nat | g < |s.gs| && g != h && s.gs[g].key == me.key ensures !Creates(s.gs[g].pc) {
      if Creates(s.gs[g].pc) {
        HoldHome(c, s.gs[g]);
        if !Waits(me) {
          HoldHome(c, me);
          OneHolder(c, s, g, h, c.hash(me.key));
        }
      }
    }
  }

  lemma KeptStep<S>(c: Config<S>, s: State<S>, h: nat, s': State<S>)
    requires Inv(c, s) && KeptInv(c, s) && h < |s.gs| && Next(c, s, h, s') && NoTtlReject(c)
    ensures Shape(c, s') && KeptInv(c, s')
  {
    AnyOwnStep(c, s, h, s') by {
      assert KeepsAll(c, s.live, s.shards[c.hash(s.gs[h].key)], s.gs[h]);
    }
    forall g | 0 <= g < |s'.gs|
      ensures KeepsAll(c, s'.live, s'.shards[c.hash(s'.gs[g].key)], s'.gs[g])
      ensures Waits(s'.gs[g]) ==> NoneCreates(s'.gs, s'.gs[g])
    {
      hide Inv, KeptInv, KeepsAll, Waits, NoneCreates, Next;
      if g != h {
        OtherStep(c, s, h, s', g);
      } else {
        assert KeepsAll(c, s'.live, s'.shards[c.hash(s'.gs[g].key)], s'.gs[g]);
        if Waits(s'.gs[g]) {
          OwnWait(c, s, h, s');
        }
      }
    }
  }

  lemma {:induction false} KeptRun<S>(c: Config<S>, run: seq<State<S>>, i: nat)
    requires Execution(c, run) && i < |run| && NoTtlReject(c)
    ensures Inv(c, run[i]) && KeptInv(c, run[i])
    decreases i
  {
    hide Execution, Inv, KeptInv, Next;
    ReachableInv(c, run, i);
    if i == 0 {
      StartsKept(c, run);
    } else {
      KeptRun(c, run, i - 1);
      var h := StepBefore(c, run, i);
      KeptStep(c, run[i - 1], h, run[i]);
    }
  }

  lemma StartsKept<S>(c: Config<S>, run: seq<State<S>>)
    requires Execution(c, run)
    ensures Shape(c, run[0]) && KeptInv(c, run[0])
  {
    StartsAtBegin(c, run);
  }

  lemma {:induction false} StaysRejected<S>(c: Config<S>, run: seq<State<S>>, i: nat, j: nat, g: nat)
    requires Execution(c, run) && i <= j < |run| && g < |run[i].gs| && Rejected(run[i].gs[g].pc)
    ensures g < |run[j].gs| && Rejected(run[j].gs[g].pc) && run[j].gs[g].key == run[i].gs[g].key
    decreases j
  {
    hide Execution, Next, Rejected, PastMiss, LooksInVain, FindsFull;
    if i < j {
      StaysRejected(c, run, i, j - 1, g);
      var h := StepBefore(c, run, j);
      AnyStepFor(c, run[j - 1], h, run[j]);
    }
  }

  /** Under EvictReject without a TTL the key of a request that was turned away is not in
      the store, neither then nor ever after. */
  lemma {:induction false} AbsentWhenRejected<S>(c: Config<S>, run: seq<State<S>>, i: nat, j: nat, g: nat)
    requires Execution(c, run) && NoTtlReject(c)
    requires i <= j < |run| && g < |run[i].gs| && Rejected(run[i].gs[g].pc)
    ensures Shape(c, run[j]) && run[i].gs[g].key !in run[j].shards[c.hash(run[i].gs[g].key)].items
  {
    hide Execution, Inv;
    StaysRejected(c, run, i, j, g);
    KeptRun(c, run, j);
    InvShape(c, run[j]);
    assert KeepsAll(c, run[j].live, run[j].shards[c.hash(run[j].gs[g].key)], run[j].gs[g]);
  }
}
