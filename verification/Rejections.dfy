/** Why a request is turned away, in every interleaving. */
module Rejections {
  import opened Shards
  import opened Protocol

  /** Program counters that only a goroutine that did not find its key can reach. */
  ghost predicate PastMiss(pc: Pc) {
    match pc
    case Begin => false
    case Lookup => false
    case Cleanup(cont) => !cont.Hit?
    case Delete(_, cont) => !cont.Hit?
    case Uncount(_, cont) => !cont.Hit?
    case Run(_) => false
    case Unlock(o) => o.MaxKeysExceeded?
    case Done(o) => o.MaxKeysExceeded?
    case _ => true
  }

  ghost predicate Rejected(pc: Pc) {
    (pc.Unlock? || pc.Done?) && pc.outcome.MaxKeysExceeded?
  }

  /** Goroutine `g` looks for its key and does not find it. */
  ghost predicate LooksInVain<S>(c: Config<S>, s: State<S>, g: nat) {
    Shape(c, s) && g < |s.gs| && s.gs[g].pc.Lookup? && s.gs[g].key !in s.shards[c.hash(s.gs[g].key)].items
  }

  /** Goroutine `g`, having tried to make room, finds the counter at the cap. */
  ghost predicate FindsFull<S>(c: Config<S>, s: State<S>, g: nat) {
    && g < |s.gs| && s.gs[g].pc.Load? && s.gs[g].swept
    && c.policy == EvictReject && s.live >= c.maxKeys
  }

  /** A step moves one goroutine, leaves its key alone, extends the log, and reaches a rejection, or what
      lies past a miss, only from there or for cause. */
  ghost predicate StepFor<S>(c: Config<S>, s: State<S>, h: nat, s': State<S>, me: Goroutine)
    requires h < |s.gs|
  {
    && me.key == s.gs[h].key && s'.gs == s.gs[h := me] && s.log <= s'.log
    && (PastMiss(me.pc) ==> PastMiss(s.gs[h].pc) || LooksInVain(c, s, h))
    && (Rejected(me.pc) ==> Rejected(s.gs[h].pc) || FindsFull(c, s, h))
    && (Rejected(s.gs[h].pc) ==> Rejected(me.pc)) && !me.pc.Begin?
  }

  lemma LockStepFor<S>(c: Config<S>, s: State<S>, h: nat, s': State<S>)
    requires Shape(c, s) && h < |s.gs| && Next(c, s, h, s') && AtLock(s.gs[h].pc)
    ensures |s'.gs| == |s.gs| && StepFor(c, s, h, s', s'.gs[h])
  {
    hide CleanupDue;
    match s.gs[h].pc
    case Begin =>
    case Release =>
    case SweepLock =>
    case SweepGate =>
    case SweepShardLock(_) =>
    case SweepShardUnlock(_) =>
    case SweepUnlock =>
    case FullCheck =>
    case OtherLock(_) =>
    case OtherUnlock(_, _) =>
    case Relock =>
    case Unlock(_) =>
  }

  /** Steps that take or release a lock, or decide which one to take next. */
  ghost predicate AtLock(pc: Pc) {
    || pc.Begin? || pc.Release? || pc.SweepLock? || pc.SweepGate? || pc.SweepShardLock? || pc.SweepShardUnlock?
    || pc.SweepUnlock? || pc.FullCheck? || pc.OtherLock? || pc.OtherUnlock? || pc.Relock? || pc.Unlock?
  }

  ghost predicate LookOrClean(pc: Pc) { pc.Lookup? || pc.Cleanup? || pc.Delete? || pc.Uncount? }

  lemma LookStepFor<S>(c: Config<S>, s: State<S>, h: nat, s': State<S>)
    requires Shape(c, s) && h < |s.gs| && Next(c, s, h, s') && LookOrClean(s.gs[h].pc)
    ensures |s'.gs| == |s.gs| && StepFor(c, s, h, s', s'.gs[h])
  {
    hide Without, ToFront, Touch, Insert, Remove, Scan, ExpiredOf, CleanupDue;
    match s.gs[h].pc
    case Lookup =>
    case Cleanup(_) =>
    case Delete(_, _) =>
    case Uncount(_, _) =>
  }

  lemma WorkStepFor<S>(c: Config<S>, s: State<S>, h: nat, s': State<S>)
    requires Shape(c, s) && h < |s.gs| && Next(c, s, h, s') && !AtLock(s.gs[h].pc) && !LookOrClean(s.gs[h].pc)
    ensures |s'.gs| == |s.gs| && StepFor(c, s, h, s', s'.gs[h])
  {
    hide Without, ToFront, Touch, Insert, Remove;
    match s.gs[h].pc
    case Reserve =>
    case Load =>
    case Cas(_) =>
    case Evict =>
    case EvictUncount(_) =>
    case EvictCount(_) =>
    case OtherEvict(_) =>
    case Recheck =>
    case GiveBack(_) =>
    case TouchAgain(_) =>
    case Create =>
    case Run(_) =>
  }

  lemma AnyStepFor<S>(c: Config<S>, s: State<S>, h: nat, s': State<S>)
    requires Shape(c, s) && h < |s.gs| && Next(c, s, h, s')
    ensures |s'.gs| == |s.gs| && StepFor(c, s, h, s', s'.gs[h])
  {
    hide Next, AtLock, LookOrClean, StepFor;
    if AtLock(s.gs[h].pc) {
      LockStepFor(c, s, h, s');
    } else if LookOrClean(s.gs[h].pc) {
      LookStepFor(c, s, h, s');
    } else {
      WorkStepFor(c, s, h, s');
    }
  }

  lemma NextFor<S>(c: Config<S>, s: State<S>, h: nat, s': State<S>, g: nat)
    requires Shape(c, s) && h < |s.gs| && Next(c, s, h, s') && g < |s'.gs|
    ensures g < |s.gs| && s'.gs[g].key == s.gs[g].key
    ensures PastMiss(s'.gs[g].pc) ==> PastMiss(s.gs[g].pc) || LooksInVain(c, s, g)
    ensures Rejected(s'.gs[g].pc) ==> Rejected(s.gs[g].pc) || FindsFull(c, s, g)
    ensures Rejected(s.gs[g].pc) ==> Rejected(s'.gs[g].pc)
  {
    hide Next, PastMiss, Rejected, LooksInVain, FindsFull;
    AnyStepFor(c, s, h, s');
  }

  /** The step before state `i` of a run. */
  lemma StepBefore<S>(c: Config<S>, run: seq<State<S>>, i: nat) returns (h: nat)
    requires Execution(c, run) && 0 < i < |run|
    ensures Shape(c, run[i - 1]) && h < |run[i - 1].gs| && Next(c, run[i - 1], h, run[i])
  {
    hide Init, Next;
    assert Step(c, run[i - 1], run[(i - 1) + 1]);
    h :| h < |run[i - 1].gs| && Next(c, run[i - 1], h, run[i]);
  }

  /** A goroutine that is still to begin always was. */
  lemma {:induction false} BeginBefore<S>(c: Config<S>, run: seq<State<S>>, i: nat, j: nat, b: nat)
    requires Execution(c, run) && i <= j < |run| && b < |run[j].gs| && run[j].gs[b].pc.Begin?
    ensures |run[i].gs| == |run[j].gs| && run[i].gs[b].pc.Begin?
    decreases j - i
  {
    hide Execution, Next, PastMiss, Rejected, LooksInVain, FindsFull;
    if i < j {
      var h := StepBefore(c, run, j);
      AnyStepFor(c, run[j - 1], h, run[j]);
      BeginBefore(c, run, i, j - 1, b);
    }
  }

  lemma StartsAtBegin<S>(c: Config<S>, run: seq<State<S>>)
    requires Execution(c, run)
    ensures run != [] && forall g :: 0 <= g < |run[0].gs| ==> run[0].gs[g].pc == Begin
  {}

  lemma {:induction false} LookedInVain<S>(c: Config<S>, run: seq<State<S>>, i: nat, g: nat) returns (j: nat)
    requires Execution(c, run) && i < |run| && g < |run[i].gs| && PastMiss(run[i].gs[g].pc)
    ensures j < i && LooksInVain(c, run[j], g) && run[j].gs[g].key == run[i].gs[g].key
    decreases i
  {
    hide Execution, Next, LooksInVain, FindsFull;
    StartsAtBegin(c, run);
    assert i > 0;
    hide PastMiss, Rejected;
    var h := StepBefore(c, run, i);
    NextFor(c, run[i - 1], h, run[i], g);
    if LooksInVain(c, run[i - 1], g) {
      j := i - 1;
    } else {
      j := LookedInVain(c, run, i - 1, g);
    }
  }

  lemma {:induction false} FoundFull<S>(c: Config<S>, run: seq<State<S>>, i: nat, g: nat) returns (j: nat)
    requires Execution(c, run) && i < |run| && g < |run[i].gs| && Rejected(run[i].gs[g].pc)
    ensures j < i && FindsFull(c, run[j], g) && run[j].gs[g].key == run[i].gs[g].key
    decreases i
  {
    hide Execution, Next, LooksInVain, FindsFull;
    StartsAtBegin(c, run);
    assert i > 0;
    hide PastMiss, Rejected;
    var h := StepBefore(c, run, i);
    NextFor(c, run[i - 1], h, run[i], g);
    if FindsFull(c, run[i - 1], g) {
      j := i - 1;
    } else {
      j := FoundFull(c, run, i - 1, g);
    }
  }

  /** A request is turned away only under EvictReject, only if its key was absent when it
      first looked, and only after it tried to make room and still found the store full. */
  lemma RejectedForCause<S>(c: Config<S>, run: seq<State<S>>, i: nat, g: nat) returns (looked: nat, full: nat)
    requires Execution(c, run) && i < |run| && g < |run[i].gs| && run[i].gs[g].pc == Done(MaxKeysExceeded)
    ensures looked < full < i
    ensures LooksInVain(c, run[looked], g) && run[looked].gs[g].key == run[i].gs[g].key
    ensures FindsFull(c, run[full], g)
  {
    full := FoundFull(c, run, i, g);
    looked := LookedInVain(c, run, full, g);
  }
}
