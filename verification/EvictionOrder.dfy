/** Which key an eviction takes, in every interleaving: the one of its shard that was touched
    or created longest ago. */
module EvictionOrder {
  import opened Limiter
  import opened Shards
  import opened Protocol
  import opened ProtocolInvariant
  import opened ProtocolTheorems
  import opened Rejections
  import opened StoreView
  import opened StoreLemmas

  /** A run together with the goroutine that takes each step. */
  ghost predicate Scheduled<S>(c: Config<S>, run: seq<State<S>>, who: seq<nat>) {
    && run != [] && Init(c, run[0]) && |who| == |run| - 1
    && forall i :: 0 <= i < |who| ==>
         Shape(c, run[i]) && who[i] < |run[i].gs| && Next(c, run[i], who[i], run[i + 1])
  }

  lemma ScheduledStep<S>(c: Config<S>, run: seq<State<S>>, who: seq<nat>, i: nat)
    requires Scheduled(c, run, who) && i < |who|
    ensures |who| == |run| - 1
    ensures Shape(c, run[i]) && who[i] < |run[i].gs| && Next(c, run[i], who[i], run[i + 1])
  {}

  lemma ScheduledRuns<S>(c: Config<S>, run: seq<State<S>>, who: seq<nat>)
    requires Scheduled(c, run, who)
    ensures Execution(c, run)
  {
    hide Init, Next;
    forall i | 0 <= i < |run| - 1 ensures Step(c, run[i], run[i + 1]) {
      assert Next(c, run[i], who[i], run[i + 1]);
    }
  }

  /** Every run has a schedule. */
  lemma {:induction false} ScheduleExists<S>(c: Config<S>, run: seq<State<S>>) returns (who: seq<nat>)
    requires Execution(c, run)
    ensures Scheduled(c, run, who)
    decreases |run|
  {
    hide Init, Next;
    if |run| == 1 {
      who := [];
    } else {
      var n := |run| - 2;
      assert Step(c, run[n], run[n + 1]);
      var g: nat :| g < |run[n].gs| && Next(c, run[n], g, run[n + 1]);
      var init := run[..n + 1];
      forall i | 0 <= i < |init| - 1 ensures Step(c, init[i], init[i + 1]) {
        assert Step(c, run[i], run[i + 1]);
      }
      who := ScheduleExists(c, init);
      who := who + [g];
    }
  }

  /** The key the next step of `g` touches or creates: one found at the first or second look,
      or one created. */
  ghost function Touches<S>(c: Config<S>, s: State<S>, g: nat): Option<Key>
    requires Shape(c, s) && g < |s.gs|
  {
    var me := s.gs[g];
    match me.pc
    case Lookup => if me.key in s.shards[c.hash(me.key)].items then Some(me.key) else None
    case TouchAgain(_) => Some(me.key)
    case Create => Some(me.key)
    case _ => None
  }

  /** The step of the run that touched each key last, before state `i`. */
  ghost function LastTouch<S>(c: Config<S>, run: seq<State<S>>, who: seq<nat>, i: nat): map<Key, nat>
    requires Scheduled(c, run, who) && i < |run|
    decreases i
  {
    if i == 0 then map[] else
    var before := LastTouch(c, run, who, i - 1);
    match Touches(c, run[i - 1], who[i - 1])
    case None => before
    case Some(key) => before[key := i - 1]
  }

  /** What a step does to the list of a shard. */
  ghost predicate ListStep(before: seq<Key>, after: seq<Key>, touched: Option<Key>) {
    if touched.Some? then after == ToFront(EvictLRU, before, touched.value)
    else after == before || exists k :: after == Without(before, k)
  }

  ghost predicate ListsStep<S>(c: Config<S>, s: State<S>, g: nat, s': State<S>)
    requires Shape(c, s) && g < |s.gs|
  {
    && |s'.shards| == |s.shards|
    && forall i :: 0 <= i < |s.shards| ==>
         ListStep(s.shards[i].order, s'.shards[i].order,
                  if Touches(c, s, g).Some? && c.hash(s.gs[g].key) == i then Touches(c, s, g) else None)
  }

  lemma LockListsStep<S>(c: Config<S>, s: State<S>, h: nat, s': State<S>)
    requires Shape(c, s) && h < |s.gs| && Next(c, s, h, s') && AtLock(s.gs[h].pc)
    ensures ListsStep(c, s, h, s')
  {
    hide CleanupDue;
    match s.gs[h].pc
    case Begin =>
    case Release =>
    case SweepLock =>
    case SweepGate =>
    case SweepShardLock(_) =>
    case SweepShardUnlock(_) =>
    case SweepUnlock =>
    case FullCheck =>
    case OtherLock(_) =>
    case OtherUnlock(_, _) =>
    case Relock =>
    case Unlock(_) =>
  }

  lemma LookListsStep<S>(c: Config<S>, s: State<S>, h: nat, s': State<S>)
    requires Shape(c, s) && h < |s.gs| && Next(c, s, h, s') && LookOrClean(s.gs[h].pc) && c.policy == EvictLRU
    ensures ListsStep(c, s, h, s')
  {
    hide Without, ToFront, Scan, ExpiredOf, CleanupDue;
    match s.gs[h].pc
    case Lookup =>
    case Cleanup(_) =>
    case Delete(_, _) =>
    case Uncount(_, _) =>
  }

  lemma WorkListsStep<S>(c: Config<S>, s: State<S>, h: nat, s': State<S>)
    requires Shape(c, s) && h < |s.gs| && Next(c, s, h, s') && !AtLock(s.gs[h].pc) && !LookOrClean(s.gs[h].pc)
    requires c.policy == EvictLRU
    ensures ListsStep(c, s, h, s')
  {
    hide Without, ToFront;
    match s.gs[h].pc
    case Reserve =>
    case Load =>
    case Cas(_) =>
    case Evict =>
    case EvictUncount(_) =>
    case EvictCount(_) =>
    case OtherEvict(_) =>
    case Recheck =>
    case GiveBack(_) =>
    case TouchAgain(_) =>
    case Create =>
    case Run(_) =>
  }

  lemma AnyListsStep<S>(c: Config<S>, s: State<S>, h: nat, s': State<S>)
    requires Shape(c, s) && h < |s.gs| && Next(c, s, h, s') && c.policy == EvictLRU
    ensures ListsStep(c, s, h, s')
  {
    hide Next, AtLock, LookOrClean, ListsStep;
    if AtLock(s.gs[h].pc) {
      LockListsStep(c, s, h, s');
    } else if LookOrClean(s.gs[h].pc) {
      LookListsStep(c, s, h, s');
    } else {
      WorkListsStep(c, s, h, s');
    }
  }

  lemma {:induction false} DescendingWithout(order: seq<Key>, stamp: map<Key, nat>, accesses: nat, key: Key)
    requires Descending(order, stamp, accesses)
    ensures Descending(Without(order, key), stamp, accesses)
  {
    WithoutAllOne(order, key);
    DescendingWithoutAll(order, stamp, accesses, {key});
  }

  lemma DescendingMore(order: seq<Key>, stamp: map<Key, nat>, accesses: nat)
    requires Descending(order, stamp, accesses)
    ensures Descending(order, stamp, accesses + 1)
  {}

  lemma {:induction false} OneListStep<S>(c: Config<S>, before: seq<Key>, after: seq<Key>, stamp: map<Key, nat>, n: nat,
                                          touched: Option<Key>)
    requires Descending(before, stamp, n) && ListStep(before, after, touched)
    ensures Descending(after, if touched.Some? then stamp[touched.value := n] else stamp, n + 1)
  {
    hide Descending, ToFront, Without;
    if touched.Some? {
      DescendingFront(before, stamp, n, touched.value);
    } else if after == before {
      DescendingMore(before, stamp, n);
    } else {
      var k :| after == Without(before, k);
      DescendingWithout(before, stamp, n, k);
      DescendingMore(after, stamp, n);
    }
  }

  lemma {:induction false} RecencyStep<S>(c: Config<S>, s: State<S>, h: nat, s': State<S>, stamp: map<Key, nat>, n: nat)
    requires Inv(c, s') && Shape(c, s) && h < |s.gs| && ListsStep(c, s, h, s')
    requires ByRecency(s.shards, stamp, n)
    requires Touches(c, s, h).Some? ==> Touches(c, s, h) == Some(s.gs[h].key)
    ensures var touched := Touches(c, s, h);
            ByRecency(s'.shards, if touched.Some? then stamp[touched.value := n] else stamp, n + 1)
  {
    hide Descending, Locks, Counted, AllPcs, History, Answers, ListStep, WellFormed, Touches;
    var touched := Touches(c, s, h);
    var home := c.hash(s.gs[h].key);
    forall i | 0 <= i < |s'.shards|
      ensures Descending(s'.shards[i].order, if touched.Some? then stamp[touched.value := n] else stamp, n + 1)
    {
      var here := if touched.Some? && home == i then touched else None;
      OneListStep(c, s.shards[i].order, s'.shards[i].order, stamp, n, here);
      if touched.Some? && home != i {
        HomesAt(c, s'.shards, i);
        ListedKeys(c, s'.shards[i], touched.value, i);
        DescendingAside(s'.shards[i].order, stamp, n, touched.value);
      }
    }
  }

  lemma DescendingAside(order: seq<Key>, stamp: map<Key, nat>, n: nat, key: Key)
    requires Descending(order, stamp, n + 1) && key !in order
    ensures Descending(order, stamp[key := n], n + 1)
  {
    assert forall i :: 0 <= i < |order| ==> order[i] in order;
  }

  /** In every run every list runs from the key touched last to the one touched first. */
  lemma {:induction false} OrderedByTouch<S>(c: Config<S>, run: seq<State<S>>, who: seq<nat>, i: nat)
    requires Scheduled(c, run, who) && i < |run| && c.policy == EvictLRU
    ensures ByRecency(run[i].shards, LastTouch(c, run, who, i), i)
    decreases i
  {
    hide Next, ByRecency, Inv, ListsStep, Touches;
    if i == 0 {
      EmptyByRecency(c, run[0]);
    } else {
      OrderedByTouch(c, run, who, i - 1);
      ScheduledRuns(c, run, who);
      ScheduledStep(c, run, who, i - 1);
      ReachableInv(c, run, i);
      var (s, h) := (run[i - 1], who[i - 1]);
      AnyListsStep(c, s, h, run[i]);
      TouchesOwn(c, s, h);
      RecencyStep(c, s, h, run[i], LastTouch(c, run, who, i - 1), i - 1);
    }
  }

  lemma EmptyByRecency<S>(c: Config<S>, s: State<S>)
    requires Init(c, s)
    ensures ByRecency(s.shards, map[], 0)
  {
    forall i | 0 <= i < |s.shards| ensures Descending(s.shards[i].order, map[], 0) {
      assert s.shards[i] == EMPTY_SHARD;
    }
  }

  lemma TouchesOwn<S>(c: Config<S>, s: State<S>, h: nat)
    requires Shape(c, s) && h < |s.gs|
    ensures Touches(c, s, h).Some? ==> Touches(c, s, h) == Some(s.gs[h].key)
  {}

  /** The shard the next step of `g` evicts from. */
  ghost function EvictsFrom<S>(c: Config<S>, s: State<S>, g: nat): Option<nat>
    requires Shape(c, s) && g < |s.gs|
  {
    match s.gs[g].pc
    case Evict => Some(c.hash(s.gs[g].key))
    case OtherEvict(i) => Some(i)
    case _ => None
  }

  /** Key `e` leaves shard `i` and nothing else is stored, removed or changed. */
  ghost predicate LosesOne(before: seq<Shard<nat>>, after: seq<Shard<nat>>, i: nat, e: Key) {
    && |before| == |after| && i < |before| && e in before[i].items
    && after[i].items == before[i].items - {e}
    && forall j :: 0 <= j < |before| && j != i ==> after[j] == before[j]
  }

  /** `e` was touched or created before every other key of the shard. */
  ghost predicate LeastRecent(sh: Shard<nat>, touched: map<Key, nat>, e: Key) {
    e in touched && forall k :: k in sh.items && k != e ==> k in touched && touched[e] < touched[k]
  }

  lemma LastIsLeastRecent<S>(c: Config<S>, sh: Shard<nat>, touched: map<Key, nat>, n: nat)
    requires WellFormed(EvictLRU, sh) && sh.order != [] && Descending(sh.order, touched, n)
    ensures var e := sh.order[|sh.order| - 1]; e in sh.items && LeastRecent(sh, touched, e)
  {
    var e := sh.order[|sh.order| - 1];
    assert e in sh.order;
    forall k | k in sh.items && k != e ensures k in touched && touched[e] < touched[k] {
      assert k in sh.order;
      var j :| 0 <= j < |sh.order| && sh.order[j] == k;
    }
  }

  /** In every run an eviction takes the key of its shard whose last touch or creation lies
      furthest back, and nothing else; it fails only on an empty shard. */
  lemma EvictsLeastRecent<S>(c: Config<S>, run: seq<State<S>>, who: seq<nat>, i: nat, t: nat) returns (e: Key)
    requires Scheduled(c, run, who) && i < |who|
    requires Shape(c, run[i]) && who[i] < |run[i].gs| && EvictsFrom(c, run[i], who[i]) == Some(t)
    ensures c.policy == EvictLRU && t < |run[i].shards|
    ensures run[i].shards[t].items == map[] ==> run[i + 1].shards == run[i].shards
    ensures run[i].shards[t].items != map[] ==>
              && LosesOne(run[i].shards, run[i + 1].shards, t, e)
              && LeastRecent(run[i].shards[t], LastTouch(c, run, who, i), e)
  {
    hide Scheduled, Inv, Execution, ByRecency, LosesOne, LeastRecent, LastTouch;
    ScheduledStep(c, run, who, i);
    ScheduledRuns(c, run, who);
    ReachableInv(c, run, i);
    EvictsAtCap(c, run[i], who[i], t);
    OrderedByTouch(c, run, who, i);
    e := EvictionStep(c, run[i], who[i], t, run[i + 1], LastTouch(c, run, who, i), i);
  }

  lemma EvictsAtCap<S>(c: Config<S>, s: State<S>, g: nat, t: nat)
    requires Inv(c, s) && g < |s.gs| && EvictsFrom(c, s, g) == Some(t)
    ensures c.policy == EvictLRU && t < |s.shards|
  {
    hide Locks, Counted, AllHomes, History, Answers;
    assert PcOk(c, s.shards[c.hash(s.gs[g].key)], s.gs[g]);
  }

  lemma EvictionStep<S>(c: Config<S>, s: State<S>, g: nat, t: nat, s': State<S>, touched: map<Key, nat>, n: nat)
    returns (e: Key)
    requires Inv(c, s) && g < |s.gs| && EvictsFrom(c, s, g) == Some(t) && c.policy == EvictLRU && t < |s.shards|
    requires Next(c, s, g, s') && ByRecency(s.shards, touched, n)
    ensures s.shards[t].items == map[] ==> s'.shards == s.shards
    ensures s.shards[t].items != map[] ==> LosesOne(s.shards, s'.shards, t, e) && LeastRecent(s.shards[t], touched, e)
  {
    hide Locks, Counted, AllPcs, AllHomes, History, Answers, Descending, Without, LeastRecent, WellFormed;
    HomesAt(c, s.shards, t);
    var sh := s.shards[t];
    ListedIffStored(sh);
    if sh.order != [] {
      e := sh.order[|sh.order| - 1];
      LastIsLeastRecent(c, sh, touched, n);
      hide ByRecency;
    } else {
      e := "";
    }
  }

  lemma ListedIffStored(sh: Shard<nat>)
    requires WellFormed(EvictLRU, sh)
    ensures sh.order == [] <==> sh.items == map[]
  {
    if sh.items != map[] {
      var k :| k in sh.items;
      assert k in sh.order;
    }
    if sh.order != [] {
      assert sh.order[0] in sh.order;
    }
  }
}
