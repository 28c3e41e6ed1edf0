/** Cleanup is invisible in every interleaving: without a cap, whatever keys the cleanups of
    any number of goroutines drop, a key answers as if it had never been dropped. */
module IdleKeys {
  import opened Limiter
  import opened Laws
  import opened Shards
  import opened Protocol
  import opened ProtocolInvariant
  import opened ProtocolSteps
  import opened ProtocolTheorems
  import opened Rejections

  // ---- What the log tells about one key ----

  /** The times and the results of the requests on `key`, over all its lives. */
  ghost function TimesIn(log: seq<Event>, key: Key): seq<int> {
    if log == [] then [] else
    var e := log[|log| - 1];
    TimesIn(log[..|log| - 1], key) + (if e.Ran? && e.key == key then [e.now] else [])
  }

  ghost function ResultsIn(log: seq<Event>, key: Key): seq<Result> {
    if log == [] then [] else
    var e := log[|log| - 1];
    ResultsIn(log[..|log| - 1], key) + (if e.Ran? && e.key == key then [e.result] else [])
  }

  /** The last event on `key`. */
  ghost function LastOn(log: seq<Event>, key: Key): Option<Event> {
    if log == [] then None
    else if log[|log| - 1].key == key then Some(log[|log| - 1])
    else LastOn(log[..|log| - 1], key)
  }

  /** The times of the events on `key` never step back. */
  ghost predicate InOrder(log: seq<Event>, key: Key) {
    log == [] ||
    var (init, e) := (log[..|log| - 1], log[|log| - 1]);
    InOrder(init, key) && (e.key == key && LastOn(init, key).Some? ==> LastOn(init, key).value.now <= e.now)
  }

  /** A state is first used at the time it was created for, and dropped only after use and
      only when idle for the TTL. */
  ghost predicate Tidy<S>(c: Config<S>, log: seq<Event>) {
    log == [] ||
    var (init, e) := (log[..|log| - 1], log[|log| - 1]);
    Tidy(c, init) && TidyEvent(c, LastOn(init, e.key), e)
  }

  ghost predicate TidyEvent<S>(c: Config<S>, last: Option<Event>, e: Event) {
    match e
    case Created(_, _) => true
    case Ran(_, _, now, _) => last.Some? && last.value.Created? ==> last.value.now == now
    case Removed(_, now) => last.Some? && last.value.Ran? && last.value.now + c.keyTTL <= now
  }

  // ---- Dropping idle states changes no answer ----

  /** The state `key` would have if it had never been dropped. */
  ghost function Kept<S>(alg: Algorithm<S>, times: seq<int>): S
    requires times != []
  {
    After(alg, alg.create(times[0]), times)
  }

  lemma KeptNext<S>(alg: Algorithm<S>, times: seq<int>, now: int)
    ensures KeyResults(alg, times + [now])
            == KeyResults(alg, times) + [alg.decide(if times == [] then alg.create(now) else Kept(alg, times), now).1]
    ensures Kept(alg, times + [now])
            == alg.decide(if times == [] then alg.create(now) else Kept(alg, times), now).0
  {
    var first := if times == [] then now else times[0];
    assert (times + [now])[0] == first;
    RunSplit(alg, alg.create(first), times, [now]);
    var s := After(alg, alg.create(first), times);
    assert Results(alg, s, [now]) == [alg.decide(s, now).1] && After(alg, s, [now]) == alg.decide(s, now).0;
  }

  /** How the stored state and the one never dropped are related. */
  ghost predicate Covered<S>(c: Config<S>, fit: (S, int) -> bool, times: seq<int>, last: Option<Event>,
                             state: Option<S>)
  {
    && (times != [] ==> fit(Kept(c.alg, times), times[|times| - 1]))
    && match last
       case None => times == [] && state.None?
       case Some(Created(_, t)) => state == Some(c.alg.create(t)) && Idle(c, times, t)
       case Some(Ran(_, _, t, _)) => times != [] && times[|times| - 1] == t && state == Some(Kept(c.alg, times))
       case Some(Removed(_, t)) => state.None? && Idle(c, times, t)
  }

  ghost predicate Idle<S>(c: Config<S>, times: seq<int>, t: int) {
    times != [] ==> times[|times| - 1] + c.keyTTL <= t
  }

  lemma CoveredRan<S(!new)>(c: Config<S>, fit: (S, int) -> bool, times: seq<int>, last: Event, s: S, now: int)
    requires Fits(c.alg, fit) && Forgets(c.alg, fit, c.keyTTL)
    requires Covered(c, fit, times, Some(last), Some(s)) && last.now <= now
    requires last.Created? ==> last.now == now
    ensures var (s', r) := c.alg.decide(s, now);
            && KeyResults(c.alg, times + [now]) == KeyResults(c.alg, times) + [r]
            && Kept(c.alg, times + [now]) == s' && fit(s', now)
  {
    KeptNext(c.alg, times, now);
    if times == [] {
      assert fit(c.alg.create(now), now);
    } else {
      assert fit(Kept(c.alg, times), times[|times| - 1]);
    }
  }

  /** In a legal and tidy log the answers for a key over all its lives are those of one run
      of the decision function. */
  lemma {:induction false} DropsInvisible<S(!new)>(c: Config<S>, fit: (S, int) -> bool, log: seq<Event>, key: Key)
    requires Fits(c.alg, fit) && Forgets(c.alg, fit, c.keyTTL)
    requires Legal(c.alg, log) && Tidy(c, log) && InOrder(log, key)
    ensures ResultsIn(log, key) == KeyResults(c.alg, TimesIn(log, key))
    ensures Covered(c, fit, TimesIn(log, key), LastOn(log, key), Replay(c.alg, log, key))
    decreases |log|
  {
    hide Fits, Forgets, Kept, KeyResults;
    if log != [] {
      var (init, e) := (log[..|log| - 1], log[|log| - 1]);
      DropsInvisible(c, fit, init, key);
      if e.key == key && e.Ran? {
        CoveredRan(c, fit, TimesIn(init, key), LastOn(init, key).value, Replay(c.alg, init, key).value, e.now);
      } else {
        assert TimesIn(log, key) == TimesIn(init, key) && ResultsIn(log, key) == ResultsIn(init, key);
      }
    }
  }

  // ---- The log of every run without a cap is tidy ----

  /** From finding its key, or creating it, a goroutine keeps the entry at its own time. */
  ghost predicate Touches(pc: Pc) {
    || (pc.Cleanup? && pc.cont.Hit?) || (pc.Delete? && pc.cont.Hit?) || (pc.Uncount? && pc.cont.Hit?) || pc.Run?
  }

  ghost function HolderOf<S>(s: State<S>, i: nat): Option<Goroutine>
    requires i < |s.owner|
  {
    if s.owner[i].Some? && s.owner[i].value < |s.gs| then Some(s.gs[s.owner[i].value]) else None
  }

  /** When an entry was last seen: at the time of the goroutine at work on it, or else of the
      last request served on its key. */
  ghost predicate EntryOk(e: Entry<nat>, key: Key, last: Option<Event>, holder: Option<Goroutine>) {
    if holder.Some? && holder.value.key == key && Touches(holder.value.pc) then
      && e.lastSeen == holder.value.now && last.Some? && !last.value.Removed?
      && (last.value.Created? ==> holder.value.pc.Run? && last.value.now == holder.value.now)
    else last.Some? && last.value.Ran? && e.lastSeen == last.value.now
  }

  ghost predicate KeyOk<S>(c: Config<S>, s: State<S>, key: Key)
    requires Shape(c, s)
  {
    var i := c.hash(key);
    key in s.shards[i].items ==> EntryOk(s.shards[i].items[key], key, LastOn(s.log, key), HolderOf(s, i))
  }

  /** The keys about to be deleted have expired. */
  ghost predicate BatchIdle<S>(c: Config<S>, sh: Shard<nat>, me: Goroutine) {
    me.pc.Delete? || me.pc.Uncount? ==>
      forall k :: k in me.pc.batch && k in sh.items ==> Expired(c, sh.items[k], me.now)
  }

  ghost predicate IdleInv<S>(c: Config<S>, s: State<S>)
    requires Shape(c, s)
  {
    && Tidy(c, s.log)
    && (forall k: Key :: KeyOk(c, s, k))
    && (forall g :: 0 <= g < |s.gs| ==> BatchIdle(c, s.shards[c.hash(s.gs[g].key)], s.gs[g]))
  }

  lemma {:induction false} LastOnAppend(log: seq<Event>, e: Event, key: Key)
    ensures LastOn(log + [e], key) == if e.key == key then Some(e) else LastOn(log, key)
  {
    assert (log + [e])[..|log + [e]| - 1] == log;
  }

  lemma {:induction false} TidyAppend<S>(c: Config<S>, log: seq<Event>, e: Event)
    requires Tidy(c, log) && TidyEvent(c, LastOn(log, e.key), e)
    ensures Tidy(c, log + [e])
  {
    assert (log + [e])[..|log + [e]| - 1] == log;
  }

  /** Without a cap no lock is given up on the way, so no other shard is ever visited. */
  ghost predicate AtHome<S>(c: Config<S>, s: State<S>, g: nat)
    requires Shape(c, s) && g < |s.gs|
  {
    var (me, home) := (s.gs[g], c.hash(s.gs[g].key));
    && (me.pc.Begin? || me.pc.Done? || s.owner[home] == Some(g))
    && (forall i :: 0 <= i < c.shardCount && s.owner[i] == Some(g) ==> i == home)
    && (me.pc.Cleanup? || me.pc.Delete? || me.pc.Uncount? ==> !me.pc.cont.Swept?)
    && !me.pc.Load? && !me.pc.Cas? && !me.pc.Evict? && !me.pc.EvictUncount? && !me.pc.EvictCount? && !me.pc.Release?
    && !me.pc.SweepLock? && !me.pc.SweepGate? && !me.pc.SweepShardLock? && !me.pc.SweepShardUnlock?
    && !me.pc.SweepUnlock? && !me.pc.FullCheck? && !me.pc.OtherLock? && !me.pc.OtherEvict? && !me.pc.OtherUnlock?
    && !me.pc.Relock?
  }

  lemma StaysHome<S>(c: Config<S>, s: State<S>, g: nat)
    requires Inv(c, s) && g < |s.gs| && c.maxKeys == 0
    ensures AtHome(c, s, g) && PcOk(c, s.shards[c.hash(s.gs[g].key)], s.gs[g])
  {
    hide History, Answers, AllHomes, Counted, AllPcs;
    PcAt(c, s.shards, s.gs, g);
  }

  ghost predicate StepsAtHome<S>(c: Config<S>, s: State<S>, h: nat, s': State<S>) {
    && Shape(c, s) && h < |s.gs| && c.maxKeys == 0 && AtHome(c, s, h) && Next(c, s, h, s')
    && PcOk(c, s.shards[c.hash(s.gs[h].key)], s.gs[h])
    && Homes(c, c.hash(s.gs[h].key), s.shards[c.hash(s.gs[h].key)])
  }

  ghost predicate HolderKnown<S>(s: State<S>, i: nat) {
    i < |s.owner| && (s.owner[i].Some? ==> s.owner[i].value < |s.gs|)
  }

  // One key, and a step of one goroutine, kind by kind.

  lemma LockKeyStep<S>(c: Config<S>, s: State<S>, h: nat, s': State<S>, key: Key)
    requires StepsAtHome(c, s, h, s') && KeyOk(c, s, key) && HolderKnown(s, c.hash(key))
    requires s.gs[h].pc.Begin? || s.gs[h].pc.Unlock?
    ensures Shape(c, s') && KeyOk(c, s', key)
  {
    hide LastOn, WellFormed;
  }

  lemma LookKeyStep<S>(c: Config<S>, s: State<S>, h: nat, s': State<S>, key: Key)
    requires StepsAtHome(c, s, h, s') && KeyOk(c, s, key) && HolderKnown(s, c.hash(key))
    requires s.gs[h].pc.Lookup? || s.gs[h].pc.Cleanup?
    ensures Shape(c, s') && KeyOk(c, s', key)
  {
    hide Without, ToFront, Scan, ExpiredOf, CleanupDue, LastOn, WellFormed;
  }

  lemma DeleteKeyStep<S>(c: Config<S>, s: State<S>, h: nat, s': State<S>, key: Key)
    requires StepsAtHome(c, s, h, s') && KeyOk(c, s, key) && HolderKnown(s, c.hash(key))
    requires s.gs[h].pc.Delete? || s.gs[h].pc.Uncount?
    ensures Shape(c, s') && KeyOk(c, s', key)
  {
    hide Without, LastOn, WellFormed;
    if |s'.log| > |s.log| {
      assert s'.log == s.log + [s'.log[|s.log|]];
      LastOnAppend(s.log, s'.log[|s.log|], key);
    }
  }

  lemma SlotKeyStep<S>(c: Config<S>, s: State<S>, h: nat, s': State<S>, key: Key)
    requires StepsAtHome(c, s, h, s') && KeyOk(c, s, key) && HolderKnown(s, c.hash(key))
    requires s.gs[h].pc.Reserve? || s.gs[h].pc.Recheck? || s.gs[h].pc.GiveBack? || s.gs[h].pc.TouchAgain?
    ensures Shape(c, s') && KeyOk(c, s', key)
  {
    hide ToFront, LastOn, WellFormed;
  }

  lemma RunKeyStep<S>(c: Config<S>, s: State<S>, h: nat, s': State<S>, key: Key)
    requires StepsAtHome(c, s, h, s') && KeyOk(c, s, key) && HolderKnown(s, c.hash(key))
    requires s.gs[h].pc.Create? || s.gs[h].pc.Run?
    ensures Shape(c, s') && KeyOk(c, s', key)
  {
    hide ToFront, LastOn, WellFormed;
    if |s'.log| > |s.log| {
      assert s'.log == s.log + [s'.log[|s.log|]];
      LastOnAppend(s.log, s'.log[|s.log|], key);
    }
  }

  lemma KeyStep<S>(c: Config<S>, s: State<S>, h: nat, s': State<S>, key: Key)
    requires StepsAtHome(c, s, h, s') && KeyOk(c, s, key) && HolderKnown(s, c.hash(key))
    ensures Shape(c, s') && KeyOk(c, s', key)
  {
    var pc := s.gs[h].pc;
    assert !pc.Done?;
    hide Next, KeyOk, HolderKnown, PcOk, Homes;
    if pc.Begin? || pc.Unlock? {
      LockKeyStep(c, s, h, s', key);
    } else if pc.Lookup? || pc.Cleanup? {
      LookKeyStep(c, s, h, s', key);
    } else if pc.Delete? || pc.Uncount? {
      DeleteKeyStep(c, s, h, s', key);
    } else if pc.Create? || pc.Run? {
      RunKeyStep(c, s, h, s', key);
    } else {
      SlotKeyStep(c, s, h, s', key);
    }
  }

  /** The events a step logs are tidy. */
  lemma {:induction false} TidyStep<S>(c: Config<S>, s: State<S>, h: nat, s': State<S>)
    requires StepsAtHome(c, s, h, s') && IdleInv(c, s)
    ensures Tidy(c, s'.log)
  {
    hide Without, ToFront, Scan, ExpiredOf, CleanupDue, LastOn, WellFormed, Tidy;
    var me := s.gs[h];
    var home := c.hash(me.key);
    if me.pc.Delete? && me.pc.batch != [] && me.pc.batch[0] in s.shards[home].items {
      var e := Removed(me.pc.batch[0], me.now);
      assert KeyOk(c, s, e.key) && me.pc.batch[0] in me.pc.batch;
      TidyAppend(c, s.log, e);
    } else if me.pc.Create? {
      TidyAppend(c, s.log, Created(me.key, me.now));
    } else if me.pc.Run? {
      assert KeyOk(c, s, me.key);
      TidyAppend(c, s.log, s'.log[|s.log|]);
    }
  }

  lemma OtherShard<S>(c: Config<S>, s: State<S>, h: nat, s': State<S>, i: nat)
    requires StepsAtHome(c, s, h, s') && i < c.shardCount && (i != c.hash(s.gs[h].key) || s.gs[h].pc.Begin?)
    ensures Shape(c, s') && s'.shards[i] == s.shards[i]
  {
    hide Touch, Insert, Remove, WellFormed, Scan, ExpiredOf, CleanupDue;
  }

  lemma CleanupBatch<S>(c: Config<S>, s: State<S>, h: nat, s': State<S>)
    requires StepsAtHome(c, s, h, s') && LookOrClean(s.gs[h].pc)
    requires BatchIdle(c, s.shards[c.hash(s.gs[h].key)], s.gs[h])
    ensures Shape(c, s') && |s'.gs| == |s.gs| && BatchIdle(c, s'.shards[c.hash(s'.gs[h].key)], s'.gs[h])
  {
    hide Without, ToFront, WellFormed, Scan, ExpiredOf;
    var me := s.gs[h];
    if me.pc.Cleanup? {
      var scanned: seq<Key> :| MayScan(c, s, h, scanned) && s' == Succ(c, s, h, scanned);
      ExpiredOfMembers(c, s.shards[c.hash(me.key)], me.now, scanned);
    }
  }

  lemma NoBatch<S>(c: Config<S>, s: State<S>, h: nat, s': State<S>)
    requires StepsAtHome(c, s, h, s') && !LookOrClean(s.gs[h].pc)
    ensures Shape(c, s') && |s'.gs| == |s.gs| && !s'.gs[h].pc.Delete? && !s'.gs[h].pc.Uncount?
  {
    hide Touch, Insert, WellFormed;
  }

  /** The keys other goroutines are about to delete are out of reach. */
  lemma BatchStep<S>(c: Config<S>, s: State<S>, h: nat, s': State<S>, g: nat)
    requires StepsAtHome(c, s, h, s') && g < |s.gs| && AtHome(c, s, g)
    requires BatchIdle(c, s.shards[c.hash(s.gs[g].key)], s.gs[g])
    ensures Shape(c, s') && |s'.gs| == |s.gs| && BatchIdle(c, s'.shards[c.hash(s'.gs[g].key)], s'.gs[g])
  {
    assert !s.gs[h].pc.Done?;
    hide Next, Homes, PcOk, LookOrClean, PastMiss, Rejected, LooksInVain, FindsFull;
    AnyStepFor(c, s, h, s');
    if g == h {
      if LookOrClean(s.gs[h].pc) {
        CleanupBatch(c, s, h, s');
      } else {
        NoBatch(c, s, h, s');
      }
    } else if c.hash(s.gs[g].key) != c.hash(s.gs[h].key) || s.gs[h].pc.Begin? {
      OtherShard(c, s, h, s', c.hash(s.gs[g].key));
    } else {
      OtherShape(c, s, h, s');
    }
  }

  lemma OtherShape<S>(c: Config<S>, s: State<S>, h: nat, s': State<S>)
    requires StepsAtHome(c, s, h, s')
    ensures Shape(c, s')
  {
    hide Touch, Insert, Remove, WellFormed, Scan, ExpiredOf, CleanupDue;
  }

  lemma IdleStep<S>(c: Config<S>, s: State<S>, h: nat, s': State<S>)
    requires Inv(c, s) && IdleInv(c, s) && h < |s.gs| && Next(c, s, h, s') && c.maxKeys == 0
    ensures Shape(c, s') && IdleInv(c, s')
  {
    hide Next, KeyOk, BatchIdle, AtHome, PcOk, Tidy, History, Answers, Counted, AllPcs, Homes;
    StaysHome(c, s, h);
    HomesAt(c, s.shards, c.hash(s.gs[h].key));
    TidyStep(c, s, h, s');
    forall k: Key ensures Shape(c, s') && KeyOk(c, s', k) {
      assert KeyOk(c, s, k);
      assert HolderKnown(s, c.hash(k));
      KeyStep(c, s, h, s', k);
    }
    OtherShape(c, s, h, s');
    BatchLength(c, s, h, s');
    forall g: nat | g < |s'.gs| ensures BatchIdle(c, s'.shards[c.hash(s'.gs[g].key)], s'.gs[g]) {
      StaysHome(c, s, g);
      BatchStep(c, s, h, s', g);
    }
  }

  lemma BatchLength<S>(c: Config<S>, s: State<S>, h: nat, s': State<S>)
    requires Shape(c, s) && h < |s.gs| && Next(c, s, h, s')
    ensures |s'.gs| == |s.gs|
  {
    hide Next;
    AnyStepFor(c, s, h, s');
  }

  lemma {:induction false} IdleRun<S>(c: Config<S>, run: seq<State<S>>, i: nat)
    requires Execution(c, run) && i < |run| && c.maxKeys == 0
    ensures Shape(c, run[i]) && IdleInv(c, run[i])
    decreases i
  {
    if i == 0 {
      StartsAtBegin(c, run);
      assert Init(c, run[0]);
    } else {
      hide Execution, Inv, IdleInv, Next;
      IdleRun(c, run, i - 1);
      ReachableInv(c, run, i - 1);
      var h := StepBefore(c, run, i);
      IdleStep(c, run[i - 1], h, run[i]);
    }
  }

  /** In every interleaving without a cap: if the times on a key arrive in order and idle
      states decide as fresh ones, all answers on the key, over all its lives, are those of
      a key that is never dropped. */
  lemma {:induction false} ConcurrentTtlInvisible<S(!new)>(c: Config<S>, fit: (S, int) -> bool, run: seq<State<S>>,
                                                           n: nat, key: Key)
    requires Execution(c, run) && n < |run| && c.maxKeys == 0
    requires Fits(c.alg, fit) && Forgets(c.alg, fit, c.keyTTL) && InOrder(run[n].log, key)
    ensures ResultsIn(run[n].log, key) == KeyResults(c.alg, TimesIn(run[n].log, key))
  {
    ReachableInv(c, run, n);
    IdleRun(c, run, n);
    hide Execution, Fits, Forgets, Tidy, Legal, InOrder, KeyResults;
    DropsInvisible(c, fit, run[n].log, key);
  }
}
