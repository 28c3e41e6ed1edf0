/** What holds in every state of every interleaving of any number of goroutines. */
module ProtocolTheorems {
  import opened Limiter
  import opened Shards
  import opened Protocol
  import opened ProtocolInvariant
  import opened ProtocolSteps

  lemma InitInv<S>(c: Config<S>, s: State<S>)
    requires Init(c, s)
    ensures Inv(c, s)
  {
    NothingStored(s.shards);
    NoDebts(s.gs);
    forall i | 0 <= i < c.shardCount ensures Homes(c, i, s.shards[i]) {
      assert s.shards[i] == EMPTY_SHARD;
    }
    assert forall k: Key :: Ref(c, s.shards, k) == None;
  }

  lemma {:induction false} NothingStored(shards: seq<Shard<nat>>)
    requires forall i :: 0 <= i < |shards| ==> shards[i] == EMPTY_SHARD
    ensures Stored(shards) == 0
  {
    if shards != [] {
      NothingStored(shards[..|shards| - 1]);
    }
  }

  lemma {:induction false} NoDebts(gs: seq<Goroutine>)
    requires forall g :: 0 <= g < |gs| ==> Debt(gs[g].pc) == 0
    ensures Debts(gs) == 0
  {
    hide Debt;
    if gs != [] {
      NoDebts(gs[..|gs| - 1]);
    }
  }

  lemma {:induction false} ReachableInv<S>(c: Config<S>, run: seq<State<S>>, i: nat)
    requires Execution(c, run) && i < |run|
    ensures Inv(c, run[i])
    decreases i
  {
    hide Init, Inv, Next;
    if i == 0 {
      InitInv(c, run[0]);
    } else {
      ReachableInv(c, run, i - 1);
      assert Step(c, run[i - 1], run[(i - 1) + 1]);
      var g: nat :| g < |run[i - 1].gs| && Next(c, run[i - 1], g, run[i]);
      InvStep(c, run[i - 1], g, run[i]);
    }
  }

  // ---- Exact cap ----

  /** At every step `live` is the stored keys plus the reservations and removals under
      way; with a cap it never exceeds it, so neither do the stored keys; and when every
      goroutine has returned it is exact. */
  lemma ExactCap<S>(c: Config<S>, run: seq<State<S>>, i: nat)
    requires Execution(c, run) && i < |run|
    ensures var s := run[i];
            && s.live == Stored(s.shards) + Debts(s.gs)
            && (c.maxKeys > 0 ==> Stored(s.shards) <= s.live <= c.maxKeys)
            && ((forall g :: 0 <= g < |s.gs| ==> s.gs[g].pc.Done?) ==> s.live == Stored(s.shards))
  {
    hide Locks, AllPcs, AllHomes, History, Answers, Execution;
    ReachableInv(c, run, i);
    var s := run[i];
    if forall g :: 0 <= g < |s.gs| ==> s.gs[g].pc.Done? {
      NoDebts(s.gs);
    }
  }

  // ---- Same-key serializability ----

  /** One life of a key: when its state was created, and the requests served since. */
  datatype Life = Life(created: int, times: seq<int>, results: seq<Result>)

  ghost function LifeOf(log: seq<Event>, key: Key): (life: Option<Life>)
    ensures life.Some? ==> |life.value.times| == |life.value.results|
  {
    if log == [] then None else
    var before := LifeOf(log[..|log| - 1], key);
    match log[|log| - 1]
    case Created(k, now) => if k == key then Some(Life(now, [], [])) else before
    case Ran(_, k, now, r) =>
      if k == key && before.Some? then
        Some(before.value.(times := before.value.times + [now], results := before.value.results + [r]))
      else before
    case Removed(k, _) => if k == key then None else before
  }

  ghost predicate LifeIsRun<S>(alg: Algorithm<S>, life: Life, state: S) {
    && life.results == Results(alg, alg.create(life.created), life.times)
    && state == After(alg, alg.create(life.created), life.times)
  }

  /** In a legal log the results of a life are those of one sequential run of the decision
      function from a fresh state. */
  lemma {:induction false} LifeIsSequential<S>(alg: Algorithm<S>, log: seq<Event>, key: Key)
    requires Legal(alg, log)
    ensures LifeOf(log, key).Some? <==> Replay(alg, log, key).Some?
    ensures LifeOf(log, key).Some? ==> LifeIsRun(alg, LifeOf(log, key).value, Replay(alg, log, key).value)
    decreases |log|
  {
    if log != [] {
      var init, last := log[..|log| - 1], log[|log| - 1];
      LifeIsSequential(alg, init, key);
      if last.Ran? && last.key == key {
        var life := LifeOf(init, key).value;
        var first := alg.create(life.created);
        RunSplit(alg, first, life.times, [last.now]);
        var state := After(alg, first, life.times);
        assert Results(alg, state, [last.now]) == [alg.decide(state, last.now).1];
        assert After(alg, state, [last.now]) == alg.decide(state, last.now).0;
      }
    }
  }

  lemma {:induction false} LegalPrefix<S>(alg: Algorithm<S>, log: seq<Event>, n: nat)
    requires Legal(alg, log) && n <= |log|
    ensures Legal(alg, log[..n])
    decreases |log|
  {
    if n < |log| {
      LegalPrefix(alg, log[..|log| - 1], n);
      assert log[..|log| - 1][..n] == log[..n];
    } else {
      assert log[..n] == log;
    }
  }

  lemma {:induction false} RunsOfMember(log: seq<Event>, g: nat, e: Event) returns (j: nat)
    requires e in RunsOf(log, g)
    ensures j < |log| && log[j] == e && e.Ran? && e.g == g
    decreases |log|
  {
    var init := log[..|log| - 1];
    if e in RunsOf(init, g) {
      j := RunsOfMember(init, g, e);
    } else {
      j := |log| - 1;
    }
  }

  /** The event at `j` of the log is the last request of a sequential run of the decision
      function over the requests of its key since the state of the key was created. */
  ghost predicate EndsSequentialRun<S>(alg: Algorithm<S>, log: seq<Event>, j: nat)
    requires j < |log| && log[j].Ran?
  {
    match LifeOf(log[..j + 1], log[j].key)
    case None => false
    case Some(life) =>
      && life.results == Results(alg, alg.create(life.created), life.times)
      && life.times != []
      && life.times[|life.times| - 1] == log[j].now
      && life.results[|life.times| - 1] == log[j].result
  }

  lemma {:induction false} RanEndsRun<S>(alg: Algorithm<S>, log: seq<Event>, j: nat)
    requires Legal(alg, log) && j < |log| && log[j].Ran?
    ensures EndsSequentialRun(alg, log, j)
  {
    var upTo := log[..j + 1];
    LegalPrefix(alg, log, j + 1);
    LifeIsSequential(alg, upTo, log[j].key);
    assert upTo[|upTo| - 1] == log[j];
    LifeIsSequential(alg, upTo[..|upTo| - 1], log[j].key);
  }

  /** Every goroutine that has returned a result ran its decision exactly once, and that
      result is the last one of a sequential run, in lock order, over the requests of its
      key since the one state object of the key was created. A goroutine without a result
      has not touched any state. */
  lemma Serializable<S>(c: Config<S>, run: seq<State<S>>, i: nat, g: nat) returns (j: nat)
    requires Execution(c, run) && i < |run| && g < |run[i].gs|
    ensures var (log, me) := (run[i].log, run[i].gs[g]);
            && Legal(c.alg, log)
            && RunsOf(log, g) == Expected(g, me)
            && (me.pc.Done? && me.pc.outcome.Ok? ==>
                  && j < |log| && log[j] == Ran(g, me.key, me.now, me.pc.outcome.result)
                  && EndsSequentialRun(c.alg, log, j))
  {
    hide *;
    ReachableInv(c, run, i);
    InvAnswers(c, run[i], g);
    j := FindRun(c.alg, run[i].log, run[i].gs[g], g);
  }

  lemma FindRun<S>(alg: Algorithm<S>, log: seq<Event>, me: Goroutine, g: nat) returns (j: nat)
    requires Legal(alg, log) && RunsOf(log, g) == Expected(g, me)
    ensures me.pc.Done? && me.pc.outcome.Ok? ==>
              && j < |log| && log[j] == Ran(g, me.key, me.now, me.pc.outcome.result)
              && EndsSequentialRun(alg, log, j)
  {
    hide RunsOf, Legal, EndsSequentialRun;
    j := 0;
    if me.pc.Done? && me.pc.outcome.Ok? {
      j := RunsOfMember(log, g, Ran(g, me.key, me.now, me.pc.outcome.result));
      RanEndsRun(alg, log, j);
    }
  }

  lemma {:induction false} InvAnswers<S>(c: Config<S>, s: State<S>, g: nat)
    requires Inv(c, s) && g < |s.gs|
    ensures Legal(c.alg, s.log) && RunsOf(s.log, g) == Expected(g, s.gs[g])
  {
    hide Locks, AllPcs, AllHomes, Counted, Expected, RunsOf, Legal;
  }

  /** Two keys never share a state object, and each refers to the state its history made. */
  lemma {:induction false} OneStatePerKey<S>(c: Config<S>, run: seq<State<S>>, i: nat, key: Key, other: Key)
    requires Execution(c, run) && i < |run| && key != other
    ensures Inv(c, run[i])
    ensures var s := run[i];
            && (Ref(c, s.shards, key).Some? <==> LifeOf(s.log, key).Some?)
            && (Ref(c, s.shards, key).Some? ==>
                  && Ref(c, s.shards, key) != Ref(c, s.shards, other)
                  && Ref(c, s.shards, key).value < |s.objs|
                  && LifeIsRun(c.alg, LifeOf(s.log, key).value, s.objs[Ref(c, s.shards, key).value]))
  {
    ReachableInv(c, run, i);
    assert Agrees(c, run[i].shards, run[i].objs, run[i].log, key);
    LifeIsSequential(c.alg, run[i].log, key);
  }

  /** Only EvictReject with a cap ever turns a request away. */
  lemma OnlyRejectRejects<S>(c: Config<S>, run: seq<State<S>>, i: nat, g: nat)
    requires Execution(c, run) && i < |run| && g < |run[i].gs|
    requires run[i].gs[g].pc == Done(MaxKeysExceeded)
    ensures c.policy == EvictReject && c.maxKeys > 0
  {
    ReachableInv(c, run, i);
    PcAt(c, run[i].shards, run[i].gs, g);
  }

  // ---- Deadlock freedom ----

  /** The shard lock a goroutine is about to take. */
  ghost function Wants<S>(c: Config<S>, me: Goroutine): Option<nat> {
    match me.pc
    case Begin => Some(c.hash(me.key))
    case SweepShardLock(i) => Some(i)
    case OtherLock(i) => Some(i)
    case Relock => Some(c.hash(me.key))
    case _ => None
  }

  ghost predicate OwnsShard(owner: seq<Option<nat>>, i: nat, g: nat) { i < |owner| && owner[i] == Some(g) }

  lemma OwnsOnlyLocked<S>(c: Config<S>, s: State<S>, i: nat, g: nat)
    requires Inv(c, s) && g < |s.gs| && OwnsShard(s.owner, i, g)
    ensures Locked(c, s.gs[g]) == Some(i)
  {
    hide AllPcs, AllHomes, Counted, History, Answers, Locked;
  }

  /** No goroutine owns two shard locks; one that wants a shard lock owns none; one that
      wants sweepMu owns no lock at all. */
  lemma LockDiscipline<S>(c: Config<S>, run: seq<State<S>>, i: nat, g: nat)
    requires Execution(c, run) && i < |run| && g < |run[i].gs|
    ensures var (owner, me) := (run[i].owner, run[i].gs[g]);
            && (forall a, b :: OwnsShard(owner, a, g) && OwnsShard(owner, b, g) ==> a == b)
            && (Wants(c, me).Some? || me.pc.SweepLock? ==> forall a :: !OwnsShard(owner, a, g))
            && (me.pc.SweepLock? ==> run[i].sweepOwner != Some(g))
  {
    ReachableInv(c, run, i);
    hide Inv, OwnsShard;
    var s := run[i];
    forall a: nat | OwnsShard(s.owner, a, g) ensures Locked(c, s.gs[g]) == Some(a) {
      OwnsOnlyLocked(c, s, a, g);
    }
    SweepOwnerHolds(c, s);
  }

  lemma SweepOwnerHolds<S>(c: Config<S>, s: State<S>)
    requires Inv(c, s)
    ensures s.sweepOwner.Some? ==> s.sweepOwner.value < |s.gs| && HoldsSweep(s.gs[s.sweepOwner.value].pc)
  {}

  ghost predicate Unblocked<S>(c: Config<S>, s: State<S>, g: nat)
    requires g < |s.gs|
  {
    && (Wants(c, s.gs[g]).Some? ==>
          Wants(c, s.gs[g]).value < |s.owner| && s.owner[Wants(c, s.gs[g]).value] == None)
    && (s.gs[g].pc.SweepLock? ==> s.sweepOwner == None)
  }

  lemma UnblockedReady<S>(c: Config<S>, s: State<S>, g: nat)
    requires Inv(c, s) && g < |s.gs| && !s.gs[g].pc.Done? && Unblocked(c, s, g)
    ensures Ready(c, s, g)
  {
    hide Locks, History, Answers, AllPcs, AllHomes, Counted;
    PcAt(c, s.shards, s.gs, g);
    if s.gs[g].pc.Run? {
      RefAllocated(c, s, s.gs[g].key, s.gs[g].pc.ref);
    }
  }

  /** A goroutine that waits for no lock, or for a free one, can step. */
  lemma CanStep<S>(c: Config<S>, s: State<S>, g: nat) returns (s': State<S>)
    requires Inv(c, s) && g < |s.gs| && !s.gs[g].pc.Done? && Unblocked(c, s, g)
    ensures Next(c, s, g, s')
  {
    UnblockedReady(c, s, g);
    hide Inv, Unblocked, Ready, Succ;
    var scanned := [];
    if s.gs[g].pc.Cleanup? {
      scanned := ScanExists(c.policy, s.shards[Target(c.hash(s.gs[g].key), s.gs[g].pc.cont)]);
    }
    s' := Succ(c, s, g, scanned);
    assert MayScan(c, s, g, scanned);
  }

  lemma RefAllocated<S>(c: Config<S>, s: State<S>, key: Key, ref: nat)
    requires Inv(c, s) && HasRef(s.shards[c.hash(key)], key, ref)
    ensures ref < |s.objs|
  {
    assert Agrees(c, s.shards, s.objs, s.log, key);
  }

  /** The owner of a shard lock waits for nothing. */
  lemma OwnerCanStep<S>(c: Config<S>, s: State<S>, i: nat) returns (h: nat, s': State<S>)
    requires Inv(c, s) && i < |s.owner| && s.owner[i].Some?
    ensures h < |s.gs| && Next(c, s, h, s')
  {
    hide History, Answers, AllPcs, AllHomes, Counted, Next;
    h := s.owner[i].value;
    s' := CanStep(c, s, h);
  }

  /** The goroutine that wants a shard lock can step, or the owner of that lock can. */
  lemma WanterOrOwner<S>(c: Config<S>, s: State<S>, g: nat) returns (h: nat, s': State<S>)
    requires Inv(c, s) && g < |s.gs| && Wants(c, s.gs[g]).Some?
    ensures h < |s.gs| && Next(c, s, h, s')
  {
    hide History, Answers, AllPcs, AllHomes, Counted, Next, Locks;
    PcAt(c, s.shards, s.gs, g);
    var i := Wants(c, s.gs[g]).value;
    if s.owner[i] == None {
      h := g;
      s' := CanStep(c, s, g);
    } else {
      h, s' := OwnerCanStep(c, s, i);
    }
  }

  /** As long as some goroutine has not returned, some goroutine can take a step. */
  lemma DeadlockFree<S>(c: Config<S>, run: seq<State<S>>, i: nat, g: nat) returns (h: nat, s': State<S>)
    requires Execution(c, run) && i < |run| && g < |run[i].gs| && !run[i].gs[g].pc.Done?
    ensures Shape(c, run[i]) && h < |run[i].gs| && Next(c, run[i], h, s')
  {
    ReachableInv(c, run, i);
    hide History, Answers, AllPcs, AllHomes, Counted, Next;
    var s := run[i];
    h := g;
    if s.gs[g].pc.SweepLock? && s.sweepOwner.Some? {
      h := s.sweepOwner.value;
    }
    if Wants(c, s.gs[h]).Some? {
      h, s' := WanterOrOwner(c, s, h);
    } else {
      s' := CanStep(c, s, h);
    }
  }
}
