/** The order of the log respects real time: served requests are ordered as they were made.
    Requests that are turned away leave nothing in the log; FullStores gives them an instant. */
module RealTime {
  import opened Shards
  import opened Protocol
  import opened ProtocolInvariant
  import opened ProtocolTheorems
  import opened Rejections

  /** The log only grows, and a goroutine that has returned stays as it is. */
  ghost predicate Extends<S>(s: State<S>, s': State<S>) {
    && s.log <= s'.log && |s.gs| == |s'.gs|
    && forall g :: 0 <= g < |s.gs| && s.gs[g].pc.Done? ==> s'.gs[g] == s.gs[g]
  }

  lemma StepExtends<S>(c: Config<S>, s: State<S>, h: nat, s': State<S>)
    requires Shape(c, s) && h < |s.gs| && Next(c, s, h, s')
    ensures Extends(s, s')
  {
    assert !s.gs[h].pc.Done?;
    hide Next, PastMiss, Rejected, LooksInVain, FindsFull;
    AnyStepFor(c, s, h, s');
  }

  lemma {:induction false} RunExtends<S>(c: Config<S>, run: seq<State<S>>, i: nat, j: nat)
    requires Execution(c, run) && i <= j < |run|
    ensures Extends(run[i], run[j])
    decreases j
  {
    hide Execution, Next;
    if i < j {
      RunExtends(c, run, i, j - 1);
      var h := StepBefore(c, run, j);
      StepExtends(c, run[j - 1], h, run[j]);
    }
  }

  /** Decisions of `g` logged after a prefix lengthen the list of its decisions. */
  lemma {:induction false} LaterRuns(log: seq<Event>, g: nat, n: nat, a: nat)
    requires n <= a < |log| && log[a].Ran? && log[a].g == g
    ensures |RunsOf(log, g)| > |RunsOf(log[..n], g)|
    decreases |log|
  {
    var init := log[..|log| - 1];
    MoreRuns(init, g, n);
    assert init[..n] == log[..n];
    if a < |init| {
      LaterRuns(init, g, n, a);
    }
  }

  lemma {:induction false} MoreRuns(log: seq<Event>, g: nat, n: nat)
    requires n <= |log|
    ensures |RunsOf(log, g)| >= |RunsOf(log[..n], g)|
    decreases |log|
  {
    if n < |log| {
      MoreRuns(log[..|log| - 1], g, n);
      assert log[..|log| - 1][..n] == log[..n];
    } else {
      assert log[..n] == log;
    }
  }

  lemma {:induction false} RunIsListed(log: seq<Event>, g: nat, a: nat)
    requires a < |log| && log[a].Ran? && log[a].g == g
    ensures RunsOf(log, g) != []
  {
    LaterRuns(log, g, 0, a);
  }

  /** If goroutine `g` had returned when goroutine `h` was still to begin, the decision of
      `g` comes first. */
  lemma {:induction false} RealTimeOrder<S>(c: Config<S>, run: seq<State<S>>, i: nat, j: nat, g: nat, h: nat, a: nat,
                                            b: nat)
    requires Execution(c, run) && i <= j < |run| && g < |run[i].gs| && h < |run[i].gs|
    requires run[i].gs[g].pc.Done? && run[i].gs[h].pc.Begin?
    requires a < |run[j].log| && run[j].log[a].Ran? && run[j].log[a].g == g
    requires b < |run[j].log| && run[j].log[b].Ran? && run[j].log[b].g == h
    ensures a < b
  {
    RunExtends(c, run, i, j);
    ReachableInv(c, run, i);
    ReachableInv(c, run, j);
    InvAnswers(c, run[i], g);
    InvAnswers(c, run[i], h);
    InvAnswers(c, run[j], g);
    hide Execution, Inv, RunsOf;
    var (log, n) := (run[j].log, |run[i].log|);
    assert log[..n] == run[i].log;
    if n <= a {
      LaterRuns(log, g, n, a);
    }
    if b < n {
      RunIsListed(run[i].log, h, b);
    }
  }
}
