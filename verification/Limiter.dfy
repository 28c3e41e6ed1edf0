/** What every limiter of the library shares: the outcome of a request, the pair of
    closures (`create` and the decision function) that the key store runs for a key,
    and the outcomes of a whole run of requests on one key.

    Times are nanoseconds as unbounded integers; float64 quantities are reals. */
module Limiter {

  datatype Option<+T> = None | Some(value: T)

  datatype Result = Result(allowed: bool, remaining: int, retryAfter: int)

  /** The two closures a limiter hands to its key store. `decide` is the new state
      and the result; the library mutates the state object in place. */
  datatype Algorithm<!S> = Algorithm(create: int -> S, decide: (S, int) -> (S, Result))

  ghost predicate Nondecreasing(times: seq<int>) {
    forall i, j :: 0 <= i < j < |times| ==> times[i] <= times[j]
  }

  lemma NondecreasingTail(times: seq<int>)
    requires Nondecreasing(times) && times != []
    ensures Nondecreasing(times[1..]) && (|times| > 1 ==> times[0] <= times[1])
  {}

  lemma NondecreasingInit(times: seq<int>, now: int)
    requires Nondecreasing(times + [now])
    ensures Nondecreasing(times) && (times != [] ==> times[|times| - 1] <= now)
  {
    var all := times + [now];
    assert forall i :: 0 <= i < |times| ==> all[i] == times[i];
    assert all[|times|] == now;
  }

  lemma NondecreasingBurst(times: seq<int>, now: int, burst: seq<int>)
    requires Nondecreasing(times) && times != [] && times[|times| - 1] <= now
    requires forall i :: 0 <= i < |burst| ==> burst[i] == now
    ensures Nondecreasing(times + burst)
  {
    assert forall i :: 0 <= i < |times| ==> times[i] <= now;
  }

  /** No time is more than `d` before an earlier one. */
  ghost predicate StepsBackAtMost(times: seq<int>, d: int) {
    forall i, j :: 0 <= i < j < |times| ==> times[i] - d <= times[j]
  }

  /** State of one key after serving `times` in order. */
  function After<S>(alg: Algorithm<S>, s: S, times: seq<int>): S
  {
    if times == [] then s else After(alg, alg.decide(s, times[0]).0, times[1..])
  }

  /** The results returned while serving `times` in order. */
  function Results<S>(alg: Algorithm<S>, s: S, times: seq<int>): (rs: seq<Result>)
    ensures |rs| == |times|
  {
    if times == [] then [] else
    var (s', r) := alg.decide(s, times[0]);
    [r] + Results(alg, s', times[1..])
  }

  /** What the requests on one key return, the first of which creates its state. */
  function KeyResults<S>(alg: Algorithm<S>, times: seq<int>): (rs: seq<Result>)
    ensures |rs| == |times|
  {
    if times == [] then [] else Results(alg, alg.create(times[0]), times)
  }

  function CountAllowed(rs: seq<Result>): nat {
    if rs == [] then 0 else (if rs[0].allowed then 1 else 0) + CountAllowed(rs[1..])
  }

  /** `k` requests at one instant. */
  function Burst(now: int, k: nat): seq<int> { if k == 0 then [] else [now] + Burst(now, k - 1) }

  function Min(a: int, b: int): int { if a <= b then a else b }

  /** Of `k` more requests at the instant of this one, as many are admitted as it said remain. */
  ghost predicate RemainingIsExact<S>(alg: Algorithm<S>, s: S, now: int, k: nat) {
    var (s', r) := alg.decide(s, now);
    CountAllowed(Results(alg, s', Burst(now, k))) == Min(k, r.remaining)
  }

  lemma {:induction false} BurstAt(now: int, k: nat)
    ensures |Burst(now, k)| == k && forall i :: 0 <= i < k ==> Burst(now, k)[i] == now
    ensures Burst(now, k) + [now] == Burst(now, k + 1)
  {
    if k > 0 {
      BurstAt(now, k - 1);
    }
  }

  lemma BurstStep<S>(alg: Algorithm<S>, s: S, now: int, k: nat)
    requires k > 0
    ensures var (s', r) := alg.decide(s, now);
            CountAllowed(Results(alg, s, Burst(now, k)))
            == (if r.allowed then 1 else 0) + CountAllowed(Results(alg, s', Burst(now, k - 1)))
  {
    assert Burst(now, k)[1..] == Burst(now, k - 1);
  }

  /** A run can be cut anywhere: the rest is a run from the state reached. */
  lemma {:induction false} RunSplit<S>(alg: Algorithm<S>, s: S, a: seq<int>, b: seq<int>)
    ensures After(alg, s, a + b) == After(alg, After(alg, s, a), b)
    ensures Results(alg, s, a + b) == Results(alg, s, a) + Results(alg, After(alg, s, a), b)
  {
    if a == [] {
      assert a + b == b;
    } else {
      assert (a + b)[1..] == a[1..] + b;
      RunSplit(alg, alg.decide(s, a[0]).0, a[1..], b);
    }
  }

  lemma {:induction false} AfterOne<S>(alg: Algorithm<S>, s: S, now: int)
    ensures After(alg, s, [now]) == alg.decide(s, now).0
  {}

  /** A result is what the state reached before it decides. */
  lemma {:induction false} ResultAt<S>(alg: Algorithm<S>, s: S, times: seq<int>, n: nat)
    requires n < |times|
    ensures Results(alg, s, times)[n] == alg.decide(After(alg, s, times[..n]), times[n]).1
    decreases n
  {
    if n > 0 {
      ResultAt(alg, alg.decide(s, times[0]).0, times[1..], n - 1);
      assert times[..n][1..] == times[1..][..n - 1];
    }
  }

  lemma SliceEnds<T>(s: seq<T>, i: nat, j: nat)
    requires i <= j < |s|
    ensures var t := s[i..j + 1]; t[0] == s[i] && t[|t| - 1] == s[j]
  {}

  /** Requests i..j of a run are a run of their own, from the state reached before i. */
  lemma RunSegment<S>(alg: Algorithm<S>, s: S, times: seq<int>, i: nat, j: nat)
    returns (s': S, segment: seq<int>)
    requires i <= j < |times|
    ensures segment != [] && segment[0] == times[i] && segment[|segment| - 1] == times[j]
    ensures Results(alg, s, times)[i..j + 1] == Results(alg, s', segment)
    ensures Results(alg, s, times)[j] == Results(alg, s', segment)[|segment| - 1]
  {
    hide Results, After;
    s', segment := After(alg, s, times[..i]), times[i..j + 1];
    assert times[..i] + segment == times[..j + 1] && times[..j + 1] + times[j + 1..] == times;
    RunSplit(alg, s, times[..j + 1], times[j + 1..]);
    RunSplit(alg, s, times[..i], segment);
    SliceEnds(times, i, j);
    SliceEnds(Results(alg, s, times), i, j);
  }

  lemma {:induction false} CountAllowedSplit(a: seq<Result>, b: seq<Result>)
    ensures CountAllowed(a + b) == CountAllowed(a) + CountAllowed(b)
  {
    if a == [] {
      assert a + b == b;
    } else {
      assert (a + b)[1..] == a[1..] + b;
      CountAllowedSplit(a[1..], b);
    }
  }

  /** The last admission of results i..j, if there is one. */
  lemma {:induction false} LastAllowed(rs: seq<Result>, i: nat, j: nat) returns (l: nat)
    requires i <= j < |rs|
    ensures i <= l <= j && CountAllowed(rs[i..j + 1]) == CountAllowed(rs[i..l + 1])
    ensures rs[l].allowed || CountAllowed(rs[i..j + 1]) == 0
    decreases j
  {
    l := j;
    if !rs[j].allowed {
      assert rs[i..j + 1] == rs[i..j] + [rs[j]];
      CountAllowedSplit(rs[i..j], [rs[j]]);
      if i < j {
        l := LastAllowed(rs, i, j - 1);
      }
    }
  }
}

/** Laws a decision function may obey on states kept up to date by a clock that never
    steps back. `fit(s, t)` says that `s` can be the state of a key last served at `t`. */
module Laws {
  import opened Limiter

  /** `fit` holds of a fresh state and is kept by every decision. */
  ghost predicate Fits<S(!new)>(alg: Algorithm<S>, fit: (S, int) -> bool) {
    && (forall now: int :: fit(alg.create(now), now))
    && (forall s: S, t: int, now: int {:trigger fit(s, t), alg.decide(s, now)} ::
          fit(s, t) && t <= now ==> fit(alg.decide(s, now).0, now))
  }

  /** A state left alone for `ttl` decides as a fresh one does, and becomes the same state. */
  ghost predicate Forgets<S(!new)>(alg: Algorithm<S>, fit: (S, int) -> bool, ttl: int) {
    forall s: S, t: int, now: int {:trigger fit(s, t), alg.decide(s, now)} ::
      fit(s, t) && t + ttl <= now ==> alg.decide(s, now) == alg.decide(alg.create(now), now)
  }

  /** What ordered requests, the last of them at `t`, have made of a fresh state. */
  ghost predicate Reached<S>(alg: Algorithm<S>, s: S, t: int) {
    exists times: seq<int> :: times != [] && Nondecreasing(times) && t == times[|times| - 1]
                              && s == After(alg, alg.create(times[0]), times)
  }

  /** As `Forgets`, of the states a key can really have. */
  ghost predicate ForgetsReached<S(!new)>(alg: Algorithm<S>, ttl: int) {
    forall s: S, t: int, now: int {:trigger Reached(alg, s, t), alg.decide(s, now)} ::
      Reached(alg, s, t) && t + ttl <= now ==> alg.decide(s, now) == alg.decide(alg.create(now), now)
  }

  lemma {:induction false} RunFits<S(!new)>(alg: Algorithm<S>, fit: (S, int) -> bool, s: S, t: int, times: seq<int>)
    requires Fits(alg, fit) && fit(s, t) && Nondecreasing(times) && (times != [] ==> t <= times[0])
    ensures fit(After(alg, s, times), if times == [] then t else times[|times| - 1])
    decreases |times|
  {
    hide Fits;
    if times != [] {
      var s' := alg.decide(s, times[0]).0;
      assert fit(s', times[0]) by { FitsNext(alg, fit, s, t, times[0]); }
      RunFits(alg, fit, s', times[0], times[1..]);
    }
  }

  lemma FitsNext<S(!new)>(alg: Algorithm<S>, fit: (S, int) -> bool, s: S, t: int, now: int)
    requires Fits(alg, fit) && fit(s, t) && t <= now
    ensures fit(alg.decide(s, now).0, now)
  {}

  lemma ReachedFits<S(!new)>(alg: Algorithm<S>, fit: (S, int) -> bool, s: S, t: int)
    requires Fits(alg, fit) && Reached(alg, s, t)
    ensures fit(s, t)
  {
    var times: seq<int> :| times != [] && Nondecreasing(times) && t == times[|times| - 1]
                           && s == After(alg, alg.create(times[0]), times);
    assert fit(alg.create(times[0]), times[0]);
    hide Fits;
    RunFits(alg, fit, alg.create(times[0]), times[0], times);
  }

  lemma CreatedReached<S>(alg: Algorithm<S>, now: int, k: nat)
    ensures Reached(alg, After(alg, alg.create(now), Burst(now, k + 1)), now)
  {
    hide After;
    BurstAt(now, k + 1);
    var times := Burst(now, k + 1);
    assert After(alg, alg.create(times[0]), times) == After(alg, alg.create(now), times);
  }

  lemma ReachedFurther<S>(alg: Algorithm<S>, s: S, t: int, now: int, k: nat)
    requires Reached(alg, s, t) && t <= now
    ensures Reached(alg, After(alg, s, Burst(now, k + 1)), now)
  {
    hide After;
    var times: seq<int> :| times != [] && Nondecreasing(times) && t == times[|times| - 1]
                           && s == After(alg, alg.create(times[0]), times);
    hide Nondecreasing, Burst;
    var all := times + Burst(now, k + 1);
    BurstAt(now, k + 1);
    RunSplit(alg, alg.create(times[0]), times, Burst(now, k + 1));
    NondecreasingBurst(times, now, Burst(now, k + 1));
    assert all[0] == times[0] && all[|all| - 1] == now;
  }

  /** States that forget whenever they fit do so when they are reached. */
  lemma ReachedForgets<S(!new)>(alg: Algorithm<S>, fit: (S, int) -> bool, ttl: int)
    requires Fits(alg, fit) && Forgets(alg, fit, ttl)
    ensures ForgetsReached(alg, ttl)
  {
    forall s: S, t: int, now: int {:trigger Reached(alg, s, t), alg.decide(s, now)}
      | Reached(alg, s, t) && t + ttl <= now
      ensures alg.decide(s, now) == alg.decide(alg.create(now), now)
    {
      ReachedFits(alg, fit, s, t);
    }
  }

  /** No later decision can tell whether a denied request was made at all. */
  ghost predicate DenialsInvisible<S(!new)>(alg: Algorithm<S>, fit: (S, int) -> bool) {
    forall s: S, t: int, now: int, later: int ::
      fit(s, t) && t <= now <= later && !alg.decide(s, now).1.allowed
      ==> alg.decide(alg.decide(s, now).0, later) == alg.decide(s, later)
  }

  ghost predicate FreshAllows<S>(alg: Algorithm<S>) {
    forall now: int :: alg.decide(alg.create(now), now).1.allowed
  }
}
