/** What the token bucket and the leaky bucket share. */
module BucketParams {
  import opened Limiter
  import opened Numeric

  /** The constructors panic unless `Valid`. */
  datatype Params = Params(capacity: real, rate: real) {
    predicate Valid() { capacity >= 1.0 && rate > 0.0 }

    /** What the rate yields in a duration, negative for a negative one. */
    function Yield(nanos: int): real { Seconds(nanos) * rate }
  }

  /** Requests i..j admit at most what the capacity and the time between them yield. */
  ghost predicate WithinRate<S>(p: Params, alg: Algorithm<S>, times: seq<int>, i: nat, j: nat)
    requires i <= j < |times|
  {
    CountAllowed(KeyResults(alg, times)[i..j + 1]) as real <= p.capacity + p.Yield(times[j] - times[i])
  }

  lemma YieldAdd(p: Params, a: int, b: int)
    ensures p.Yield(a + b) == p.Yield(a) + p.Yield(b)
  {}

  lemma YieldMono(p: Params, a: int, b: int)
    requires p.Valid()
    ensures a <= b <==> p.Yield(a) <= p.Yield(b)
    ensures p.Yield(0) == 0.0
  {
    YieldAdd(p, a, b - a);
  }

  /** A duration yields `x` exactly when it is at least `x / rate` seconds. */
  lemma YieldReaches(p: Params, x: real, d: int)
    requires p.Valid()
    ensures x / p.rate * 1_000_000_000.0 <= d as real <==> x <= p.Yield(d)
    ensures x > 0.0 ==> x / p.rate > 0.0
  {
    var q := x / p.rate;
    assert q * p.rate == x;
    assert (Seconds(d) - q) * p.rate == p.Yield(d) - x;
  }
}

/** memory/token_bucket.go. */
module TokenBucket {
  import opened Numeric
  import opened Limiter
  import opened Laws
  import opened BucketParams

  datatype State = State(tokens: real, last: int)

  function Fresh(p: Params, now: int): State { State(p.capacity, now) }

  /** The level after refilling lazily; lower than before when the clock stepped back. */
  function Refill(p: Params, s: State, now: int): real {
    var tokens := s.tokens + p.Yield(now - s.last);
    if tokens > p.capacity then p.capacity else tokens
  }

  function Decide(p: Params, s: State, now: int): (State, Result)
    requires p.Valid()
  {
    var tokens := Refill(p, s, now);
    if tokens >= 1.0 then
      (State(tokens - 1.0, now), Result(true, RemainingFloor(tokens - 1.0), 0))
    else
      (State(tokens, now), Result(false, 0, DurationFromSecondsCeil((1.0 - tokens) / p.rate)))
  }

  function Alg(p: Params): Algorithm<State>
    requires p.Valid()
  {
    Algorithm(now => Fresh(p, now), (s, now) => Decide(p, s, now))
  }

  /** The per-key bucket, updated in place under the shard lock. */
  class Bucket {
    var tokens: real
    var lastRefilled: int

    function Value(): State
      reads this
    {
      State(tokens, lastRefilled)
    }

    constructor (p: Params, now: int)
      ensures Value() == Fresh(p, now)
    {
      tokens := p.capacity;
      lastRefilled := now;
    }

    method RefillAndDecide(p: Params, now: int) returns (r: Result)
      requires p.Valid()
      modifies this
      ensures (Value(), r) == Decide(p, old(Value()), now)
    {
      var elapsed := Seconds(now - lastRefilled);
      assert elapsed * p.rate == p.Yield(now - lastRefilled);
      hide Seconds, Params.Yield, DurationFromSecondsCeil, RemainingFloor;
      tokens := tokens + elapsed * p.rate;
      if tokens > p.capacity {
        tokens := p.capacity;
      }
      lastRefilled := now;
      assert tokens == Refill(p, old(Value()), now);
      if tokens >= 1.0 {
        tokens := tokens - 1.0;
        return Result(true, RemainingFloor(tokens), 0);
      }
      var retryAfter := DurationFromSecondsCeil((1.0 - tokens) / p.rate);
      return Result(false, 0, retryAfter);
    }
  }

  function Capped(p: Params, level: real): real { if level > p.capacity then p.capacity else level }

  // ---- Rate bound, for any clock ----

  /** Falls by one with every admitted request and never rises, whatever the times. */
  ghost function Potential(p: Params, s: State): real { s.tokens - p.Yield(s.last) }

  lemma PotentialStep(p: Params, s: State, now: int)
    requires p.Valid()
    ensures var (s', r) := Decide(p, s, now);
            var spent := if r.allowed then 1.0 else 0.0;
            && Potential(p, s') <= Potential(p, s) - spent
            && Potential(p, s') <= p.capacity - p.Yield(now) - spent
            && (r.allowed ==> Potential(p, s') >= -p.Yield(now))
  {
    hide Params.Yield, DurationFromSecondsCeil, RemainingFloor;
    YieldAdd(p, now - s.last, s.last);
  }

  lemma {:induction false} PotentialRun(p: Params, s: State, times: seq<int>)
    requires p.Valid()
    ensures Potential(p, After(Alg(p), s, times))
            <= Potential(p, s) - CountAllowed(Results(Alg(p), s, times)) as real
    decreases |times|
  {
    hide Decide, Potential;
    if times != [] {
      PotentialStep(p, s, times[0]);
      PotentialRun(p, Decide(p, s, times[0]).0, times[1..]);
    }
  }

  /** From any state, a run that ends with an admission admits at most the capacity
      plus what the rate yields between its first and its last time. */
  lemma {:induction false} SegmentBound(p: Params, s: State, times: seq<int>, first: int, last: int)
    requires p.Valid() && times != [] && first == times[0] && last == times[|times| - 1]
    requires Results(Alg(p), s, times)[|times| - 1].allowed
    ensures CountAllowed(Results(Alg(p), s, times)) as real
            <= p.capacity + p.Yield(last - first)
  {
    hide Decide, Params.Yield, Potential;
    var n, alg := |times|, Alg(p);
    var s1 := Decide(p, s, times[0]).0;
    PotentialStep(p, s, times[0]);
    PotentialRun(p, s1, times[1..]);
    var before := After(alg, s, times[..n - 1]);
    assert times[..n - 1] + [last] == times;
    RunSplit(alg, s, times[..n - 1], [last]);
    assert Results(alg, before, [last]) == [Decide(p, before, last).1];
    assert After(alg, before, [last]) == Decide(p, before, last).0;
    PotentialStep(p, before, last);
    YieldAdd(p, last - first, first);
  }

  /** For requests i <= j of any run on one key, at any times at all: if j is admitted
      then i..j admit at most capacity + rate * (t_j - t_i). */
  lemma RateBound(p: Params, times: seq<int>, i: nat, j: nat)
    requires p.Valid() && i <= j < |times|
    requires KeyResults(Alg(p), times)[j].allowed
    ensures WithinRate(p, Alg(p), times, i, j)
  {
    var s, segment := RunSegment(Alg(p), Fresh(p, times[0]), times, i, j);
    hide *;
    SegmentBound(p, s, segment, times[i], times[j]);
  }

  /** Whether or not the last request is admitted: a clock that steps back by at most `d`
      costs at most what the rate yields in `d`. */
  lemma {:induction false} RateBoundSlack(p: Params, times: seq<int>, d: nat, i: nat, j: nat)
    requires p.Valid() && i <= j < |times| && StepsBackAtMost(times, d)
    ensures CountAllowed(KeyResults(Alg(p), times)[i..j + 1]) as real
            <= p.capacity + p.Yield(times[j] + d - times[i])
  {
    hide Decide, Params.Yield, Alg, KeyResults;
    var l := LastAllowed(KeyResults(Alg(p), times), i, j);
    YieldMono(p, 0, times[j] + d - times[i]);
    if KeyResults(Alg(p), times)[l].allowed {
      RateBound(p, times, i, l);
      YieldMono(p, times[l] - times[i], times[j] + d - times[i]);
    }
  }

  lemma {:induction false} RateBoundMonotone(p: Params, times: seq<int>, i: nat, j: nat)
    requires p.Valid() && i <= j < |times| && Nondecreasing(times)
    ensures WithinRate(p, Alg(p), times, i, j)
  {
    hide Params.Yield, Alg, KeyResults;
    RateBoundSlack(p, times, 0, i, j);
    assert times[j] + 0 - times[i] == times[j] - times[i];
  }

  /** A burst takes its tokens and no time. */
  lemma {:induction false} BurstSpends(p: Params, s: State, k: nat)
    requires p.Valid() && k as real <= s.tokens <= p.capacity
    ensures CountAllowed(Results(Alg(p), s, Burst(s.last, k))) == k
    ensures After(Alg(p), s, Burst(s.last, k)) == State(s.tokens - k as real, s.last)
    decreases k
  {
    if k > 0 {
      hide Params.Yield, DurationFromSecondsCeil, RemainingFloor;
      YieldAdd(p, 0, 0);
      BurstStep(Alg(p), s, s.last, k);
      assert Burst(s.last, k)[1..] == Burst(s.last, k - 1);
      BurstSpends(p, State(s.tokens - 1.0, s.last), k - 1);
    }
  }

  /** The first nanosecond at which `s`, short of a token, has one. */
  lemma FirstWait(p: Params, s: State) returns (w: nat)
    requires p.Valid() && s.tokens < 1.0
    ensures w > 0 && 1.0 <= s.tokens + p.Yield(w) < 1.0 + p.Yield(1)
  {
    hide Params.Yield;
    var missing := 1.0 - s.tokens;
    YieldReaches(p, missing, 0);
    var n := Ceil(missing / p.rate * 1_000_000_000.0);
    assert 0.0 < missing / p.rate * 1_000_000_000.0 <= n as real;
    w := n;
    YieldReaches(p, missing, w);
    YieldReaches(p, missing, w - 1);
    YieldAdd(p, w - 1, 1);
  }

  /** One token arrives, is taken, and the clock steps back: the request is denied and
      the time that passed is less than the admissions need. */
  lemma {:induction false} DeniedAfterStepBack(p: Params, s: State, w: int, d: int)
    requires p.Valid() && d > 0 && 1.0 <= s.tokens + p.Yield(w) < 1.0 + p.Yield(1) && s.last == 0
    ensures var rs := Results(Alg(p), s, [w] + [w - d]);
            CountAllowed(rs) == 1 && s.tokens + p.Yield(w - d) < 1.0
  {
    hide Params.Yield, DurationFromSecondsCeil, RemainingFloor;
    YieldAdd(p, w, -d);
    YieldAdd(p, d, -d);
    YieldMono(p, 1, d);
    var s1 := Decide(p, s, w).0;
    RunSplit(Alg(p), s, [w], [w - d]);
    assert w - d - s1.last == -d;
    assert Results(Alg(p), s, [w]) == [Decide(p, s, w).1] && After(Alg(p), s, [w]) == s1;
    assert Results(Alg(p), s1, [w - d]) == [Decide(p, s1, w - d).1];
    hide Decide;
    CountAllowedSplit([Decide(p, s, w).1], [Decide(p, s1, w - d).1]);
  }

  /** However short a step back, some run with no longer one breaks the bound: spend the
      bucket, wait for one token, take it, step back. */
  lemma StepBackExceeds(p: Params, d: nat) returns (times: seq<int>)
    requires p.Valid() && d > 0
    ensures times != [] && StepsBackAtMost(times, d) && !WithinRate(p, Alg(p), times, 0, |times| - 1)
  {
    hide Params.Yield, Decide, After, Results, CountAllowed;
    YieldAdd(p, 0, 0);
    var k: nat := p.capacity.Floor;
    var spent := State(p.capacity - k as real, 0);
    BurstSpends(p, Fresh(p, 0), k);
    var w := FirstWait(p, spent);
    BurstAt(0, k);
    DeniedAfterStepBack(p, spent, w, d);
    times := Burst(0, k) + ([w] + [w - d]);
    RunSplit(Alg(p), Fresh(p, 0), Burst(0, k), [w] + [w - d]);
    CountAllowedSplit(Results(Alg(p), Fresh(p, 0), Burst(0, k)), Results(Alg(p), spent, [w] + [w - d]));
    var rs := KeyResults(Alg(p), times);
    assert rs[0..|times|] == rs;
  }

  /** The bound holds of all runs whose clock steps back by at most `d`, at every request,
      exactly when `d` is zero. */
  lemma StepBackBound(p: Params, d: nat)
    requires p.Valid()
    ensures (forall times: seq<int>, i: nat, j: nat ::
               i <= j < |times| && StepsBackAtMost(times, d) ==> WithinRate(p, Alg(p), times, i, j))
            <==> d == 0
  {
    if d == 0 {
      forall times: seq<int>, i: nat, j: nat | i <= j < |times| && StepsBackAtMost(times, d)
        ensures WithinRate(p, Alg(p), times, i, j)
      {
        hide WithinRate;
        RateBoundMonotone(p, times, i, j);
      }
    } else {
      hide WithinRate;
      var times := StepBackExceeds(p, d);
      assert !WithinRate(p, Alg(p), times, 0, |times| - 1);
    }
  }

  // ---- The bucket read off the history of its key ----

  /** How far the admissions since one of the requests k..n, before n, are below what the
      capacity and the time since then allow, at the least. */
  ghost function Slack(p: Params, times: seq<int>, rs: seq<Result>, n: nat, k: nat): real
    requires k <= n < |times| == |rs|
    decreases n - k
  {
    if k == n then p.capacity else
    var since := p.capacity + p.Yield(times[n] - times[k]) - CountAllowed(rs[k..n]) as real;
    var later := Slack(p, times, rs, n, k + 1);
    if since < later then since else later
  }

  /** What a bucket with this many tokens answers. */
  function Answer(p: Params, level: real): Result
    requires p.Valid()
  {
    if level >= 1.0 then Result(true, RemainingFloor(level - 1.0), 0)
    else Result(false, 0, DurationFromSecondsCeil((1.0 - level) / p.rate))
  }

  lemma {:induction false} SlackNext(p: Params, times: seq<int>, rs: seq<Result>, n: nat, k: nat)
    requires p.Valid() && k <= n < |times| - 1 && |rs| == |times|
    ensures Slack(p, times, rs, n + 1, k)
            == Capped(p, Slack(p, times, rs, n, k) - (if rs[n].allowed then 1.0 else 0.0)
                         + p.Yield(times[n + 1] - times[n]))
    decreases n - k
  {
    hide Params.Yield;
    assert rs[k..n + 1] == rs[k..n] + [rs[n]];
    CountAllowedSplit(rs[k..n], [rs[n]]);
    YieldAdd(p, times[n + 1] - times[n], times[n] - times[k]);
    if k < n {
      SlackNext(p, times, rs, n, k + 1);
    } else {
      YieldAdd(p, 0, 0);
      assert rs[n..n] == [];
    }
  }

  lemma {:induction false} LevelIsSlack(p: Params, times: seq<int>, n: nat)
    requires p.Valid() && n < |times|
    ensures var s := After(Alg(p), Fresh(p, times[0]), times[..n]);
            && Refill(p, s, times[n]) == Slack(p, times, KeyResults(Alg(p), times), n, 0)
            && KeyResults(Alg(p), times)[n] == Decide(p, s, times[n]).1
    decreases n
  {
    hide Params.Yield, DurationFromSecondsCeil, RemainingFloor;
    var (alg, rs) := (Alg(p), KeyResults(Alg(p), times));
    var s := After(alg, Fresh(p, times[0]), times[..n]);
    ResultAt(alg, Fresh(p, times[0]), times, n);
    if n == 0 {
      assert times[..0] == [];
      YieldAdd(p, 0, 0);
    } else {
      LevelIsSlack(p, times, n - 1);
      var before := After(alg, Fresh(p, times[0]), times[..n - 1]);
      assert times[..n] == times[..n - 1] + [times[n - 1]];
      hide KeyResults, Slack;
      RunSplit(alg, Fresh(p, times[0]), times[..n - 1], [times[n - 1]]);
      AfterOne(alg, before, times[n - 1]);
      hide After;
      SlackNext(p, times, rs, n - 1, 0);
    }
  }

  /** For any clock: every answer is the one the admissions of the key so far imply. */
  lemma {:induction false} RefinesHistory(p: Params, times: seq<int>, n: nat)
    requires p.Valid() && n < |times|
    ensures var rs := KeyResults(Alg(p), times); rs[n] == Answer(p, Slack(p, times, rs, n, 0))
  {
    hide Params.Yield, DurationFromSecondsCeil, RemainingFloor, KeyResults, After, Refill, Slack;
    LevelIsSlack(p, times, n);
  }

  /** Requests k..n would still be within the rate if request n were admitted. */
  ghost predicate RoomSince(p: Params, times: seq<int>, rs: seq<Result>, n: nat, k: nat)
    requires k <= n < |times| == |rs|
  {
    CountAllowed(rs[k..n]) as real + 1.0 <= p.capacity + p.Yield(times[n] - times[k])
  }

  lemma {:induction false} SlackIsRoom(p: Params, times: seq<int>, rs: seq<Result>, n: nat, k: nat)
    requires p.Valid() && k <= n < |times| == |rs|
    ensures Slack(p, times, rs, n, k) >= 1.0 <==> forall j :: k <= j <= n ==> RoomSince(p, times, rs, n, j)
    decreases n - k
  {
    hide Params.Yield;
    if k < n {
      SlackIsRoom(p, times, rs, n, k + 1);
      assert RoomSince(p, times, rs, n, k) <==>
               p.capacity + p.Yield(times[n] - times[k]) - CountAllowed(rs[k..n]) as real >= 1.0;
    } else {
      YieldAdd(p, 0, 0);
      assert rs[n..n] == [];
      assert RoomSince(p, times, rs, n, n);
    }
  }

  /** For any clock: a request is admitted exactly when, counted from each earlier request,
      the rate bound would still hold with it. */
  lemma AdmitsExactly(p: Params, times: seq<int>, n: nat)
    requires p.Valid() && n < |times|
    ensures var rs := KeyResults(Alg(p), times);
            rs[n].allowed <==> forall k :: 0 <= k <= n ==> RoomSince(p, times, rs, n, k)
  {
    hide Params.Yield, DurationFromSecondsCeil, RemainingFloor, KeyResults, Slack, RoomSince;
    RefinesHistory(p, times, n);
    SlackIsRoom(p, times, KeyResults(Alg(p), times), n, 0);
  }

  // ---- Retry times ----

  /** A denied request's RetryAfter is tight. With no request in between, one a
      nanosecond before it is denied; at it, a request is admitted exactly when the
      exact wait was not rounded down; a nanosecond after an unclamped one it is
      admitted. It is zero exactly when the exact wait is below the epsilon. */
  lemma RetryAfterTight(p: Params, s: State, now: int)
    requires p.Valid() && !Decide(p, s, now).1.allowed
    ensures var (s', r) := Decide(p, s, now);
            var wait := (1.0 - s'.tokens) / p.rate * 1_000_000_000.0;
            && wait > 0.0
            && (r.retryAfter == 0 <==> wait < FLOAT_EPSILON_NANOS)
            && (r.retryAfter > 0 ==> !Decide(p, s', now + r.retryAfter - 1).1.allowed)
            && (Decide(p, s', now + r.retryAfter).1.allowed <==> wait <= r.retryAfter as real)
            && (wait < MAX_DURATION as real ==> Decide(p, s', now + r.retryAfter + 1).1.allowed)
  {
    hide Params.Yield, DurationFromSecondsCeil, RemainingFloor;
    var (s', r) := Decide(p, s, now);
    YieldReaches(p, 1.0 - s'.tokens, 0);
    DurationBounds((1.0 - s'.tokens) / p.rate);
    AdmittedAfterWait(p, s', r.retryAfter - 1);
    AdmittedAfterWait(p, s', r.retryAfter);
    AdmittedAfterWait(p, s', r.retryAfter + 1);
  }

  /** Waiting `d` suffices exactly when `d` is at least the exact wait. */
  lemma AdmittedAfterWait(p: Params, s: State, d: int)
    requires p.Valid() && s.tokens < 1.0
    ensures Decide(p, s, s.last + d).1.allowed
            <==> (1.0 - s.tokens) / p.rate * 1_000_000_000.0 <= d as real
  {
    hide Params.Yield, DurationFromSecondsCeil, RemainingFloor;
    YieldReaches(p, 1.0 - s.tokens, d);
    assert s.last + d - s.last == d;
  }

  // ---- Remaining requests ----

  /** No time passes within a burst: it is served from the tokens there are. */
  lemma DecideAtOnce(p: Params, s: State)
    requires p.Valid() && s.tokens <= p.capacity
    ensures var (s', r) := Decide(p, s, s.last);
            && s'.last == s.last && s'.tokens <= p.capacity
            && r.allowed == (RemainingFloor(s.tokens) > 0)
            && RemainingFloor(s'.tokens) == RemainingFloor(s.tokens) - if r.allowed then 1 else 0
  {
    hide Params.Yield, DurationFromSecondsCeil;
    YieldAdd(p, 0, 0);
  }

  lemma {:induction false} BurstAdmits(p: Params, s: State, k: nat)
    requires p.Valid() && s.tokens <= p.capacity
    ensures CountAllowed(Results(Alg(p), s, Burst(s.last, k))) == Min(k, RemainingFloor(s.tokens))
    decreases k
  {
    if k > 0 {
      DecideAtOnce(p, s);
      BurstStep(Alg(p), s, s.last, k);
      hide Decide, CountAllowed, Results;
      BurstAdmits(p, Decide(p, s, s.last).0, k - 1);
    }
  }

  /** Remaining is exact, after an admission and after a denial, from any state. */
  lemma RemainingExact(p: Params, s: State, now: int, k: nat)
    requires p.Valid()
    ensures RemainingIsExact(Alg(p), s, now, k)
  {
    hide Params.Yield, DurationFromSecondsCeil, CountAllowed, Results;
    BurstAdmits(p, Decide(p, s, now).0, k);
  }

  // ---- Laws ----

  /** State of a key last served at `t` by a clock that never stepped back. */
  predicate Fit(p: Params, s: State, t: int) { s.last == t && 0.0 <= s.tokens <= p.capacity }

  function FitFor(p: Params): (State, int) -> bool { (s, t) => Fit(p, s, t) }

  lemma FitStep(p: Params, s: State, t: int, now: int)
    requires p.Valid() && Fit(p, s, t) && t <= now
    ensures Fit(p, Decide(p, s, now).0, now)
  {
    hide Params.Yield, DurationFromSecondsCeil, RemainingFloor;
    YieldMono(p, 0, now - t);
  }

  lemma FitLaw(p: Params)
    requires p.Valid()
    ensures Fits(Alg(p), FitFor(p))
    ensures FreshAllows(Alg(p))
  {
    hide Params.Yield, DurationFromSecondsCeil, RemainingFloor;
    forall s: State, t: int, now: int {:trigger FitFor(p)(s, t), Alg(p).decide(s, now)}
      | FitFor(p)(s, t) && t <= now
      ensures FitFor(p)(Alg(p).decide(s, now).0, now)
    {
      FitStep(p, s, t, now);
    }
    YieldMono(p, 0, 0);
  }

  /** Refilling lazily in one go equals refilling at any time in between. */
  lemma RefillComposes(p: Params, s: State, now: int, later: int)
    requires p.Valid() && now <= later
    ensures Refill(p, State(Refill(p, s, now), now), later) == Refill(p, s, later)
  {
    hide Params.Yield;
    YieldAdd(p, now - s.last, later - now);
    YieldMono(p, 0, later - now);
  }

  lemma DenialsLaw(p: Params)
    requires p.Valid()
    ensures DenialsInvisible(Alg(p), FitFor(p))
  {
    hide Refill, DurationFromSecondsCeil, RemainingFloor;
    forall s: State, t: int, now: int, later: int
      | FitFor(p)(s, t) && t <= now <= later && !Alg(p).decide(s, now).1.allowed
      ensures Alg(p).decide(Alg(p).decide(s, now).0, later) == Alg(p).decide(s, later)
    {
      RefillComposes(p, s, now, later);
    }
  }

  /** An idle time makes a bucket as good as new exactly when it can fill it. */
  lemma ForgetsLaw(p: Params, ttl: int)
    requires p.Valid() && ttl >= 0
    ensures Forgets(Alg(p), FitFor(p), ttl) <==> p.Yield(ttl) >= p.capacity
  {
    hide Params.Yield, DurationFromSecondsCeil, RemainingFloor;
    YieldMono(p, 0, ttl);
    if p.Yield(ttl) >= p.capacity {
      forall s: State, t: int, now: int {:trigger FitFor(p)(s, t), Alg(p).decide(s, now)}
        | FitFor(p)(s, t) && t + ttl <= now
        ensures Alg(p).decide(s, now) == Alg(p).decide(Alg(p).create(now), now)
      {
        YieldMono(p, ttl, now - t);
      }
    } else {
      var empty := State(0.0, 0);
      assert FitFor(p)(empty, 0);
      assert Refill(p, empty, ttl) < p.capacity == Refill(p, Fresh(p, ttl), ttl);
      assert Alg(p).decide(empty, ttl) != Alg(p).decide(Alg(p).create(ttl), ttl);
      assert !Forgets(Alg(p), FitFor(p), ttl);
    }
  }

  // ---- The levels a bucket can really have ----

  /** What requests that take all they can leave of a level. */
  function Spent(level: real): real { level - level.Floor as real }

  /** The levels of a bucket under a flood: at every nanosecond requests take all they can. */
  ghost function Flood(p: Params, m: nat): real {
    if m == 0 then Spent(p.capacity) else Spent(Capped(p, Flood(p, m - 1) + p.Yield(1)))
  }

  /** Every level is some whole tokens above one of a flood. */
  ghost predicate Flooded(p: Params, s: State, t: int) {
    Fit(p, s, t) && exists m: nat :: Spent(s.tokens) == Flood(p, m)
  }

  ghost function FloodedFor(p: Params): (State, int) -> bool { (s, t) => Flooded(p, s, t) }

  /** Waiting goes along the flood, or fills the bucket and starts it again. */
  lemma {:induction false} WaitFlood(p: Params, level: real, m: nat, n: nat) returns (m': nat)
    requires p.Valid() && 0.0 <= level <= p.capacity && Spent(level) == Flood(p, m)
    ensures Spent(Capped(p, level + p.Yield(n))) == Flood(p, m')
    decreases n
  {
    hide Params.Yield;
    YieldMono(p, 0, n);
    if n == 0 {
      m' := m;
    } else {
      YieldMono(p, 0, 1);
      YieldMono(p, 0, n - 1);
      YieldAdd(p, 1, n - 1);
      var next := Capped(p, level + p.Yield(1));
      if level + p.Yield(1) > p.capacity {
        m' := WaitFlood(p, next, 0, n - 1);
      } else {
        SpentShift(Flood(p, m) + p.Yield(1), level.Floor);
        m' := WaitFlood(p, next, m + 1, n - 1);
      }
    }
  }

  lemma FloorIs(x: real, n: int)
    requires n as real <= x < n as real + 1.0
    ensures x.Floor == n
  {}

  lemma SpentShift(x: real, k: int)
    ensures Spent(x + k as real) == Spent(x)
  {
    var n := x.Floor;
    assert (n + k) as real == n as real + k as real;
    FloorIs(x + k as real, n + k);
  }

  lemma FloodedStep(p: Params, s: State, t: int, now: int)
    requires p.Valid() && Flooded(p, s, t) && t <= now
    ensures Flooded(p, Decide(p, s, now).0, now)
  {
    hide Params.Yield, DurationFromSecondsCeil, RemainingFloor, Flood;
    FitStep(p, s, t, now);
    var m: nat :| Spent(s.tokens) == Flood(p, m);
    var m' := WaitFlood(p, s.tokens, m, now - t);
    var level := Refill(p, s, now);
    assert level == Capped(p, s.tokens + p.Yield(now - t));
    SpentShift(level, -1);
    assert Spent(Decide(p, s, now).0.tokens) == Flood(p, m');
  }

  lemma FloodedLaw(p: Params)
    requires p.Valid()
    ensures Fits(Alg(p), FloodedFor(p))
  {
    hide Decide, Params.Yield;
    forall now: int ensures FloodedFor(p)(Alg(p).create(now), now) {
      assert Spent(Fresh(p, now).tokens) == Flood(p, 0);
    }
    forall s: State, t: int, now: int {:trigger FloodedFor(p)(s, t), Alg(p).decide(s, now)}
      | FloodedFor(p)(s, t) && t <= now
      ensures FloodedFor(p)(Alg(p).decide(s, now).0, now)
    {
      FloodedStep(p, s, t, now);
    }
  }

  /** A burst longer than a bucket has tokens leaves less than one. */
  lemma BurstDrains(p: Params, s: State, now: int, k: nat)
    requires p.Valid() && k == Refill(p, s, now).Floor
    ensures After(Alg(p), s, Burst(now, k + 1)) == State(Spent(Refill(p, s, now)), now)
  {
    hide Params.Yield, DurationFromSecondsCeil, RemainingFloor;
    YieldAdd(p, 0, 0);
    var full := State(Refill(p, s, now), now);
    assert Decide(p, s, now) == Decide(p, full, now);
    assert Burst(now, k + 1)[0] == now;
    assert After(Alg(p), s, Burst(now, k + 1)) == After(Alg(p), full, Burst(now, k + 1));
    BurstSpends(p, full, k);
    BurstAt(now, k);
    hide After;
    RunSplit(Alg(p), full, Burst(now, k), [now]);
    AfterOne(Alg(p), State(full.tokens - k as real, now), now);
  }

  /** A later burst is served from the level it finds. */
  lemma {:induction false} BurstLater(p: Params, s: State, now: int, k: nat)
    requires p.Valid() && k > 0
    ensures CountAllowed(Results(Alg(p), s, Burst(now, k))) == Min(k, RemainingFloor(Refill(p, s, now)))
  {
    hide Params.Yield, DurationFromSecondsCeil;
    YieldAdd(p, 0, 0);
    var full := State(Refill(p, s, now), now);
    assert Decide(p, s, now) == Decide(p, full, now);
    BurstStep(Alg(p), s, now, k);
    BurstStep(Alg(p), full, now, k);
    hide Results, CountAllowed;
    BurstAdmits(p, full, k);
  }

  lemma {:induction false} FloodReached(p: Params, m: nat)
    requires p.Valid()
    ensures 0.0 <= Flood(p, m) && Reached(Alg(p), State(Flood(p, m), m), m)
    decreases m
  {
    hide Params.Yield, After, Decide, DurationFromSecondsCeil, RemainingFloor, Reached;
    if m == 0 {
      YieldAdd(p, 0, 0);
      var k: nat := p.capacity.Floor;
      BurstDrains(p, Fresh(p, 0), 0, k);
      CreatedReached(Alg(p), 0, k);
    } else {
      FloodReached(p, m - 1);
      YieldMono(p, 0, 1);
      var s := State(Flood(p, m - 1), m - 1);
      var k: nat := Refill(p, s, m).Floor;
      BurstDrains(p, s, m, k);
      ReachedFurther(Alg(p), s, m - 1, m, k);
    }
  }

  lemma Remembers(p: Params, s: State, ttl: nat)
    requires p.Valid() && s.tokens + p.Yield(ttl) < p.capacity
    ensures Decide(p, s, s.last + ttl) != Decide(p, Fresh(p, s.last + ttl), s.last + ttl)
  {
    hide Params.Yield, DurationFromSecondsCeil, RemainingFloor;
    YieldAdd(p, 0, 0);
    var now := s.last + ttl;
    assert now - s.last == ttl;
    assert Refill(p, s, now) < p.capacity == Refill(p, Fresh(p, now), now);
  }

  lemma {:induction false} FloodForgets(p: Params, ttl: nat)
    requires p.Valid() && forall m: nat :: Flood(p, m) + p.Yield(ttl) >= p.capacity
    ensures ForgetsReached(Alg(p), ttl)
  {
    FloodedLaw(p);
    hide Fits, Params.Yield, Reached, Decide, Flood, Flooded;
    forall s: State, t: int, now: int {:trigger Reached(Alg(p), s, t), Alg(p).decide(s, now)}
      | Reached(Alg(p), s, t) && t + ttl <= now
      ensures Alg(p).decide(s, now) == Alg(p).decide(Alg(p).create(now), now)
    {
      ReachedFits(Alg(p), FloodedFor(p), s, t);
      FloodedFills(p, s, t, ttl, now);
    }
  }

  lemma {:induction false} FloodedFills(p: Params, s: State, t: int, ttl: nat, now: int)
    requires p.Valid() && Flooded(p, s, t) && t + ttl <= now
    requires forall m: nat :: Flood(p, m) + p.Yield(ttl) >= p.capacity
    ensures Decide(p, s, now) == Decide(p, Fresh(p, now), now)
  {
    hide Params.Yield, Flood, DurationFromSecondsCeil, RemainingFloor;
    YieldAdd(p, 0, 0);
    var m: nat :| Spent(s.tokens) == Flood(p, m);
    assert s.tokens >= Flood(p, m);
    YieldMono(p, ttl, now - t);
    assert Refill(p, s, now) == p.capacity == Refill(p, Fresh(p, now), now);
  }

  /** Of the levels a bucket can really have: an idle time makes a bucket as good as new
      exactly when it fills every level a flood leaves; where the capacity is a whole
      number, exactly when it yields the capacity. */
  lemma {:induction false} ReachedForgetsLaw(p: Params, ttl: nat)
    requires p.Valid()
    ensures ForgetsReached(Alg(p), ttl) <==> forall m: nat :: Flood(p, m) + p.Yield(ttl) >= p.capacity
    ensures p.Yield(ttl) >= p.capacity ==> ForgetsReached(Alg(p), ttl)
    ensures p.capacity == p.capacity.Floor as real ==>
              (ForgetsReached(Alg(p), ttl) <==> p.Yield(ttl) >= p.capacity)
  {
    hide Params.Yield, Reached, Decide, ForgetsReached;
    forall m: nat ensures Flood(p, m) >= 0.0 {
      FloodReached(p, m);
    }
    assert Flood(p, 0) == Spent(p.capacity);
    if forall m: nat :: Flood(p, m) + p.Yield(ttl) >= p.capacity {
      FloodForgets(p, ttl);
    } else {
      var m: nat :| Flood(p, m) + p.Yield(ttl) < p.capacity;
      FloodReached(p, m);
      Remembers(p, State(Flood(p, m), m), ttl);
      NotForgotten(p, State(Flood(p, m), m), m, ttl);
    }
  }

  lemma NotForgotten(p: Params, s: State, t: int, ttl: nat)
    requires p.Valid() && Reached(Alg(p), s, t) && Decide(p, s, t + ttl) != Decide(p, Fresh(p, t + ttl), t + ttl)
    ensures !ForgetsReached(Alg(p), ttl)
  {
    hide Reached, Decide;
    assert Alg(p).decide(s, t + ttl) != Alg(p).decide(Alg(p).create(t + ttl), t + ttl);
  }

  /** Other capacities may forget sooner: a bucket of one and a half tokens that is never
      emptied beyond its half is full again before the rate yields its capacity. */
  lemma FractionForgetsSooner(p: Params)
    requires p == Params(1.5, 1_450_000_000.0)
    ensures p.Valid() && p.Yield(1) < p.capacity && ForgetsReached(Alg(p), 1)
  {
    hide DurationFromSecondsCeil, RemainingFloor;
    var half := (s: State, t: int) => s.last == t && (s.tokens == 0.5 || s.tokens == 1.5);
    forall s: State, t: int, now: int {:trigger half(s, t), Alg(p).decide(s, now)} | half(s, t) && t <= now
      ensures half(Alg(p).decide(s, now).0, now)
      ensures t + 1 <= now ==> Alg(p).decide(s, now) == Alg(p).decide(Alg(p).create(now), now)
    {
      HalfFull(p, s, now);
    }
    ReachedForgets(Alg(p), half, 1);
  }

  lemma HalfFull(p: Params, s: State, now: int)
    requires p == Params(1.5, 1_450_000_000.0) && (s.tokens == 0.5 || s.tokens == 1.5) && s.last <= now
    ensures Refill(p, s, now) == if s.last == now then s.tokens else 1.5
    ensures Refill(p, Fresh(p, now), now) == 1.5
  {
    assert p.Yield(0) == 0.0 && p.Yield(1) == 1.45;
    YieldMono(p, 1, now - s.last);
  }
}

/** memory/leaky_bucket.go, and its equivalence with the token bucket. */
module LeakyBucket {
  import opened Numeric
  import opened Limiter
  import opened BucketParams
  import opened Laws
  import TokenBucket

  datatype State = State(water: real, last: int)

  function Fresh(p: Params, now: int): State { State(0.0, now) }

  function Leak(p: Params, s: State, now: int): real {
    var water := s.water - p.Yield(now - s.last);
    if water < 0.0 then 0.0 else water
  }

  function Decide(p: Params, s: State, now: int): (State, Result)
    requires p.Valid()
  {
    var water := Leak(p, s, now);
    if water + 1.0 <= p.capacity then
      (State(water + 1.0, now), Result(true, RemainingFloor(p.capacity - (water + 1.0)), 0))
    else
      (State(water, now),
       Result(false, 0, DurationFromSecondsCeil((water + 1.0 - p.capacity) / p.rate)))
  }

  function Alg(p: Params): Algorithm<State>
    requires p.Valid()
  {
    Algorithm(now => Fresh(p, now), (s, now) => Decide(p, s, now))
  }

  class Bucket {
    var water: real
    var lastLeak: int

    function Value(): State
      reads this
    {
      State(water, lastLeak)
    }

    constructor (p: Params, now: int)
      ensures Value() == Fresh(p, now)
    {
      water := 0.0;
      lastLeak := now;
    }

    method LeakAndDecide(p: Params, now: int) returns (r: Result)
      requires p.Valid()
      modifies this
      ensures (Value(), r) == Decide(p, old(Value()), now)
    {
      var elapsed := Seconds(now - lastLeak);
      var leakedWater := elapsed * p.rate;
      assert leakedWater == p.Yield(now - lastLeak);
      hide Seconds, Params.Yield, DurationFromSecondsCeil, RemainingFloor;
      water := water - leakedWater;
      if water < 0.0 {
        water := 0.0;
      }
      lastLeak := now;
      assert water == Leak(p, old(Value()), now);
      if water + 1.0 <= p.capacity {
        water := water + 1.0;
        return Result(true, RemainingFloor(p.capacity - water), 0);
      }
      var overflow := water + 1.0 - p.capacity;
      var retryAfter := DurationFromSecondsCeil(overflow / p.rate);
      return Result(false, 0, retryAfter);
    }
  }

  /** The token bucket a leaky bucket simulates: its tokens are the room left. */
  function Mirror(p: Params, s: State): TokenBucket.State {
    TokenBucket.State(p.capacity - s.water, s.last)
  }

  /** The two buckets move in lock step at any time, forwards or backwards, and answer alike. */
  lemma Bisimulation(p: Params, s: State, now: int)
    requires p.Valid()
    ensures Mirror(p, Fresh(p, now)) == TokenBucket.Fresh(p, now)
    ensures var (s', r) := Decide(p, s, now);
            TokenBucket.Decide(p, Mirror(p, s), now) == (Mirror(p, s'), r)
  {
    hide Params.Yield, DurationFromSecondsCeil, RemainingFloor;
    var (s', r) := Decide(p, s, now);
    assert TokenBucket.Refill(p, Mirror(p, s), now) == p.capacity - Leak(p, s, now);
    assert 1.0 - (p.capacity - Leak(p, s, now)) == Leak(p, s, now) + 1.0 - p.capacity;
  }

  /** Every run of a leaky bucket returns what the token bucket with the same
      parameters returns, result for result, for any times. */
  lemma {:induction false} SameRuns(p: Params, s: State, times: seq<int>)
    requires p.Valid()
    ensures Results(Alg(p), s, times) == Results(TokenBucket.Alg(p), Mirror(p, s), times)
    ensures Mirror(p, After(Alg(p), s, times)) == After(TokenBucket.Alg(p), Mirror(p, s), times)
    decreases |times|
  {
    if times != [] {
      hide Decide, TokenBucket.Decide;
      Bisimulation(p, s, times[0]);
      SameRuns(p, Decide(p, s, times[0]).0, times[1..]);
    }
  }

  lemma SameKeyResults(p: Params, times: seq<int>)
    requires p.Valid()
    ensures KeyResults(Alg(p), times) == KeyResults(TokenBucket.Alg(p), times)
  {
    hide Decide, TokenBucket.Decide;
    if times != [] {
      Bisimulation(p, Fresh(p, times[0]), times[0]);
      SameRuns(p, Fresh(p, times[0]), times);
    }
  }

  /** So every answer of a leaky bucket is read off the history of its key as well. */
  lemma {:induction false} RefinesHistory(p: Params, times: seq<int>, n: nat)
    requires p.Valid() && n < |times|
    ensures var rs := KeyResults(Alg(p), times);
            rs[n] == TokenBucket.Answer(p, TokenBucket.Slack(p, times, rs, n, 0))
  {
    hide KeyResults, TokenBucket.Slack, TokenBucket.Answer;
    SameKeyResults(p, times);
    TokenBucket.RefinesHistory(p, times, n);
  }

  /** The rate bound of the token bucket therefore holds of the leaky bucket too. */
  lemma RateBound(p: Params, times: seq<int>, i: nat, j: nat)
    requires p.Valid() && i <= j < |times|
    requires KeyResults(Alg(p), times)[j].allowed
    ensures WithinRate(p, Alg(p), times, i, j)
  {
    hide KeyResults, CountAllowed, Params.Yield;
    SameKeyResults(p, times);
    TokenBucket.RateBound(p, times, i, j);
  }

  lemma StepBackBound(p: Params, d: nat)
    requires p.Valid()
    ensures (forall times: seq<int>, i: nat, j: nat ::
               i <= j < |times| && StepsBackAtMost(times, d) ==> WithinRate(p, Alg(p), times, i, j))
            <==> d == 0
  {
    hide KeyResults;
    TokenBucket.StepBackBound(p, d);
    forall times: seq<int>, i: nat, j: nat | i <= j < |times|
      ensures WithinRate(p, Alg(p), times, i, j) <==> WithinRate(p, TokenBucket.Alg(p), times, i, j)
    {
      SameKeyResults(p, times);
    }
  }

  /** As `TokenBucket.RetryAfterTight`, for the water that has still to leak. */
  lemma RetryAfterTight(p: Params, s: State, now: int)
    requires p.Valid() && !Decide(p, s, now).1.allowed
    ensures var (s', r) := Decide(p, s, now);
            var wait := (s'.water + 1.0 - p.capacity) / p.rate * 1_000_000_000.0;
            && wait > 0.0
            && (r.retryAfter == 0 <==> wait < FLOAT_EPSILON_NANOS)
            && (r.retryAfter > 0 ==> !Decide(p, s', now + r.retryAfter - 1).1.allowed)
            && (Decide(p, s', now + r.retryAfter).1.allowed <==> wait <= r.retryAfter as real)
            && (wait < MAX_DURATION as real ==> Decide(p, s', now + r.retryAfter + 1).1.allowed)
  {
    hide Decide, TokenBucket.Decide;
    var (s', r) := Decide(p, s, now);
    Bisimulation(p, s, now);
    TokenBucket.RetryAfterTight(p, Mirror(p, s), now);
    Bisimulation(p, s', now + r.retryAfter - 1);
    Bisimulation(p, s', now + r.retryAfter);
    Bisimulation(p, s', now + r.retryAfter + 1);
    assert s'.water + 1.0 - p.capacity == 1.0 - Mirror(p, s').tokens;
  }

  lemma RemainingExact(p: Params, s: State, now: int, k: nat)
    requires p.Valid()
    ensures RemainingIsExact(Alg(p), s, now, k)
  {
    hide Decide, TokenBucket.Decide, CountAllowed, Results;
    Bisimulation(p, s, now);
    SameRuns(p, Decide(p, s, now).0, Burst(now, k));
    TokenBucket.RemainingExact(p, Mirror(p, s), now, k);
  }

  // ---- Laws, carried over from the token bucket ----

  function FitFor(p: Params): (State, int) -> bool { (s, t) => TokenBucket.Fit(p, Mirror(p, s), t) }

  lemma MirrorInjective(p: Params, s: State, u: State)
    requires Mirror(p, s) == Mirror(p, u)
    ensures s == u
  {}

  lemma LawsHold(p: Params)
    requires p.Valid()
    ensures Fits(Alg(p), FitFor(p))
    ensures FreshAllows(Alg(p))
    ensures DenialsInvisible(Alg(p), FitFor(p))
  {
    hide Decide, TokenBucket.Decide;
    TokenBucket.FitLaw(p);
    TokenBucket.DenialsLaw(p);
    var alg, tb := Alg(p), TokenBucket.Alg(p);
    forall s: State, t: int, now: int {:trigger FitFor(p)(s, t), alg.decide(s, now)}
      | FitFor(p)(s, t) && t <= now
      ensures FitFor(p)(alg.decide(s, now).0, now)
    {
      Bisimulation(p, s, now);
      TokenBucket.FitStep(p, Mirror(p, s), t, now);
    }
    forall now: int ensures FitFor(p)(alg.create(now), now) {
      assert TokenBucket.Fit(p, Mirror(p, Fresh(p, now)), now);
    }
    forall now: int ensures alg.decide(alg.create(now), now).1.allowed {
      Bisimulation(p, Fresh(p, now), now);
      assert tb.decide(tb.create(now), now).1.allowed;
    }
    forall s: State, t: int, now: int, later: int
      | FitFor(p)(s, t) && t <= now <= later && !alg.decide(s, now).1.allowed
      ensures alg.decide(alg.decide(s, now).0, later) == alg.decide(s, later)
    {
      var s' := Decide(p, s, now).0;
      Bisimulation(p, s, now);
      Bisimulation(p, s, later);
      Bisimulation(p, s', later);
      assert TokenBucket.FitFor(p)(Mirror(p, s), t);
      assert tb.decide(tb.decide(Mirror(p, s), now).0, later) == tb.decide(Mirror(p, s), later);
      MirrorInjective(p, Decide(p, s', later).0, Decide(p, s, later).0);
    }
  }

  lemma ForgetsLaw(p: Params, ttl: int)
    requires p.Valid() && ttl >= 0
    ensures Forgets(Alg(p), FitFor(p), ttl) <==> p.Yield(ttl) >= p.capacity
  {
    hide Decide, TokenBucket.Decide, TokenBucket.Refill, Params.Yield;
    TokenBucket.ForgetsLaw(p, ttl);
    var alg, tb := Alg(p), TokenBucket.Alg(p);
    if Forgets(tb, TokenBucket.FitFor(p), ttl) {
      forall s: State, t: int, now: int {:trigger FitFor(p)(s, t), alg.decide(s, now)}
        | FitFor(p)(s, t) && t + ttl <= now
        ensures alg.decide(s, now) == alg.decide(alg.create(now), now)
      {
        assert TokenBucket.FitFor(p)(Mirror(p, s), t);
        assert tb.decide(Mirror(p, s), now) == tb.decide(tb.create(now), now);
        Bisimulation(p, s, now);
        Bisimulation(p, Fresh(p, now), now);
        MirrorInjective(p, Decide(p, s, now).0, Decide(p, Fresh(p, now), now).0);
      }
    }
    if Forgets(alg, FitFor(p), ttl) {
      forall s: TokenBucket.State, t: int, now: int
        {:trigger TokenBucket.FitFor(p)(s, t), tb.decide(s, now)}
        | TokenBucket.FitFor(p)(s, t) && t + ttl <= now
        ensures tb.decide(s, now) == tb.decide(tb.create(now), now)
      {
        var u := State(p.capacity - s.tokens, s.last);
        assert Mirror(p, u) == s && FitFor(p)(u, t);
        assert alg.decide(u, now) == alg.decide(alg.create(now), now);
        Bisimulation(p, u, now);
        Bisimulation(p, Fresh(p, now), now);
      }
    }
  }

  /** The two buckets reach mirrored states. */
  lemma ReachedMirrors(p: Params, s: State, t: int)
    requires p.Valid()
    ensures Reached(Alg(p), s, t) <==> Reached(TokenBucket.Alg(p), Mirror(p, s), t)
  {
    hide Decide, TokenBucket.Decide, After;
    forall times: seq<int> | times != []
      ensures Mirror(p, After(Alg(p), Alg(p).create(times[0]), times))
           == After(TokenBucket.Alg(p), TokenBucket.Alg(p).create(times[0]), times)
    {
      Bisimulation(p, Fresh(p, times[0]), times[0]);
      SameRuns(p, Fresh(p, times[0]), times);
    }
    forall u: State | Mirror(p, u) == Mirror(p, s) ensures u == s {
      MirrorInjective(p, u, s);
    }
  }

  lemma MirrorsForget(p: Params, s: State, t: int, now: int)
    requires p.Valid()
    ensures Reached(Alg(p), s, t) <==> Reached(TokenBucket.Alg(p), Mirror(p, s), t)
    ensures Decide(p, s, now) == Decide(p, Fresh(p, now), now)
            <==> TokenBucket.Decide(p, Mirror(p, s), now) == TokenBucket.Decide(p, TokenBucket.Fresh(p, now), now)
  {
    hide Decide, TokenBucket.Decide, Reached;
    ReachedMirrors(p, s, t);
    Bisimulation(p, s, now);
    Bisimulation(p, Fresh(p, now), now);
    if TokenBucket.Decide(p, Mirror(p, s), now) == TokenBucket.Decide(p, TokenBucket.Fresh(p, now), now) {
      MirrorInjective(p, Decide(p, s, now).0, Decide(p, Fresh(p, now), now).0);
    }
  }

  /** As `TokenBucket.ReachedForgetsLaw`: at any capacity the two buckets forget alike. */
  lemma {:induction false} ReachedForgetsLaw(p: Params, ttl: nat)
    requires p.Valid()
    ensures ForgetsReached(Alg(p), ttl) <==> ForgetsReached(TokenBucket.Alg(p), ttl)
    ensures ForgetsReached(Alg(p), ttl) <==> forall m: nat :: TokenBucket.Flood(p, m) + p.Yield(ttl) >= p.capacity
    ensures p.Yield(ttl) >= p.capacity ==> ForgetsReached(Alg(p), ttl)
    ensures p.capacity == p.capacity.Floor as real ==>
              (ForgetsReached(Alg(p), ttl) <==> p.Yield(ttl) >= p.capacity)
  {
    hide Decide, TokenBucket.Decide, Params.Yield, Reached;
    TokenBucket.ReachedForgetsLaw(p, ttl);
    var alg, tb := Alg(p), TokenBucket.Alg(p);
    if ForgetsReached(tb, ttl) {
      forall s: State, t: int, now: int {:trigger Reached(alg, s, t), alg.decide(s, now)}
        | Reached(alg, s, t) && t + ttl <= now
        ensures alg.decide(s, now) == alg.decide(alg.create(now), now)
      {
        MirrorsForget(p, s, t, now);
        assert tb.decide(Mirror(p, s), now) == tb.decide(tb.create(now), now);
      }
    }
    if ForgetsReached(alg, ttl) {
      forall u: TokenBucket.State, t: int, now: int {:trigger Reached(tb, u, t), tb.decide(u, now)}
        | Reached(tb, u, t) && t + ttl <= now
        ensures tb.decide(u, now) == tb.decide(tb.create(now), now)
      {
        var s := State(p.capacity - u.tokens, u.last);
        assert Mirror(p, s) == u;
        MirrorsForget(p, s, t, now);
        assert alg.decide(s, now) == alg.decide(alg.create(now), now);
      }
    }
  }
}
