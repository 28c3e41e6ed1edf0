/** What the Lua scripts share. Redis runs each script as one atomic step; its clock is
    in milliseconds. Expiry of keys and failures of the server are not modelled. */
module RedisCommon {
  import opened Numeric
  import opened Limiter
  import opened BucketParams

  const MILLI: int := 1_000_000  // nanoseconds

  datatype Reply = Reply(allowed: bool, remaining: int, retryAfterMs: int)

  /** What a bucket script stores under a key: its level, tokens or water, and when it was set. */
  datatype Hash = Hash(level: real, lastMs: int)

  /** A clock that stepped back is held at the stored time. */
  function Guarded(stored: Option<Hash>, clock: int): int {
    if stored.Some? && clock < stored.value.lastMs then stored.value.lastMs else clock
  }

  /** The latest of `m` and the clocks so far, call by call. */
  function MaximaFrom(m: int, clocks: seq<int>): (ms: seq<int>)
    ensures |ms| == |clocks|
    decreases |clocks|
  {
    if clocks == [] then [] else
    var m' := if clocks[0] < m then m else clocks[0];
    [m'] + MaximaFrom(m', clocks[1..])
  }

  /** The latest clock so far, call by call. */
  function Maxima(clocks: seq<int>): (ms: seq<int>)
    ensures |ms| == |clocks|
  {
    if clocks == [] then [] else MaximaFrom(clocks[0], clocks)
  }

  lemma {:induction false} MaximaFromBounds(m: int, clocks: seq<int>)
    ensures forall i :: 0 <= i < |clocks| ==> m <= MaximaFrom(m, clocks)[i] && clocks[i] <= MaximaFrom(m, clocks)[i]
    ensures Nondecreasing(MaximaFrom(m, clocks))
    decreases |clocks|
  {
    if clocks != [] {
      MaximaFromBounds(if clocks[0] < m then m else clocks[0], clocks[1..]);
    }
  }

  lemma {:induction false} MaximaInOrder(m: int, clocks: seq<int>)
    requires Nondecreasing(clocks) && (clocks != [] ==> m <= clocks[0])
    ensures MaximaFrom(m, clocks) == clocks
    decreases |clocks|
  {
    if clocks != [] {
      NondecreasingTail(clocks);
      hide Nondecreasing;
      MaximaInOrder(clocks[0], clocks[1..]);
    }
  }

  /** Maxima never step back, are never early, and leave ordered clocks alone. */
  lemma MaximaBounds(clocks: seq<int>)
    ensures Nondecreasing(Maxima(clocks)) && (Nondecreasing(clocks) ==> Maxima(clocks) == clocks)
    ensures forall i :: 0 <= i < |clocks| ==> clocks[i] <= Maxima(clocks)[i]
    ensures clocks != [] ==> Maxima(clocks)[0] == clocks[0]
  {
    if clocks != [] {
      MaximaFromBounds(clocks[0], clocks);
      if Nondecreasing(clocks) { MaximaInOrder(clocks[0], clocks); }
    }
  }

  /** What the rate yields in a number of milliseconds, as the scripts compute it. */
  function YieldMs(p: Params, ms: int): real { ms as real * p.rate / 1000.0 }

  /** As `YieldMs` but from the nanoseconds of the in-memory limiters. */
  lemma YieldMsIsYield(p: Params, ms: int)
    ensures YieldMs(p, ms) == p.Yield(ms * MILLI)
  {
    assert Seconds(ms * MILLI) == ms as real / 1000.0;
  }

  function Scaled(ms: seq<int>): (ns: seq<int>)
    ensures |ns| == |ms| && forall i :: 0 <= i < |ms| ==> ns[i] == ms[i] * MILLI
  {
    seq(|ms|, i requires 0 <= i < |ms| => ms[i] * MILLI)
  }

  /** The script answers as the in-memory limiter does; its wait is not shorter, and, but
      for a wait the in-memory limiter had to clamp, at most a millisecond longer. */
  ghost predicate SameAnswer(r: Reply, m: Result) {
    && r.allowed == m.allowed && r.remaining == m.remaining
    && (r.allowed ==> r.retryAfterMs == 0 == m.retryAfter)
    && m.retryAfter <= r.retryAfterMs * MILLI
    && (m.retryAfter < MAX_DURATION ==> r.retryAfterMs * MILLI <= m.retryAfter + MILLI)
  }

  /** The script rounds a wait up to a millisecond, the in-memory limiter to a nanosecond. */
  lemma MillisCoverNanos(seconds: real)
    requires seconds > 0.0
    ensures var (ms, d) := (Ceil(seconds * 1000.0), DurationFromSecondsCeil(seconds));
            d <= ms * MILLI && (d < MAX_DURATION ==> ms * MILLI <= d + MILLI)
  {
    DurationBounds(seconds);
    hide DurationFromSecondsCeil;
    var ms := Ceil(seconds * 1000.0);
    var x := seconds * 1000.0;
    assert ms as real - 1.0 < x <= ms as real;
    assert seconds * 1_000_000_000.0 == x * 1_000_000.0;
    assert (ms * MILLI) as real == ms as real * 1_000_000.0;
  }
}

/** redis/scripts/token_bucket.lua. */
module RedisToken {
  import opened Numeric
  import opened Limiter
  import opened BucketParams
  import opened RedisCommon
  import TokenBucket

  function Refill(p: Params, h: Hash, now: int): real {
    var tokens := h.level + YieldMs(p, now - h.lastMs);
    if now <= h.lastMs then h.level else if tokens > p.capacity then p.capacity else tokens
  }

  function Script(p: Params, stored: Option<Hash>, clock: int): (Hash, Reply)
    requires p.Valid()
  {
    var h := if stored.Some? then stored.value else Hash(p.capacity, clock);
    var now := Guarded(stored, clock);
    var tokens := Refill(p, h, now);
    if tokens >= 1.0 then (Hash(tokens - 1.0, now), Reply(true, (tokens - 1.0).Floor, 0))
    else (Hash(tokens, now), Reply(false, 0, Ceil((1.0 - tokens) * 1000.0 / p.rate)))
  }

  /** The hash stored under one key. */
  class Key {
    var stored: Option<Hash>

    constructor ()
      ensures stored == None
    {
      stored := None;
    }

    method Eval(p: Params, clock: int) returns (r: Reply)
      requires p.Valid()
      modifies this
      ensures (stored, r) == (Some(Script(p, old(stored), clock).0), Script(p, old(stored), clock).1)
    {
      hide Ceil;
      var now, tokens, last := clock, p.capacity, clock;
      if stored.Some? {
        tokens, last := stored.value.level, stored.value.lastMs;
        if now < last {
          now := last;
        }
      }
      var elapsed := now - last;
      if elapsed > 0 {
        assert elapsed as real * p.rate / 1000.0 == YieldMs(p, elapsed);
        tokens := tokens + elapsed as real * p.rate / 1000.0;
        if tokens > p.capacity {
          tokens := p.capacity;
        }
      }
      hide YieldMs;
      var allowed, remaining, retryAfterMs := false, 0, 0;
      if tokens >= 1.0 {
        tokens := tokens - 1.0;
        allowed, remaining := true, tokens.Floor;
      } else {
        retryAfterMs := Ceil((1.0 - tokens) * 1000.0 / p.rate);
      }
      stored := Some(Hash(tokens, now));
      r := Reply(allowed, remaining, retryAfterMs);
    }
  }

  function Replies(p: Params, stored: Option<Hash>, clocks: seq<int>): (rs: seq<Reply>)
    requires p.Valid()
    ensures |rs| == |clocks|
    decreases |clocks|
  {
    if clocks == [] then [] else
    var (h, r) := Script(p, stored, clocks[0]);
    [r] + Replies(p, Some(h), clocks[1..])
  }

  predicate Fits(p: Params, h: Hash) { 0.0 <= h.level <= p.capacity }

  function InMemory(h: Hash): TokenBucket.State { TokenBucket.State(h.level, h.lastMs * MILLI) }

  lemma RefillAgrees(p: Params, h: Hash, now: int)
    requires p.Valid() && Fits(p, h) && h.lastMs <= now
    ensures Refill(p, h, now) == TokenBucket.Refill(p, InMemory(h), now * MILLI)
    ensures 0.0 <= Refill(p, h, now) <= p.capacity
  {
    hide YieldMs, Params.Yield;
    YieldMsIsYield(p, now - h.lastMs);
    assert now * MILLI - h.lastMs * MILLI == (now - h.lastMs) * MILLI;
    YieldMono(p, 0, (now - h.lastMs) * MILLI);
  }

  /** One call, from the same level at the same time. */
  lemma StepAgrees(p: Params, h: Hash, now: int)
    requires p.Valid() && Fits(p, h) && h.lastMs <= now
    ensures var ((h', r), (s', m)) := (Script(p, Some(h), now), TokenBucket.Decide(p, InMemory(h), now * MILLI));
            s' == InMemory(h') && Fits(p, h') && h'.lastMs == now && SameAnswer(r, m)
  {
    hide Refill, TokenBucket.Refill, DurationFromSecondsCeil, Ceil;
    RefillAgrees(p, h, now);
    var tokens := Refill(p, h, now);
    if tokens < 1.0 {
      WaitAgrees(p, 1.0 - tokens);
    }
  }

  lemma WaitAgrees(p: Params, missing: real)
    requires p.Valid() && missing > 0.0
    ensures var (ms, d) := (Ceil(missing * 1000.0 / p.rate), DurationFromSecondsCeil(missing / p.rate));
            d <= ms * MILLI && (d < MAX_DURATION ==> ms * MILLI <= d + MILLI)
  {
    hide DurationFromSecondsCeil, Ceil;
    YieldReaches(p, missing, 0);
    Rescale(missing, p.rate);
    MillisCoverNanos(missing / p.rate);
  }

  lemma Rescale(x: real, rate: real)
    requires rate > 0.0
    ensures x * 1000.0 / rate == x / rate * 1000.0
  {}

  lemma {:induction false} RunAgrees(p: Params, h: Hash, clocks: seq<int>, i: nat)
    requires p.Valid() && Fits(p, h) && i < |clocks| && Nondecreasing(clocks) && h.lastMs <= clocks[0]
    ensures SameAnswer(Replies(p, Some(h), clocks)[i], Results(TokenBucket.Alg(p), InMemory(h), Scaled(clocks))[i])
    decreases i
  {
    hide Script, TokenBucket.Decide, SameAnswer, Fits;
    StepAgrees(p, h, clocks[0]);
    assert Scaled(clocks)[1..] == Scaled(clocks[1..]);
    if i > 0 {
      RunAgrees(p, Script(p, Some(h), clocks[0]).0, clocks[1..], i - 1);
    }
  }

  /** A clock that stepped back counts as the latest one before. */
  lemma {:induction false} HeldReplies(p: Params, h: Hash, clocks: seq<int>)
    requires p.Valid()
    ensures Replies(p, Some(h), clocks) == Replies(p, Some(h), MaximaFrom(h.lastMs, clocks))
    decreases |clocks|
  {
    if clocks != [] {
      var m := if clocks[0] < h.lastMs then h.lastMs else clocks[0];
      var rest := MaximaFrom(m, clocks[1..]);
      assert ([m] + rest)[0] == m && ([m] + rest)[1..] == rest;
      assert Script(p, Some(h), clocks[0]) == Script(p, Some(h), m) && Script(p, Some(h), m).0.lastMs == m;
      hide Script, Refill;
      HeldReplies(p, Script(p, Some(h), m).0, clocks[1..]);
    }
  }

  /** For any server clock: every call on a Redis token bucket is answered as the in-memory
      token bucket answers it at the latest clock so far. */
  lemma {:induction false} AgreesWithMemory(p: Params, clocks: seq<int>, i: nat)
    requires p.Valid() && i < |clocks|
    ensures SameAnswer(Replies(p, None, clocks)[i], KeyResults(TokenBucket.Alg(p), Scaled(Maxima(clocks)))[i])
  {
    var h := Hash(p.capacity, clocks[0]);
    assert Script(p, Some(h), clocks[0]) == Script(p, None, clocks[0]);
    hide Script, TokenBucket.Decide, SameAnswer;
    assert Replies(p, Some(h), clocks) == Replies(p, None, clocks);
    HeldReplies(p, h, clocks);
    MaximaBounds(clocks);
    hide MaximaFrom;
    RunAgrees(p, h, Maxima(clocks), i);
  }

  // ---- Quota, for any clock ----

  ghost function Potential(p: Params, h: Hash): real { h.level - YieldMs(p, h.lastMs) }

  lemma YieldMsAdd(p: Params, a: int, b: int)
    ensures YieldMs(p, a + b) == YieldMs(p, a) + YieldMs(p, b)
  {}

  /** The potential falls by one with every admission and never rises, even if the server
      clock steps back. */
  lemma ScriptPotential(p: Params, stored: Option<Hash>, clock: int)
    requires p.Valid() && (stored.Some? ==> Fits(p, stored.value))
    ensures var (h, r) := Script(p, stored, clock);
            var spent := if r.allowed then 1.0 else 0.0;
            && Fits(p, h) && h.lastMs == Guarded(stored, clock)
            && Potential(p, h) <= p.capacity - YieldMs(p, h.lastMs) - spent
            && (stored.Some? ==> Potential(p, h) <= Potential(p, stored.value) - spent)
  {
    hide Ceil, YieldMs;
    if stored.Some? && stored.value.lastMs < clock {
      var h := stored.value;
      YieldMsAdd(p, clock - h.lastMs, h.lastMs);
      hide Refill;
      RefillAgrees(p, h, clock);
      RefillAtMost(p, h, clock);
    }
  }

  lemma RefillAtMost(p: Params, h: Hash, now: int)
    requires h.lastMs < now
    ensures Refill(p, h, now) <= h.level + YieldMs(p, now - h.lastMs)
  {
    hide YieldMs;
  }
}

/** redis/scripts/leaky_bucket.lua. */
module RedisLeaky {
  import opened Numeric
  import opened Limiter
  import opened BucketParams
  import opened RedisCommon
  import RedisToken
  import TokenBucket
  import LeakyBucket

  function Leak(p: Params, h: Hash, now: int): real {
    var water := h.level - YieldMs(p, now - h.lastMs);
    if now <= h.lastMs then h.level else if water < 0.0 then 0.0 else water
  }

  function Script(p: Params, stored: Option<Hash>, clock: int): (Hash, Reply)
    requires p.Valid()
  {
    var h := if stored.Some? then stored.value else Hash(0.0, clock);
    var now := Guarded(stored, clock);
    var water := Leak(p, h, now);
    if water + 1.0 <= p.capacity then
      (Hash(water + 1.0, now), Reply(true, (p.capacity - (water + 1.0)).Floor, 0))
    else (Hash(water, now), Reply(false, 0, Ceil((water + 1.0 - p.capacity) * 1000.0 / p.rate)))
  }

  class Key {
    var stored: Option<Hash>

    constructor ()
      ensures stored == None
    {
      stored := None;
    }

    method Eval(p: Params, clock: int) returns (r: Reply)
      requires p.Valid()
      modifies this
      ensures (stored, r) == (Some(Script(p, old(stored), clock).0), Script(p, old(stored), clock).1)
    {
      hide Ceil;
      var now, water, last := clock, 0.0, clock;
      if stored.Some? {
        water, last := stored.value.level, stored.value.lastMs;
        if now < last {
          now := last;
        }
      }
      var elapsed := now - last;
      if elapsed > 0 {
        assert elapsed as real * p.rate / 1000.0 == YieldMs(p, elapsed);
        water := water - elapsed as real * p.rate / 1000.0;
        if water < 0.0 {
          water := 0.0;
        }
      }
      hide YieldMs;
      var allowed, remaining, retryAfterMs := false, 0, 0;
      if water + 1.0 <= p.capacity {
        water := water + 1.0;
        allowed, remaining := true, (p.capacity - water).Floor;
      } else {
        var overflow := water + 1.0 - p.capacity;
        retryAfterMs := Ceil(overflow * 1000.0 / p.rate);
      }
      stored := Some(Hash(water, now));
      r := Reply(allowed, remaining, retryAfterMs);
    }
  }

  function Replies(p: Params, stored: Option<Hash>, clocks: seq<int>): (rs: seq<Reply>)
    requires p.Valid()
    ensures |rs| == |clocks|
    decreases |clocks|
  {
    if clocks == [] then [] else
    var (h, r) := Script(p, stored, clocks[0]);
    [r] + Replies(p, Some(h), clocks[1..])
  }

  function Mirror(p: Params, stored: Option<Hash>): Option<Hash> {
    if stored.None? then None else Some(Hash(p.capacity - stored.value.level, stored.value.lastMs))
  }

  /** The two scripts move in lock step for any server clock, rollbacks included. */
  lemma Bisimulation(p: Params, stored: Option<Hash>, clock: int)
    requires p.Valid()
    ensures var ((h, r), (t, q)) := (Script(p, stored, clock), RedisToken.Script(p, Mirror(p, stored), clock));
            Mirror(p, Some(h)) == Some(t) && r == q
  {
    hide YieldMs, Ceil;
    var h := if stored.Some? then stored.value else Hash(0.0, clock);
    var t := Hash(p.capacity - h.level, h.lastMs);
    var now := Guarded(stored, clock);
    assert RedisToken.Refill(p, t, now) == p.capacity - Leak(p, h, now);
    hide Leak, RedisToken.Refill;
    var water := Leak(p, h, now);
    assert 1.0 - (p.capacity - water) == water + 1.0 - p.capacity;
    assert p.capacity - water - 1.0 == p.capacity - (water + 1.0);
  }

  lemma {:induction false} SameReplies(p: Params, stored: Option<Hash>, clocks: seq<int>)
    requires p.Valid()
    ensures Replies(p, stored, clocks) == RedisToken.Replies(p, Mirror(p, stored), clocks)
    decreases |clocks|
  {
    hide Script, RedisToken.Script, Mirror;
    if clocks != [] {
      Bisimulation(p, stored, clocks[0]);
      SameReplies(p, Some(Script(p, stored, clocks[0]).0), clocks[1..]);
    }
  }

  /** As `RedisToken.AgreesWithMemory`, for the leaky bucket. */
  lemma {:induction false} AgreesWithMemory(p: Params, clocks: seq<int>, i: nat)
    requires p.Valid() && i < |clocks|
    ensures SameAnswer(Replies(p, None, clocks)[i], KeyResults(LeakyBucket.Alg(p), Scaled(Maxima(clocks)))[i])
  {
    hide SameAnswer, Replies, RedisToken.Replies, KeyResults, TokenBucket.Alg, LeakyBucket.Alg, Scaled, Maxima;
    SameReplies(p, None, clocks);
    LeakyBucket.SameKeyResults(p, Scaled(Maxima(clocks)));
    RedisToken.AgreesWithMemory(p, clocks, i);
  }
}
