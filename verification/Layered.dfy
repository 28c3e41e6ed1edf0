/** layered/limiter.go: a local limiter in front of a remote one. */
module Layered {
  import opened Limiter
  import opened Laws
  import opened Shards
  import opened FlatStore
  import TokenBucket
  import LeakyBucket
  import SlidingWindow
  import BucketParams

  /** What a layer returns for a valid key: a result or an error. */
  datatype Reply = Answer(result: Result) | Failed

  /** Ask the local layer; unless it denies, the remote layer decides. */
  function Allow<L, R>(local: (L, Call) -> (L, Reply), remote: (R, Call) -> (R, Reply), l: L, r: R, call: Call)
    : (L, R, Reply)
  {
    var (l', a) := local(l, call);
    if a.Answer? && !a.result.allowed then (l', r, a) else
    var (r', b) := remote(r, call);
    (l', r', b)
  }

  // ---- Any local layers: the remote layer alone admits ----

  /** A call as it arrives at one of any number of layered limiters: what the local layer
      there happens to say may be anything, an error included. */
  datatype Arrival = Arrival(local: Reply, call: Call) {
    predicate Reaches() { local.Failed? || local.result.allowed }
  }

  function Arrive<R>(remote: (R, Call) -> (R, Reply), r: R, a: Arrival): (R, Reply) {
    var (_, r', reply) := Allow((l: (), c: Call) => (l, a.local), remote, (), r, a.call);
    (r', reply)
  }

  function AfterArrivals<R>(remote: (R, Call) -> (R, Reply), r: R, arrivals: seq<Arrival>): R {
    if arrivals == [] then r else AfterArrivals(remote, Arrive(remote, r, arrivals[0]).0, arrivals[1..])
  }

  function RepliesTo<R>(remote: (R, Call) -> (R, Reply), r: R, arrivals: seq<Arrival>): (rs: seq<Reply>)
    ensures |rs| == |arrivals|
  {
    if arrivals == [] then [] else
    var (r', reply) := Arrive(remote, r, arrivals[0]);
    [reply] + RepliesTo(remote, r', arrivals[1..])
  }

  /** The calls that reach the remote layer. */
  function Reaching(arrivals: seq<Arrival>): seq<Call> {
    if arrivals == [] then [] else
    (if arrivals[0].Reaches() then [arrivals[0].call] else []) + Reaching(arrivals[1..])
  }

  /** The replies to the calls that reach the remote layer. */
  function RepliesReaching(arrivals: seq<Arrival>, rs: seq<Reply>): seq<Reply>
    requires |arrivals| == |rs|
  {
    if arrivals == [] then [] else
    (if arrivals[0].Reaches() then [rs[0]] else []) + RepliesReaching(arrivals[1..], rs[1..])
  }

  /** One layer serving calls alone. */
  function LayerRun<L>(layer: (L, Call) -> (L, Reply), l: L, calls: seq<Call>): (run: (L, seq<Reply>))
    ensures |run.1| == |calls|
    decreases |calls|
  {
    if calls == [] then (l, []) else
    var (l', reply) := layer(l, calls[0]);
    var (l'', replies) := LayerRun(layer, l', calls[1..]);
    (l'', [reply] + replies)
  }

  ghost predicate Denies(r: Reply) { r.Answer? && !r.result.allowed }

  /** Whatever the local layers do, however many there are, and in any interleaving: the
      remote layer sees exactly the calls that reach it and its replies are returned as they
      are; every other call is denied. So nothing is admitted that the remote layer, serving
      the same calls alone, would not admit. */
  lemma {:induction false} RemoteDecides<R>(remote: (R, Call) -> (R, Reply), r: R, arrivals: seq<Arrival>)
    ensures var rs := RepliesTo(remote, r, arrivals);
            && RepliesReaching(arrivals, rs) == LayerRun(remote, r, Reaching(arrivals)).1
            && forall i :: 0 <= i < |arrivals| && !arrivals[i].Reaches() ==> Denies(rs[i])
    decreases |arrivals|
  {
    if arrivals != [] {
      var (r', reply) := Arrive(remote, r, arrivals[0]);
      var rest := RepliesTo(remote, r', arrivals[1..]);
      RemoteDecides(remote, r', arrivals[1..]);
      var rs := RepliesTo(remote, r, arrivals);
      assert rs == [reply] + rest && rs[1..] == rest;
      var later := Reaching(arrivals[1..]);
      if arrivals[0].Reaches() {
        assert Reaching(arrivals) == [arrivals[0].call] + later && ([arrivals[0].call] + later)[1..] == later;
      } else {
        assert Reaching(arrivals) == later;
        assert Denies(reply);
      }
      forall i | 0 <= i < |arrivals| && !arrivals[i].Reaches() ensures Denies(rs[i]) {
        if i > 0 {
          assert arrivals[1..][i - 1] == arrivals[i];
          assert rs[i] == rest[i - 1];
        }
      }
    }
  }

  // ---- The local layer is not told what the remote one says ----

  /** What a layered limiter returns for a sequence of calls, with the states it leaves. */
  function LayeredRun<L, R>(local: (L, Call) -> (L, Reply), remote: (R, Call) -> (R, Reply), l: L, r: R,
                            calls: seq<Call>)
    : (run: (L, R, seq<Reply>))
    ensures |run.2| == |calls|
    decreases |calls|
  {
    if calls == [] then (l, r, []) else
    var (l', r', reply) := Allow(local, remote, l, r, calls[0]);
    var (l'', r'', replies) := LayeredRun(local, remote, l', r', calls[1..]);
    (l'', r'', [reply] + replies)
  }

  /** The calls that the first layer does not deny. */
  function PassedOn(calls: seq<Call>, local: seq<Reply>): seq<Call>
    requires |calls| == |local|
  {
    if calls == [] then [] else
    (if local[0].Answer? && !local[0].result.allowed then [] else [calls[0]]) + PassedOn(calls[1..], local[1..])
  }

  /** The denials of the first layer, and for every other call the next reply of the second. */
  function Merge(local: seq<Reply>, remote: seq<Reply>): seq<Reply> {
    if local == [] then [] else
    if local[0].Answer? && !local[0].result.allowed then [local[0]] + Merge(local[1..], remote)
    else if remote == [] then []
    else [remote[0]] + Merge(local[1..], remote[1..])
  }

  /** For any two layers and any calls: the local layer serves all the calls as if it were
      alone, whatever the remote one answers; the remote layer serves, as if it were alone,
      those the local one did not deny; and the replies are the local denials, as they are,
      and the remote replies, as they are. */
  lemma {:induction false} LayersApart<L, R>(local: (L, Call) -> (L, Reply), remote: (R, Call) -> (R, Reply), l: L,
                                             r: R, calls: seq<Call>)
    ensures var (l', r', replies) := LayeredRun(local, remote, l, r, calls);
            var (alone, answers) := LayerRun(local, l, calls);
            var (behind, decisions) := LayerRun(remote, r, PassedOn(calls, answers));
            l' == alone && r' == behind && replies == Merge(answers, decisions)
    decreases |calls|
  {
    if calls != [] {
      var (l', a) := local(l, calls[0]);
      var (r', b) := remote(r, calls[0]);
      var denied := a.Answer? && !a.result.allowed;
      LayersApart(local, remote, l', if denied then r else r', calls[1..]);
      var answers := LayerRun(local, l', calls[1..]).1;
      var passed := PassedOn(calls[1..], answers);
      var decisions := LayerRun(remote, if denied then r else r', passed).1;
      assert ([a] + answers)[1..] == answers;
      assert ([b] + decisions)[1..] == decisions;
      if denied {
        assert PassedOn(calls, [a] + answers) == [] + passed == passed;
      } else {
        assert PassedOn(calls, [a] + answers) == [calls[0]] + passed;
        assert ([calls[0]] + passed)[1..] == passed;
      }
    }
  }

  // ---- Two equal in-memory layers: the local layer is not noticed ----

  /** An in-memory limiter without cap or TTL, as a layer. */
  function InMemory<S>(c: Config<S>, m: Flat<S>, call: Call): (Flat<S>, Reply) {
    var (m', out) := Serve(c, m, call, {});
    (m', if out.Ok? then Answer(out.result) else Failed)
  }

  function LayerOf<S>(c: Config<S>): (Flat<S>, Call) -> (Flat<S>, Reply) { (m, call) => InMemory(c, m, call) }

  function LayeredAll<S>(c: Config<S>, local: Flat<S>, remote: Flat<S>, calls: seq<Call>): seq<Reply> {
    LayeredRun(LayerOf(c), LayerOf(c), local, remote, calls).2
  }

  function AloneAll<S>(c: Config<S>, m: Flat<S>, calls: seq<Call>): seq<Reply> {
    LayerRun(LayerOf(c), m, calls).1
  }

  /** From `t` on the two states of a key decide alike. */
  ghost predicate Alike<S>(alg: Algorithm<S>, r: S, a: S, t: int) {
    forall later: int :: t <= later ==> alg.decide(r, later) == alg.decide(a, later)
  }

  /** The remote layer has missed only denials: it lags behind but decides alike. */
  ghost predicate Behind<S>(c: Config<S>, fit: (S, int) -> bool, r: Flat<S>, a: Flat<S>, t: int) {
    && (forall k :: k in r <==> k in a)
    && (forall k :: k in a ==> a[k].lastSeen <= t && fit(a[k].value, a[k].lastSeen))
    && (forall k :: k in r && k in a ==> Alike(c.alg, r[k].value, a[k].value, t))
  }

  lemma BehindStep<S(!new)>(c: Config<S>, fit: (S, int) -> bool, r: Flat<S>, a: Flat<S>, t: int, call: Call)
    requires c.maxKeys == 0 && Fits(c.alg, fit) && DenialsInvisible(c.alg, fit) && FreshAllows(c.alg)
    requires Behind(c, fit, r, a, t) && t <= call.now
    ensures var (a', reply) := InMemory(c, a, call);
            var (l', r', layered) := Allow(LayerOf(c), LayerOf(c), a, r, call);
            l' == a' && layered == reply && Behind(c, fit, r', a', call.now)
  {
    var (key, now) := (call.key, call.now);
    assert a - {} == a && r - {} == r;
    if key in a {
      var (x, y) := (r[key].value, a[key].value);
      assert Alike(c.alg, x, y, t);
      assert c.alg.decide(x, now) == c.alg.decide(y, now);
      assert fit(y, a[key].lastSeen);
      var y' := c.alg.decide(y, now).0;
      if !c.alg.decide(y, now).1.allowed {
        forall later: int | now <= later ensures c.alg.decide(x, later) == c.alg.decide(y', later) {
          assert c.alg.decide(c.alg.decide(y, now).0, later) == c.alg.decide(y, later);
        }
        assert Alike(c.alg, x, y', now);
      } else {
        assert Alike(c.alg, y', y', now);
      }
    } else {
      var fresh' := c.alg.create(now);
      assert fit(fresh', now);
      assert c.alg.decide(fresh', now).1.allowed;
      assert Alike(c.alg, c.alg.decide(fresh', now).0, c.alg.decide(fresh', now).0, now);
    }
    forall k | k in a && k != key ensures k in r && Alike(c.alg, r[k].value, a[k].value, now) {
      assert Alike(c.alg, r[k].value, a[k].value, t);
    }
  }

  lemma {:induction false} Transparent<S(!new)>(c: Config<S>, fit: (S, int) -> bool, r: Flat<S>, a: Flat<S>, t: int,
                                                calls: seq<Call>)
    requires c.maxKeys == 0 && Fits(c.alg, fit) && DenialsInvisible(c.alg, fit) && FreshAllows(c.alg)
    requires Behind(c, fit, r, a, t) && Ordered(calls) && (calls != [] ==> t <= calls[0].now)
    ensures LayeredAll(c, a, r, calls) == AloneAll(c, a, calls)
    decreases |calls|
  {
    hide Behind, Fits, DenialsInvisible, FreshAllows, Allow, InMemory, Ordered;
    if calls != [] {
      OrderedTail(calls);
      BehindStep(c, fit, r, a, t, calls[0]);
      var (a', reply) := InMemory(c, a, calls[0]);
      var (l', r', layered) := Allow(LayerOf(c), LayerOf(c), a, r, calls[0]);
      Transparent(c, fit, r', a', calls[0].now, calls[1..]);
    }
  }

  /** A layered limiter over two equal token buckets returns, on every sequence of calls on
      any keys, exactly what the remote one alone would return. */
  lemma {:induction false} TokenTransparent(p: BucketParams.Params, c: Config<TokenBucket.State>, calls: seq<Call>)
    requires p.Valid() && c.alg == TokenBucket.Alg(p) && c.maxKeys == 0 && Ordered(calls)
    ensures LayeredAll(c, map[], map[], calls) == AloneAll(c, map[], calls)
  {
    TokenBucket.FitLaw(p);
    TokenBucket.DenialsLaw(p);
    FromEmpty(c, TokenBucket.FitFor(p), calls);
  }

  lemma {:induction false} LeakyTransparent(p: BucketParams.Params, c: Config<LeakyBucket.State>, calls: seq<Call>)
    requires p.Valid() && c.alg == LeakyBucket.Alg(p) && c.maxKeys == 0 && Ordered(calls)
    ensures LayeredAll(c, map[], map[], calls) == AloneAll(c, map[], calls)
  {
    LeakyBucket.LawsHold(p);
    FromEmpty(c, LeakyBucket.FitFor(p), calls);
  }

  lemma {:induction false} WindowTransparent(p: SlidingWindow.Params, c: Config<seq<int>>, calls: seq<Call>)
    requires p.Valid() && c.alg == SlidingWindow.Alg(p) && c.maxKeys == 0 && Ordered(calls)
    ensures LayeredAll(c, map[], map[], calls) == AloneAll(c, map[], calls)
  {
    SlidingWindow.LawsHold(p);
    FromEmpty(c, SlidingWindow.FitFor(p), calls);
  }

  lemma {:induction false} FromEmpty<S(!new)>(c: Config<S>, fit: (S, int) -> bool, calls: seq<Call>)
    requires c.maxKeys == 0 && Fits(c.alg, fit) && DenialsInvisible(c.alg, fit) && FreshAllows(c.alg) && Ordered(calls)
    ensures LayeredAll(c, map[], map[], calls) == AloneAll(c, map[], calls)
  {
    var t := if calls == [] then 0 else calls[0].now;
    assert Behind(c, fit, map[], map[], t);
    hide *;
    Transparent(c, fit, map[], map[], t, calls);
  }
}

/** Any number of layered limiters sharing one Redis token bucket. */
module DistributedQuota {
  import opened Limiter
  import opened BucketParams
  import opened RedisCommon
  import opened Layered
  import opened FlatStore
  import RedisToken

  /** The script as a remote layer; `now` of a call is the server clock. */
  function Server(p: Params): (Option<Hash>, Call) -> (Option<Hash>, Layered.Reply)
    requires p.Valid()
  {
    (h: Option<Hash>, call: Call) =>
      var (h', r) := RedisToken.Script(p, h, call.now);
      (Some(h'), Answer(Result(r.allowed, r.remaining, r.retryAfterMs * MILLI)))
  }

  function CountAnswers(rs: seq<Layered.Reply>): nat {
    if rs == [] then 0 else (if rs[0].Answer? && rs[0].result.allowed then 1 else 0) + CountAnswers(rs[1..])
  }

  ghost predicate Good(p: Params, h: Option<Hash>) { h.Some? ==> RedisToken.Fits(p, h.value) }

  /** One arrival: admissions lower the potential, nothing raises it. */
  lemma ArrivalPotential(p: Params, h: Option<Hash>, a: Arrival)
    requires p.Valid() && Good(p, h)
    ensures var (h', reply) := Arrive(Server(p), h, a);
            var spent := CountAnswers([reply]) as real;
            && Good(p, h')
            && (h.Some? ==> h'.Some? && RedisToken.Potential(p, h'.value) <= RedisToken.Potential(p, h.value) - spent)
            && (a.Reaches() ==>
                  && h'.Some? && h'.value.lastMs == Guarded(h, a.call.now)
                  && RedisToken.Potential(p, h'.value) <= p.capacity - YieldMs(p, h'.value.lastMs) - spent)
            && (!a.Reaches() ==> h' == h)
  {
    hide RedisToken.Script, RedisToken.Potential, YieldMs, RedisToken.Fits;
    RedisToken.ScriptPotential(p, h, a.call.now);
  }

  lemma {:induction false} RunPotential(p: Params, h: Hash, arrivals: seq<Arrival>)
    requires p.Valid() && RedisToken.Fits(p, h)
    ensures var h' := AfterArrivals(Server(p), Some(h), arrivals);
            && h'.Some? && RedisToken.Fits(p, h'.value)
            && RedisToken.Potential(p, h'.value)
               <= RedisToken.Potential(p, h) - CountAnswers(RepliesTo(Server(p), Some(h), arrivals)) as real
    decreases |arrivals|
  {
    hide Arrive, RedisToken.Potential, RedisToken.Fits, Server;
    if arrivals != [] {
      ArrivalPotential(p, Some(h), arrivals[0]);
      var (h', reply) := Arrive(Server(p), Some(h), arrivals[0]);
      RunPotential(p, h'.value, arrivals[1..]);
      assert [reply][1..] == [];
    }
  }

  /** From any stored level: a stretch of arrivals whose first and last reach the server. */
  lemma {:induction false} StretchBound(p: Params, h: Option<Hash>, arrivals: seq<Arrival>)
    requires p.Valid() && Good(p, h) && arrivals != [] && arrivals[0].Reaches()
    ensures var first := Arrive(Server(p), h, arrivals[0]).0;
            var last := AfterArrivals(Server(p), h, arrivals);
            && first.Some? && last.Some?
            && CountAnswers(RepliesTo(Server(p), h, arrivals)) as real
               <= p.capacity + YieldMs(p, last.value.lastMs - first.value.lastMs)
  {
    hide Arrive, Server, YieldMs;
    ArrivalPotential(p, h, arrivals[0]);
    var (first, reply) := Arrive(Server(p), h, arrivals[0]);
    RunPotential(p, first.value, arrivals[1..]);
    var last := AfterArrivals(Server(p), h, arrivals).value;
    assert [reply][1..] == [];
    RedisToken.YieldMsAdd(p, last.lastMs - first.value.lastMs, first.value.lastMs);
  }

  lemma {:induction false} ArrivalsSplit<R>(remote: (R, Call) -> (R, Layered.Reply), r: R, a: seq<Arrival>,
                                            b: seq<Arrival>)
    ensures AfterArrivals(remote, r, a + b) == AfterArrivals(remote, AfterArrivals(remote, r, a), b)
    ensures RepliesTo(remote, r, a + b) == RepliesTo(remote, r, a) + RepliesTo(remote, AfterArrivals(remote, r, a), b)
    decreases |a|
  {
    hide Arrive;
    if a == [] {
      assert a + b == b;
    } else {
      assert (a + b)[1..] == a[1..] + b;
      ArrivalsSplit(remote, Arrive(remote, r, a[0]).0, a[1..], b);
    }
  }

  lemma {:induction false} StaysGood(p: Params, h: Option<Hash>, arrivals: seq<Arrival>)
    requires p.Valid() && Good(p, h)
    ensures Good(p, AfterArrivals(Server(p), h, arrivals))
    decreases |arrivals|
  {
    hide Arrive, Server, Good, YieldMs, RedisToken.Potential;
    if arrivals != [] {
      ArrivalPotential(p, h, arrivals[0]);
      StaysGood(p, Arrive(Server(p), h, arrivals[0]).0, arrivals[1..]);
    }
  }

  /** The guarded time at which the script serves arrival `i`: a clock that stepped back is
      held at the latest time served before. */
  ghost function NowOf(p: Params, arrivals: seq<Arrival>, i: nat): int
    requires p.Valid() && i < |arrivals|
  {
    Guarded(AfterArrivals(Server(p), None, arrivals[..i]), arrivals[i].call.now)
  }

  /** Arrivals i..j of a run, as a run from the state before i. */
  lemma Stretch<R>(remote: (R, Call) -> (R, Layered.Reply), r: R, arrivals: seq<Arrival>, i: nat, j: nat)
    returns (mid: seq<Arrival>)
    requires i <= j < |arrivals|
    ensures mid != [] && mid[0] == arrivals[i]
    ensures var h := AfterArrivals(remote, r, arrivals[..i]);
            && AfterArrivals(remote, r, arrivals[..j + 1]) == AfterArrivals(remote, h, mid)
            && RepliesTo(remote, r, arrivals)[i..j + 1] == RepliesTo(remote, h, mid)
  {
    hide Arrive, AfterArrivals, RepliesTo;
    mid := arrivals[i..j + 1];
    var (pre, post) := (arrivals[..i], arrivals[j + 1..]);
    assert arrivals[..j + 1] == pre + mid && arrivals == (pre + mid) + post;
    ArrivalsSplit(remote, r, pre, mid);
    ArrivalsSplit(remote, r, pre + mid, post);
    SliceOfConcat(RepliesTo(remote, r, pre), RepliesTo(remote, AfterArrivals(remote, r, pre), mid),
                  RepliesTo(remote, AfterArrivals(remote, r, pre + mid), post));
  }

  lemma SliceOfConcat<T>(a: seq<T>, b: seq<T>, c: seq<T>)
    ensures (a + b + c)[|a|..|a| + |b|] == b
  {}

  /** An arrival that reaches the server leaves its guarded time there. */
  lemma ServedState(p: Params, arrivals: seq<Arrival>, i: nat)
    requires p.Valid() && i < |arrivals| && arrivals[i].Reaches()
    ensures var h := AfterArrivals(Server(p), None, arrivals[..i + 1]);
            h.Some? && h.value.lastMs == NowOf(p, arrivals, i)
  {
    hide Arrive, Server, YieldMs, RedisToken.Potential, CountAnswers;
    var (pre, last) := (arrivals[..i], arrivals[i]);
    assert arrivals[..i + 1] == pre + [last];
    StaysGood(p, None, pre);
    ArrivalsSplit(Server(p), None, pre, [last]);
    ArrivalPotential(p, AfterArrivals(Server(p), None, pre), last);
  }

  /** For any arrivals i <= j that reach the server, of any run of any number of instances
      with arbitrary local layers and an arbitrary server clock: the arrivals from i to j
      are granted at most capacity + rate * (now_j - now_i) / 1000, where now is the guarded
      time of the script. */
  lemma {:induction false} QuotaHolds(p: Params, arrivals: seq<Arrival>, i: nat, j: nat)
    requires p.Valid() && i <= j < |arrivals| && arrivals[i].Reaches() && arrivals[j].Reaches()
    ensures CountAnswers(RepliesTo(Server(p), None, arrivals)[i..j + 1]) as real
            <= p.capacity + YieldMs(p, NowOf(p, arrivals, j) - NowOf(p, arrivals, i))
  {
    hide Arrive, Server, YieldMs, CountAnswers, AfterArrivals, RepliesTo, Good, Guarded;
    var h := AfterArrivals(Server(p), None, arrivals[..i]);
    assert Good(p, None) by { NothingStoredIsGood(p); }
    StaysGood(p, None, arrivals[..i]);
    var mid := Stretch(Server(p), None, arrivals, i, j);
    StretchBound(p, h, mid);
    ServedState(p, arrivals, j);
    ArrivalPotential(p, h, arrivals[i]);
  }

  lemma NothingStoredIsGood(p: Params)
    ensures Good(p, None)
  {}
}
