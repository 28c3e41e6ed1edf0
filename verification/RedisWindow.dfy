/** redis/scripts/sliding_window_log.lua, over a sorted set, against the in-memory log. */
module RedisWindow {
  import opened Limiter
  import opened RedisCommon
  import SlidingWindow

  /** One member of the sorted set; also one call, its clock and its salt. */
  datatype Item = Item(score: int, member: string)

  /** A sorted set in the order Redis keeps it: by score, then by member. */
  type ZSet = seq<Item>

  predicate LexLess(a: string, b: string) {
    if b == [] then false else if a == [] then true
    else if a[0] != b[0] then a[0] < b[0] else LexLess(a[1..], b[1..])
  }

  predicate Before(a: Item, b: Item) {
    a.score < b.score || (a.score == b.score && LexLess(a.member, b.member))
  }

  /** ZREMRANGEBYSCORE -inf start. */
  function RemoveUpTo(z: ZSet, start: int): ZSet {
    if z == [] then [] else (if z[0].score > start then [z[0]] else []) + RemoveUpTo(z[1..], start)
  }

  function RemoveMember(z: ZSet, member: string): ZSet {
    if z == [] then [] else (if z[0].member == member then [] else [z[0]]) + RemoveMember(z[1..], member)
  }

  function InsertItem(z: ZSet, e: Item): ZSet {
    if z == [] then [e] else if Before(e, z[0]) then [e] + z else [z[0]] + InsertItem(z[1..], e)
  }

  /** ZADD: a member already present moves to its new score. */
  function Add(z: ZSet, e: Item): ZSet { InsertItem(RemoveMember(z, e.member), e) }

  function Script(limit: int, windowMs: int, z: ZSet, call: Item): (ZSet, Reply)
    requires limit > 0 && windowMs > 0
  {
    var live := RemoveUpTo(z, call.score - windowMs);
    if |live| < limit then (Add(live, call), Reply(true, limit - |live| - 1, 0))
    else (live, Reply(false, 0, live[0].score + windowMs - call.score))
  }

  class Key {
    var zset: ZSet

    constructor ()
      ensures zset == []
    {
      zset := [];
    }

    method Eval(limit: int, windowMs: int, now: int, member: string) returns (r: Reply)
      requires limit > 0 && windowMs > 0
      modifies this
      ensures (zset, r) == Script(limit, windowMs, old(zset), Item(now, member))
    {
      var windowStart := now - windowMs;
      zset := RemoveUpTo(zset, windowStart);
      var count := |zset|;
      var allowed, remaining, retryAfterMs := false, 0, 0;
      if count < limit {
        zset := Add(zset, Item(now, member));
        allowed, remaining := true, limit - count - 1;
      } else {
        var oldest := zset[0];
        retryAfterMs := oldest.score + windowMs - now;
      }
      r := Reply(allowed, remaining, retryAfterMs);
    }
  }

  function Replies(limit: int, windowMs: int, z: ZSet, calls: seq<Item>): (rs: seq<Reply>)
    requires limit > 0 && windowMs > 0
    ensures |rs| == |calls|
    decreases |calls|
  {
    if calls == [] then [] else
    var (z', r) := Script(limit, windowMs, z, calls[0]);
    [r] + Replies(limit, windowMs, z', calls[1..])
  }

  /** The result the Go side makes of a reply. */
  function ToResult(r: Reply): Result { Result(r.allowed, r.remaining, r.retryAfterMs * MILLI) }

  function ToResults(rs: seq<Reply>): seq<Result> {
    if rs == [] then [] else [ToResult(rs[0])] + ToResults(rs[1..])
  }

  /** The scores of a sorted set, or the clocks of calls, in nanoseconds. */
  function Nanos(z: seq<Item>): (ns: seq<int>)
    ensures |ns| == |z|
  {
    if z == [] then [] else [z[0].score * MILLI] + Nanos(z[1..])
  }

  ghost predicate HasMember(z: ZSet, member: string) { exists i :: 0 <= i < |z| && z[i].member == member }

  /** No salt is used twice. */
  ghost predicate Distinct(calls: seq<Item>) {
    forall i, j :: 0 <= i < j < |calls| ==> calls[i].member != calls[j].member
  }

  lemma {:induction false} RemoveIsRecent(z: ZSet, start: int)
    ensures Nanos(RemoveUpTo(z, start)) == SlidingWindow.Recent(Nanos(z), start * MILLI)
  {
    if z != [] {
      RemoveIsRecent(z[1..], start);
      var rest := RemoveUpTo(z[1..], start);
      assert Nanos(z)[1..] == Nanos(z[1..]);
      if z[0].score > start {
        assert ([z[0]] + rest)[1..] == rest;
      } else {
        assert [] + rest == rest;
      }
    }
  }

  lemma {:induction false} RemoveUpToMembers(z: ZSet, start: int, member: string)
    requires !HasMember(z, member)
    ensures !HasMember(RemoveUpTo(z, start), member)
  {
    if z != [] {
      assert z[0].member != member;
      FreshTail(z, member);
      RemoveUpToMembers(z[1..], start, member);
    }
  }

  lemma FreshTail(z: ZSet, member: string)
    requires !HasMember(z, member) && z != []
    ensures !HasMember(z[1..], member)
  {
    forall i | 0 <= i < |z[1..]| ensures z[1..][i].member != member {
      assert z[i + 1].member != member;
    }
  }

  lemma {:induction false} RemoveFresh(z: ZSet, member: string)
    requires !HasMember(z, member)
    ensures RemoveMember(z, member) == z
  {
    if z != [] {
      assert z[0].member != member;
      FreshTail(z, member);
      RemoveFresh(z[1..], member);
    }
  }

  lemma {:induction false} InsertMembers(z: ZSet, e: Item, member: string)
    requires !HasMember(z, member) && e.member != member
    ensures !HasMember(InsertItem(z, e), member)
  {
    if z != [] {
      assert z[0].member != member;
      FreshTail(z, member);
      InsertMembers(z[1..], e, member);
    }
  }

  lemma {:induction false} NanosConst(z: ZSet, score: int)
    requires forall i :: 0 <= i < |z| ==> Nanos(z)[i] == score * MILLI
    ensures [score * MILLI] + Nanos(z) == Nanos(z) + [score * MILLI]
  {
  }

  /** The newest score goes last, wherever its member sorts among equal scores. */
  lemma {:induction false} InsertNewest(z: ZSet, e: Item)
    requires Nondecreasing(Nanos(z)) && SlidingWindow.AtMost(Nanos(z), e.score * MILLI)
    ensures Nanos(InsertItem(z, e)) == Nanos(z) + [e.score * MILLI]
    decreases |z|
  {
    if z != [] {
      var ns := Nanos(z);
      assert ns[0] == z[0].score * MILLI && ns[1..] == Nanos(z[1..]);
      if Before(e, z[0]) {
        assert forall i :: 0 <= i < |ns| ==> ns[i] == e.score * MILLI;
        NanosConst(z, e.score);
        assert ([e] + z)[1..] == z;
      } else {
        InsertNewest(z[1..], e);
        var rest := InsertItem(z[1..], e);
        assert ([z[0]] + rest)[1..] == rest;
      }
    }
  }

  /** One call: same answer to the nanosecond, and again the same log. */
  lemma {:induction false} StepAgrees(limit: int, windowMs: int, z: ZSet, call: Item)
    requires limit > 0 && windowMs > 0 && !HasMember(z, call.member)
    requires Nondecreasing(Nanos(z)) && SlidingWindow.AtMost(Nanos(z), call.score * MILLI)
    ensures var (z', r) := Script(limit, windowMs, z, call);
            && SlidingWindow.Decide(SlidingWindow.Params(limit, windowMs * MILLI), Nanos(z), call.score * MILLI)
               == (Nanos(z'), ToResult(r))
            && Nondecreasing(Nanos(z')) && SlidingWindow.AtMost(Nanos(z'), call.score * MILLI)
  {
    hide SlidingWindow.Prune, Nondecreasing, SlidingWindow.AtMost, SlidingWindow.Recent, RemoveUpTo;
    hide InsertItem;
    var start, now := call.score - windowMs, call.score * MILLI;
    var live := RemoveUpTo(z, start);
    assert now - windowMs * MILLI == start * MILLI;
    RemoveIsRecent(z, start);
    SlidingWindow.PruneIsRecent(Nanos(z), start * MILLI);
    SlidingWindow.RecentSorted(Nanos(z), start * MILLI);
    SlidingWindow.RecentBounds(Nanos(z), start * MILLI, now);
    if |live| < limit {
      RemoveUpToMembers(z, start, call.member);
      RemoveFresh(live, call.member);
      InsertNewest(live, call);
      SlidingWindow.SortedAppend(Nanos(live), now);
    }
  }

  lemma ScriptMembers(limit: int, windowMs: int, z: ZSet, call: Item, member: string)
    requires limit > 0 && windowMs > 0 && !HasMember(z, call.member) && !HasMember(z, member) && member != call.member
    ensures !HasMember(Script(limit, windowMs, z, call).0, member)
  {
    hide HasMember, RemoveUpTo, InsertItem, RemoveMember;
    var live := RemoveUpTo(z, call.score - windowMs);
    RemoveUpToMembers(z, call.score - windowMs, member);
    RemoveUpToMembers(z, call.score - windowMs, call.member);
    RemoveFresh(live, call.member);
    InsertMembers(live, call, member);
  }

  ghost predicate AllFresh(z: ZSet, calls: seq<Item>) {
    forall i :: 0 <= i < |calls| ==> !HasMember(z, calls[i].member)
  }

  lemma {:induction false} RunAgrees(limit: int, windowMs: int, z: ZSet, calls: seq<Item>)
    requires limit > 0 && windowMs > 0 && Distinct(calls) && Nondecreasing(Nanos(calls)) && AllFresh(z, calls)
    requires Nondecreasing(Nanos(z)) && (calls != [] ==> SlidingWindow.AtMost(Nanos(z), calls[0].score * MILLI))
    ensures ToResults(Replies(limit, windowMs, z, calls))
         == Results(SlidingWindow.Alg(SlidingWindow.Params(limit, windowMs * MILLI)), Nanos(z), Nanos(calls))
    decreases |calls|
  {
    hide Script, SlidingWindow.Decide, Nondecreasing, HasMember, ToResult;
    if calls != [] {
      var call, rest := calls[0], calls[1..];
      StepAgrees(limit, windowMs, z, call);
      var (z', r) := Script(limit, windowMs, z, call);
      forall i | 0 <= i < |rest| ensures !HasMember(z', rest[i].member) {
        assert rest[i] == calls[i + 1];
        ScriptMembers(limit, windowMs, z, call, rest[i].member);
      }
      assert Nanos(calls)[1..] == Nanos(rest) && Nanos(calls)[0] == call.score * MILLI;
      NondecreasingTail(Nanos(calls));
      assert rest != [] ==> Nanos(calls)[1] == Nanos(rest)[0] == rest[0].score * MILLI;
      RunAgrees(limit, windowMs, z', rest);
      var tail := Replies(limit, windowMs, z', rest);
      assert ([r] + tail)[1..] == tail;
    }
  }

  /** On whole-millisecond times that never step back and with fresh salts, the script and
      the in-memory sliding window return the same results, waits included. */
  lemma {:induction false} AgreesWithMemory(limit: int, windowMs: int, calls: seq<Item>)
    requires limit > 0 && windowMs > 0 && Distinct(calls) && Nondecreasing(Nanos(calls))
    ensures ToResults(Replies(limit, windowMs, [], calls))
         == KeyResults(SlidingWindow.Alg(SlidingWindow.Params(limit, windowMs * MILLI)), Nanos(calls))
  {
    hide Replies, SlidingWindow.Decide;
    RunAgrees(limit, windowMs, [], calls);
  }

  // ---- For any server clock, against the history of the key ----

  ghost predicate ByScore(z: ZSet) { forall i, j :: 0 <= i < j < |z| ==> z[i].score <= z[j].score }

  lemma {:induction false} InsertAdds(z: ZSet, e: Item)
    ensures multiset(InsertItem(z, e)) == multiset(z) + multiset{e}
    decreases |z|
  {
    if z != [] {
      assert z == [z[0]] + z[1..];
      if !Before(e, z[0]) {
        InsertAdds(z[1..], e);
      }
    }
  }

  lemma {:induction false} InsertMember(z: ZSet, e: Item, x: Item)
    ensures x in InsertItem(z, e) <==> x in z || x == e
  {
    InsertAdds(z, e);
    assert x in InsertItem(z, e) <==> x in multiset(InsertItem(z, e));
  }

  /** A new item goes to its place. */
  lemma {:induction false} InsertByScore(z: ZSet, e: Item)
    requires ByScore(z)
    ensures ByScore(InsertItem(z, e))
    decreases |z|
  {
    if z != [] && !Before(e, z[0]) {
      InsertByScore(z[1..], e);
      var rest := InsertItem(z[1..], e);
      forall i | 0 <= i < |rest| ensures z[0].score <= rest[i].score {
        InsertMember(z[1..], e, rest[i]);
      }
    }
  }

  /** The items after `cut`, in the order they were admitted. */
  function Live(hist: seq<Item>, cut: int): seq<Item> {
    if hist == [] then [] else (if hist[0].score > cut then [hist[0]] else []) + Live(hist[1..], cut)
  }

  /** What is left of the items after `cut`, whatever their order. */
  lemma {:induction false} LiveCount(hist: seq<Item>, cut: int, e: Item)
    ensures multiset(Live(hist, cut))[e] == if e.score > cut then multiset(hist)[e] else 0
  {
    if hist != [] {
      LiveCount(hist[1..], cut, e);
      assert hist == [hist[0]] + hist[1..];
    }
  }

  lemma {:induction false} RemoveKeeps(z: ZSet, cut: int)
    requires ByScore(z)
    ensures ByScore(RemoveUpTo(z, cut)) && RemoveUpTo(z, cut) == Live(z, cut)
    ensures forall x :: x in RemoveUpTo(z, cut) ==> x in z
    decreases |z|
  {
    if z != [] {
      RemoveKeeps(z[1..], cut);
      assert z == [z[0]] + z[1..];
      var rest := RemoveUpTo(z[1..], cut);
      forall i | 0 <= i < |rest| ensures z[0].score <= rest[i].score {
        assert rest[i] in rest;
        var j :| 0 <= j < |z[1..]| && z[1..][j] == rest[i];
        assert z[j + 1] == rest[i];
      }
    }
  }

  function Oldest(items: seq<Item>): int
    requires items != []
  {
    if |items| == 1 then items[0].score else
    var rest := Oldest(items[1..]);
    if items[0].score < rest then items[0].score else rest
  }

  lemma {:induction false} OldestIsLeast(items: seq<Item>)
    requires items != []
    ensures forall x :: x in items ==> Oldest(items) <= x.score
    ensures exists x :: x in items && x.score == Oldest(items)
  {
    assert items[0] in items;
    if |items| > 1 {
      OldestIsLeast(items[1..]);
      assert items == [items[0]] + items[1..];
      var x :| x in items[1..] && x.score == Oldest(items[1..]);
      assert x in items;
    }
  }

  /** The window as an unordered bag of admissions: those a clock has left behind are gone,
      also for calls after a rollback. */
  function BagStep(limit: int, windowMs: int, bag: seq<Item>, call: Item): (seq<Item>, Reply)
    requires limit > 0
  {
    var live := Live(bag, call.score - windowMs);
    if |live| < limit then (live + [call], Reply(true, limit - |live| - 1, 0))
    else (live, Reply(false, 0, Oldest(live) + windowMs - call.score))
  }

  function BagReplies(limit: int, windowMs: int, bag: seq<Item>, calls: seq<Item>): (rs: seq<Reply>)
    requires limit > 0
    ensures |rs| == |calls|
    decreases |calls|
  {
    if calls == [] then [] else
    var (bag', r) := BagStep(limit, windowMs, bag, calls[0]);
    [r] + BagReplies(limit, windowMs, bag', calls[1..])
  }

  /** The sorted set holds the same admissions as the bag. */
  ghost predicate Tracks(z: ZSet, bag: seq<Item>) { ByScore(z) && multiset(z) == multiset(bag) }

  lemma {:induction false} TracksCut(z: ZSet, bag: seq<Item>, cut: int)
    requires Tracks(z, bag)
    ensures Tracks(RemoveUpTo(z, cut), Live(bag, cut))
  {
    RemoveKeeps(z, cut);
    forall e: Item ensures multiset(Live(z, cut))[e] == multiset(Live(bag, cut))[e] {
      LiveCount(z, cut, e);
      LiveCount(bag, cut, e);
    }
    assert multiset(Live(z, cut)) == multiset(Live(bag, cut));
  }

  /** Same items, same count and same oldest. */
  lemma {:induction false} TracksAnswers(z: ZSet, bag: seq<Item>)
    requires Tracks(z, bag)
    ensures |z| == |bag| && (z != [] ==> z[0].score == Oldest(bag))
  {
    assert |multiset(z)| == |z| && |multiset(bag)| == |bag|;
    if z != [] {
      OldestIsLeast(bag);
      var x :| x in bag && x.score == Oldest(bag);
      assert x in multiset(z) && z[0] in multiset(bag);
    }
  }

  lemma TracksAdd(z: ZSet, bag: seq<Item>, e: Item)
    requires Tracks(z, bag) && !HasMember(z, e.member)
    ensures Tracks(Add(z, e), bag + [e])
  {
    RemoveFresh(z, e.member);
    InsertAdds(z, e);
    InsertByScore(z, e);
  }

  /** One call at any clock. */
  lemma BagAgrees(limit: int, windowMs: int, z: ZSet, bag: seq<Item>, call: Item)
    requires limit > 0 && windowMs > 0 && Tracks(z, bag) && !HasMember(z, call.member)
    ensures var ((z', r), (bag', q)) := (Script(limit, windowMs, z, call), BagStep(limit, windowMs, bag, call));
            Tracks(z', bag') && r == q
  {
    hide RemoveUpTo, Add, Live, Tracks, HasMember, Oldest;
    var cut := call.score - windowMs;
    TracksCut(z, bag, cut);
    TracksAnswers(RemoveUpTo(z, cut), Live(bag, cut));
    RemoveUpToMembers(z, cut, call.member);
    TracksAdd(RemoveUpTo(z, cut), Live(bag, cut), call);
  }

  lemma {:induction false} BagRun(limit: int, windowMs: int, z: ZSet, bag: seq<Item>, calls: seq<Item>)
    requires limit > 0 && windowMs > 0 && Distinct(calls) && AllFresh(z, calls) && Tracks(z, bag)
    ensures Replies(limit, windowMs, z, calls) == BagReplies(limit, windowMs, bag, calls)
    decreases |calls|
  {
    hide Script, BagStep, Tracks, HasMember;
    if calls != [] {
      var call, rest := calls[0], calls[1..];
      BagAgrees(limit, windowMs, z, bag, call);
      var z' := Script(limit, windowMs, z, call).0;
      forall i | 0 <= i < |rest| ensures !HasMember(z', rest[i].member) {
        assert rest[i] == calls[i + 1];
        ScriptMembers(limit, windowMs, z, call, rest[i].member);
      }
      BagRun(limit, windowMs, z', BagStep(limit, windowMs, bag, call).0, rest);
    }
  }

  /** For any server clock, rollbacks included, and with fresh salts: the script answers as
      the unordered bag of admissions does. */
  lemma {:induction false} AnyClockReplies(limit: int, windowMs: int, calls: seq<Item>)
    requires limit > 0 && windowMs > 0 && Distinct(calls)
    ensures Replies(limit, windowMs, [], calls) == BagReplies(limit, windowMs, [], calls)
  {
    hide Replies, BagReplies;
    BagRun(limit, windowMs, [], [], calls);
  }

  function BagAfter(limit: int, windowMs: int, calls: seq<Item>): seq<Item>
    requires limit > 0
  {
    if calls == [] then [] else
    BagStep(limit, windowMs, BagAfter(limit, windowMs, calls[..|calls| - 1]), calls[|calls| - 1]).0
  }

  /** Call `i` was admitted, and no clock since has left it behind. */
  ghost predicate Survives(limit: int, windowMs: int, calls: seq<Item>, i: nat)
    requires limit > 0 && i < |calls|
  {
    && BagStep(limit, windowMs, BagAfter(limit, windowMs, calls[..i]), calls[i]).1.allowed
    && forall j :: i < j < |calls| ==> calls[j].score < calls[i].score + windowMs
  }

  lemma {:induction false} LiveMember(bag: seq<Item>, cut: int, e: Item)
    ensures e in Live(bag, cut) <==> e in bag && e.score > cut
  {
    LiveCount(bag, cut, e);
    assert e in Live(bag, cut) <==> e in multiset(Live(bag, cut));
    assert e in bag <==> e in multiset(bag);
  }

  /** What the bag holds after any calls: every admission that survives, */
  lemma {:induction false} SurvivorsIn(limit: int, windowMs: int, calls: seq<Item>, i: nat)
    requires limit > 0 && i < |calls| && Survives(limit, windowMs, calls, i)
    ensures calls[i] in BagAfter(limit, windowMs, calls)
    decreases |calls|
  {
    hide Live, Survives;
    var n := |calls| - 1;
    if i < n {
      SurvivesNext(limit, windowMs, calls, i);
      SurvivorsIn(limit, windowMs, calls[..n], i);
      LiveMember(BagAfter(limit, windowMs, calls[..n]), calls[n].score - windowMs, calls[i]);
    } else {
      SurvivesLast(limit, windowMs, calls);
    }
  }

  /** and nothing else. */
  lemma {:induction false} InSurvives(limit: int, windowMs: int, calls: seq<Item>, e: Item) returns (i: nat)
    requires limit > 0 && e in BagAfter(limit, windowMs, calls)
    ensures i < |calls| && calls[i] == e && Survives(limit, windowMs, calls, i)
    decreases |calls|
  {
    hide Live, Survives;
    var n := |calls| - 1;
    var cut := calls[n].score - windowMs;
    SurvivesLast(limit, windowMs, calls);
    if e in Live(BagAfter(limit, windowMs, calls[..n]), cut) {
      LiveMember(BagAfter(limit, windowMs, calls[..n]), cut, e);
      i := InSurvives(limit, windowMs, calls[..n], e);
      SurvivesNext(limit, windowMs, calls, i);
    } else {
      i := n;
    }
  }

  lemma SurvivesLast(limit: int, windowMs: int, calls: seq<Item>)
    requires limit > 0 && calls != []
    ensures var n := |calls| - 1;
            Survives(limit, windowMs, calls, n)
            <==> BagStep(limit, windowMs, BagAfter(limit, windowMs, calls[..n]), calls[n]).1.allowed
  {}

  lemma SurvivesNext(limit: int, windowMs: int, calls: seq<Item>, i: nat)
    requires limit > 0 && i < |calls| - 1
    ensures var init := calls[..|calls| - 1];
            Survives(limit, windowMs, calls, i)
            <==> Survives(limit, windowMs, init, i) && calls[|calls| - 1].score < calls[i].score + windowMs
  {
    hide BagStep, BagAfter;
    assert calls[..|calls| - 1][..i] == calls[..i];
  }
}
