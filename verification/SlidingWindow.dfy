/** memory/sliding_window_log.go: the log of admission times, searched, compacted and
    grown in place, and what it means in terms of the whole history of a key. */
module SlidingWindow {
  import opened Limiter
  import opened Laws

  /** The constructor panics unless `Valid`. */
  datatype Params = Params(limit: int, window: int) {
    predicate Valid() { limit > 0 && window > 0 }
  }

  ghost predicate AtMost(logs: seq<int>, t: int) {
    forall i :: 0 <= i < |logs| ==> logs[i] <= t
  }

  ghost predicate Above(logs: seq<int>, t: int) {
    forall i :: 0 <= i < |logs| ==> logs[i] > t
  }

  /** The index the binary search of `left..right` ends with, for any log at all. */
  function Search(logs: seq<int>, start: int, left: int, right: int, valid: int): (v: int)
    requires 0 <= left <= right + 1 <= |logs|
    requires 0 <= valid <= |logs| && (valid < |logs| ==> logs[valid] > start)
    ensures 0 <= v <= |logs| && (v < |logs| ==> logs[v] > start)
    decreases right - left + 1
  {
    if left > right then valid else
    var mid := left + (right - left) / 2;
    if logs[mid] > start then Search(logs, start, left, mid - 1, mid)
    else Search(logs, start, mid + 1, right, valid)
  }

  lemma {:induction false} SearchEnds(logs: seq<int>, start: int, left: int, right: int, valid: int)
    requires 0 <= left == right + 1 <= |logs| && 0 <= valid <= |logs| && (valid < |logs| ==> logs[valid] > start)
    ensures Search(logs, start, left, right, valid) == valid
  {}

  lemma SearchNext(logs: seq<int>, start: int, left: int, right: int, valid: int, mid: int)
    requires 0 <= left <= right < |logs| && mid == left + (right - left) / 2
    requires 0 <= valid <= |logs| && (valid < |logs| ==> logs[valid] > start)
    ensures left <= mid <= right
    ensures Search(logs, start, left, right, valid)
            == if logs[mid] > start then Search(logs, start, left, mid - 1, mid)
               else Search(logs, start, mid + 1, right, valid)
  {}

  /** How often a range of this size can be halved: the length of its size in binary. */
  ghost function Halvings(n: nat): nat { if n == 0 then 0 else 1 + Halvings(n / 2) }

  lemma {:induction false} HalvingsMono(m: nat, n: nat)
    requires m <= n
    ensures Halvings(m) <= Halvings(n)
  {
    if m > 0 {
      HalvingsMono(m / 2, n / 2);
    }
  }

  lemma HalvedRange(left: int, right: int, mid: int)
    requires 0 <= left <= right && mid == left + (right - left) / 2
    ensures 1 + Halvings(mid - left) <= Halvings(right - left + 1)
    ensures 1 + Halvings(right - mid) <= Halvings(right - left + 1)
  {
    HalvingsMono(mid - left, (right - left + 1) / 2);
    HalvingsMono(right - mid, (right - left + 1) / 2);
  }

  /** Whatever the log, the search ends at a boundary of the window: the entry there is after
      `start` and the one before it is not. */
  lemma {:induction false} SearchFindsBoundary(logs: seq<int>, start: int, left: int, right: int)
    requires 0 <= left <= right + 1 <= |logs|
    requires (left > 0 ==> logs[left - 1] <= start) && (right + 1 < |logs| ==> logs[right + 1] > start)
    ensures var v := Search(logs, start, left, right, right + 1);
            && left <= v <= right + 1
            && (v > 0 ==> logs[v - 1] <= start) && (v < |logs| ==> logs[v] > start)
    decreases right - left + 1
  {
    hide Search;
    if left <= right {
      var mid := left + (right - left) / 2;
      SearchNext(logs, start, left, right, right + 1, mid);
      if logs[mid] > start {
        SearchFindsBoundary(logs, start, left, mid - 1);
      } else {
        SearchFindsBoundary(logs, start, mid + 1, right);
      }
    } else {
      SearchEnds(logs, start, left, right, right + 1);
    }
  }

  function Prune(logs: seq<int>, start: int): seq<int> {
    logs[Search(logs, start, 0, |logs| - 1, |logs|)..]
  }

  function Decide(p: Params, logs: seq<int>, now: int): (seq<int>, Result)
    requires p.Valid()
  {
    var live := Prune(logs, now - p.window);
    if |live| < p.limit then
      (live + [now], Result(true, p.limit - |live| - 1, 0))
    else
      (live, Result(false, 0, live[0] + p.window - now))
  }

  function Alg(p: Params): Algorithm<seq<int>>
    requires p.Valid()
  {
    Algorithm(now => [], (s, now) => Decide(p, s, now))
  }

  /** The per-key state: a Go slice, that is a buffer and the length in use. */
  class WindowState {
    var buf: array<int>
    var len: nat
    ghost var copied: nat  // timestamps copied by all growth steps so far

    function Contents(): seq<int>
      requires len <= buf.Length
      reads this, buf
    {
      buf[..len]
    }

    /** Length and capacity stay within the limit, and growing has copied fewer than
        twice the limit timestamps over the whole life of the state. */
    ghost predicate Valid(limit: int)
      reads this
    {
      && len <= buf.Length <= limit
      && (buf.Length == 0 ==> copied == 0)
      && (0 < buf.Length < limit ==> copied < buf.Length)
      && copied < 2 * limit
    }

    constructor (limit: int)
      requires limit > 0
      ensures Valid(limit) && fresh(buf) && Contents() == [] && copied == 0
    {
      buf := new int[0];
      len := 0;
      copied := 0;
    }

    method RecordAndDecide(p: Params, now: int) returns (r: Result)
      requires p.Valid() && Valid(p.limit)
      modifies this, buf
      ensures Valid(p.limit) && (buf == old(buf) || fresh(buf))
      ensures (Contents(), r) == Decide(p, old(Contents()), now)
      ensures copied >= old(copied)
    {
      hide Prune, Search;
      Trim(now - p.window);
      if len < p.limit {
        AppendWindowLog(now, p.limit);
        return Result(true, p.limit - len, 0);
      }
      var retryAfter := buf[0] + p.window - now;
      return Result(false, 0, retryAfter);
    }

    /** Drop the timestamps that have left the window. */
    method Trim(windowStart: int)
      requires len <= buf.Length
      modifies this`len, buf
      ensures len <= old(len) && Contents() == Prune(old(Contents()), windowStart)
    {
      hide Search;
      var validIndex, _ := FindValid(windowStart);
      if validIndex > 0 {
        Compact(validIndex);
      }
    }

    /** The binary search for the first timestamp after `windowStart`, with the number of
        timestamps it looks at. */
    method FindValid(windowStart: int) returns (validIndex: nat, ghost probes: nat)
      requires len <= buf.Length
      ensures validIndex == Search(Contents(), windowStart, 0, len - 1, len)
      ensures probes <= Halvings(len)
    {
      hide Halvings, Search;
      validIndex, probes := len, 0;
      var left, right := 0, len - 1;
      while left <= right
        invariant 0 <= left <= right + 1 <= len
        invariant validIndex <= len && (validIndex < len ==> buf[validIndex] > windowStart)
        invariant Search(Contents(), windowStart, left, right, validIndex)
               == Search(Contents(), windowStart, 0, len - 1, len)
        invariant probes + Halvings(right - left + 1) <= Halvings(len)
        decreases right - left + 1
      {
        var mid := left + (right - left) / 2;
        probes := probes + 1;
        HalvedRange(left, right, mid);
        SearchNext(Contents(), windowStart, left, right, validIndex, mid);
        if buf[mid] > windowStart {
          validIndex := mid;
          right := mid - 1;
        } else {
          left := mid + 1;
        }
      }
      SearchEnds(Contents(), windowStart, left, right, validIndex);
    }

    /** `copy(logs, logs[from:])` followed by reslicing. */
    method Compact(from: nat)
      requires from <= len <= buf.Length
      modifies this`len, buf
      ensures len <= buf.Length && Contents() == old(Contents())[from..]
    {
      var n := len - from;
      for i := 0 to n
        invariant buf[..i] == old(buf[from..from + i])
        invariant buf[i..] == old(buf[i..])
      {
        assert buf[from + i] == buf[i..][from] == old(buf[from + i]);
        buf[i] := buf[from + i];
      }
      len := n;
      assert old(buf[from..from + n]) == old(buf[..len])[from..];
    }

    /** Append, growing the buffer by doubling but never past the limit. */
    method AppendWindowLog(now: int, limit: int)
      requires Valid(limit) && len < limit
      modifies this, buf
      ensures Valid(limit) && (buf == old(buf) || fresh(buf))
      ensures Contents() == old(Contents()) + [now]
      ensures copied >= old(copied)
    {
      if len < buf.Length {
        buf[len] := now;
        len := len + 1;
        return;
      }
      var newCap := buf.Length * 2;
      if newCap < 1 { newCap := 1; }
      if newCap > limit { newCap := limit; }
      if newCap < len + 1 { newCap := len + 1; }
      var next := new int[newCap];
      forall i | 0 <= i < len { next[i] := buf[i]; }
      copied := copied + len;
      next[len] := now;
      buf, len := next, len + 1;
    }
  }

  // ---- The log against the history of a key ----

  /** The entries of a history after `start`, in order. */
  function Recent(hist: seq<int>, start: int): seq<int> {
    if hist == [] then [] else (if hist[0] > start then [hist[0]] else []) + Recent(hist[1..], start)
  }

  /** The decision read off the whole history of admissions of a key. */
  function HistoryDecide(p: Params, hist: seq<int>, now: int): Result
    requires p.Valid()
  {
    var live := Recent(hist, now - p.window);
    if |live| < p.limit then Result(true, p.limit - |live| - 1, 0)
    else Result(false, 0, live[0] + p.window - now)
  }

  function HistoryResults(p: Params, hist: seq<int>, times: seq<int>): seq<Result>
    requires p.Valid()
    decreases |times|
  {
    if times == [] then [] else
    var r := HistoryDecide(p, hist, times[0]);
    [r] + HistoryResults(p, if r.allowed then hist + [times[0]] else hist, times[1..])
  }

  lemma SortedSplits(logs: seq<int>, start: int, mid: nat)
    requires Nondecreasing(logs) && mid < |logs|
    ensures logs[mid] > start ==> forall i :: mid <= i < |logs| ==> logs[i] > start
    ensures logs[mid] <= start ==> forall i :: 0 <= i <= mid ==> logs[i] <= start
  {}

  /** On a sorted log the search finds the boundary of the window. */
  lemma {:induction false} SearchSorted(logs: seq<int>, start: int, left: int, right: int, valid: int)
    requires Nondecreasing(logs) && 0 <= left <= right + 1 <= |logs|
    requires valid == right + 1
    requires forall i :: 0 <= i < left ==> logs[i] <= start
    requires forall i :: right < i < |logs| ==> logs[i] > start
    ensures var v := Search(logs, start, left, right, valid);
            && (forall i :: 0 <= i < v ==> logs[i] <= start)
            && (forall i :: v <= i < |logs| ==> logs[i] > start)
    decreases right - left + 1
  {
    hide Nondecreasing;
    if left <= right {
      var mid := left + (right - left) / 2;
      SortedSplits(logs, start, mid);
      if logs[mid] > start {
        SearchSorted(logs, start, left, mid - 1, mid);
      } else {
        SearchSorted(logs, start, mid + 1, right, valid);
      }
    }
  }

  lemma {:induction false} RecentConcat(a: seq<int>, b: seq<int>, start: int)
    ensures Recent(a + b, start) == Recent(a, start) + Recent(b, start)
  {
    if a == [] {
      assert a + b == b;
    } else {
      assert (a + b)[1..] == a[1..] + b;
      RecentConcat(a[1..], b, start);
    }
  }

  lemma {:induction false} RecentAll(hist: seq<int>, start: int)
    requires Above(hist, start)
    ensures Recent(hist, start) == hist
  {
    if hist != [] {
      RecentAll(hist[1..], start);
    }
  }

  lemma {:induction false} RecentNone(hist: seq<int>, start: int)
    requires AtMost(hist, start)
    ensures Recent(hist, start) == []
  {
    if hist != [] {
      RecentNone(hist[1..], start);
    }
  }

  /** Pruning a sorted log is filtering it. */
  lemma {:induction false} PruneIsRecent(logs: seq<int>, start: int)
    requires Nondecreasing(logs)
    ensures Prune(logs, start) == Recent(logs, start)
  {
    hide Search, Recent, Nondecreasing;
    SearchSorted(logs, start, 0, |logs| - 1, |logs|);
    var v := Search(logs, start, 0, |logs| - 1, |logs|);
    var gone, live := logs[..v], logs[v..];
    assert AtMost(gone, start) && Above(live, start);
    RecentNone(gone, start);
    RecentAll(live, start);
    RecentConcat(gone, live, start);
    assert logs == gone + live;
  }

  /** A log the window has not moved over is not pruned. */
  lemma NothingPruned(logs: seq<int>, start: int)
    requires Nondecreasing(logs) && Above(logs, start)
    ensures Prune(logs, start) == logs
  {
    hide Prune, Recent;
    PruneIsRecent(logs, start);
    RecentAll(logs, start);
  }

  lemma {:induction false} RecentComposes(hist: seq<int>, start: int, later: int)
    requires start <= later
    ensures Recent(Recent(hist, start), later) == Recent(hist, later)
  {
    if hist != [] {
      RecentComposes(hist[1..], start, later);
      RecentConcat(if hist[0] > start then [hist[0]] else [], Recent(hist[1..], start), later);
      assert Recent([hist[0]], later) == if hist[0] > later then [hist[0]] else [];
    }
  }

  lemma {:induction false} RecentBounds(hist: seq<int>, start: int, t: int)
    requires AtMost(hist, t)
    ensures AtMost(Recent(hist, start), t) && Above(Recent(hist, start), start)
  {
    if hist != [] {
      RecentBounds(hist[1..], start, t);
    }
  }

  lemma {:induction false} RecentShorter(hist: seq<int>, start: int)
    ensures |Recent(hist, start)| <= |hist|
  {
    if hist != [] {
      RecentShorter(hist[1..], start);
    }
  }

  lemma {:induction false} RecentSorted(hist: seq<int>, start: int)
    requires Nondecreasing(hist)
    ensures Nondecreasing(Recent(hist, start))
    ensures hist != [] ==> Above(Recent(hist, start), hist[0] - 1)
  {
    if hist != [] {
      RecentSorted(hist[1..], start);
      assert |hist| > 1 ==> hist[0] <= hist[1];
    }
  }

  lemma {:induction false} RunRefinesHistory(p: Params, logs: seq<int>, hist: seq<int>, start: int, times: seq<int>)
    requires p.Valid() && Nondecreasing(times) && Nondecreasing(hist)
    requires logs == Recent(hist, start)
    requires times != [] ==> start <= times[0] - p.window && AtMost(hist, times[0])
    ensures Results(Alg(p), logs, times) == HistoryResults(p, hist, times)
    decreases |times|
  {
    hide Prune;
    if times != [] {
      hide Decide, HistoryDecide, Recent, Nondecreasing;
      var now, rest := times[0], times[1..];
      var (logs', r) := Decide(p, logs, now);
      LogFollowsHistory(p, logs, hist, start, now);
      assert rest != [] ==> rest[0] == times[1] >= now;
      RunRefinesHistory(p, logs', if r.allowed then hist + [now] else hist, now - p.window, rest);
    }
  }

  lemma {:induction false} RecentAppend(hist: seq<int>, now: int, start: int)
    requires now > start
    ensures Recent(hist + [now], start) == Recent(hist, start) + [now]
  {
    RecentConcat(hist, [now], start);
    assert Recent([now], start) == [now];
  }

  lemma SortedAppend(logs: seq<int>, now: int)
    requires Nondecreasing(logs) && AtMost(logs, now)
    ensures Nondecreasing(logs + [now]) && AtMost(logs + [now], now)
  {}

  /** One decision keeps the log equal to the recent part of the history. */
  lemma LogFollowsHistory(p: Params, logs: seq<int>, hist: seq<int>, start: int, now: int)
    requires p.Valid() && Nondecreasing(hist) && AtMost(hist, now)
    requires logs == Recent(hist, start) && start <= now - p.window
    ensures var (logs', r) := Decide(p, logs, now);
            var hist' := if r.allowed then hist + [now] else hist;
            && r == HistoryDecide(p, hist, now)
            && logs' == Recent(hist', now - p.window)
            && Nondecreasing(hist') && AtMost(hist', now)
  {
    hide Prune, Nondecreasing, AtMost, Recent;
    var from := now - p.window;
    RecentSorted(hist, start);
    PruneIsRecent(logs, from);
    RecentComposes(hist, start, from);
    RecentAppend(hist, now, from);
    SortedAppend(hist, now);
  }

  /** With a clock that never steps back, the limiter answers every request as the full
      history of the key says: allowed exactly when fewer than `limit` earlier admissions
      lie in (now - window, now], with the count and the waiting time that follow. */
  lemma {:induction false} RefinesHistory(p: Params, times: seq<int>)
    requires p.Valid() && Nondecreasing(times)
    ensures Results(Alg(p), [], times) == HistoryResults(p, [], times)
  {
    var start := if times == [] then 0 else times[0] - p.window;
    RunRefinesHistory(p, [], [], start, times);
  }

  /** The times of the admitted requests of a run. */
  function Admitted(times: seq<int>, rs: seq<Result>): seq<int>
    requires |times| == |rs|
  {
    if times == [] then [] else
    (if rs[0].allowed then [times[0]] else []) + Admitted(times[1..], rs[1..])
  }

  /** How many entries lie in the half-open window (t - window, t]. */
  function CountIn(hist: seq<int>, t: int, window: int): nat {
    if hist == [] then 0
    else (if t - window < hist[0] <= t then 1 else 0) + CountIn(hist[1..], t, window)
  }

  lemma {:induction false} CountInConcat(a: seq<int>, b: seq<int>, t: int, window: int)
    ensures CountIn(a + b, t, window) == CountIn(a, t, window) + CountIn(b, t, window)
  {
    if a == [] {
      assert a + b == b;
    } else {
      assert (a + b)[1..] == a[1..] + b;
      CountInConcat(a[1..], b, t, window);
    }
  }

  lemma {:induction false} CountInRecent(hist: seq<int>, t: int, now: int, window: int)
    requires now <= t
    ensures CountIn(hist, t, window) <= |Recent(hist, now - window)|
  {
    if hist != [] {
      CountInRecent(hist[1..], t, now, window);
    }
  }

  lemma {:induction false} HistoryWithinLimit(p: Params, hist: seq<int>, times: seq<int>, t: int)
    requires p.Valid() && CountIn(hist, t, p.window) <= p.limit
    ensures |HistoryResults(p, hist, times)| == |times|
    ensures CountIn(hist + Admitted(times, HistoryResults(p, hist, times)), t, p.window) <= p.limit
    decreases |times|
  {
    hide Recent, CountIn, HistoryDecide;
    if times == [] {
      assert hist + [] == hist;
    } else {
      var now := times[0];
      var r := HistoryDecide(p, hist, now);
      var hist' := if r.allowed then hist + [now] else hist;
      if r.allowed { AdmissionWithinLimit(p, hist, now, t); }
      HistoryWithinLimit(p, hist', times[1..], t);
      var rs := HistoryResults(p, hist', times[1..]);
      assert HistoryResults(p, hist, times) == [r] + rs;
      assert ([r] + rs)[1..] == rs;
      assert hist' + Admitted(times[1..], rs) == hist + Admitted(times, [r] + rs);
    }
  }

  lemma {:induction false} AdmissionWithinLimit(p: Params, hist: seq<int>, now: int, t: int)
    requires p.Valid() && CountIn(hist, t, p.window) <= p.limit
    requires HistoryDecide(p, hist, now).allowed
    ensures CountIn(hist + [now], t, p.window) <= p.limit
  {
    CountInConcat(hist, [now], t, p.window);
    if now <= t { CountInRecent(hist, t, now, p.window); }
  }

  /** No half-open window of the configured length, wherever it is laid, ever holds more
      than `limit` admitted requests. */
  lemma {:induction false} WindowNeverExceeded(p: Params, times: seq<int>, t: int)
    requires p.Valid() && Nondecreasing(times)
    ensures CountIn(Admitted(times, Results(Alg(p), [], times)), t, p.window) <= p.limit
  {
    RefinesHistory(p, times);
    HistoryWithinLimit(p, [], times, t);
    var a := Admitted(times, HistoryResults(p, [], times));
    assert [] + a == a;
  }

  // ---- Without an ordered clock ----

  /** The admission times of a key whose requests arrive at `times`. */
  function Admissions(p: Params, logs: seq<int>, times: seq<int>): seq<int>
    requires p.Valid()
  {
    Admitted(times, Results(Alg(p), logs, times))
  }

  lemma AdmissionsStep(p: Params, logs: seq<int>, times: seq<int>)
    requires p.Valid() && times != []
    ensures var (logs', r) := Decide(p, logs, times[0]);
            Admissions(p, logs, times)
            == (if r.allowed then [times[0]] else []) + Admissions(p, logs', times[1..])
  {
    hide Decide;
  }

  lemma {:induction false} CountInNone(hist: seq<int>, t: int, window: int)
    requires Above(hist, t)
    ensures CountIn(hist, t, window) == 0
  {
    if hist != [] {
      CountInNone(hist[1..], t, window);
    }
  }

  lemma DecideOne(p: Params, last: int, now: int)
    requires p.Valid() && p.limit == 1
    ensures var (logs, r) := Decide(p, [last], now);
            if last > now - p.window then logs == [last] && !r.allowed else logs == [now] && r.allowed
  {
    hide Prune, Recent;
    PruneIsRecent([last], now - p.window);
    if last > now - p.window {
      RecentAll([last], now - p.window);
    } else {
      RecentNone([last], now - p.window);
    }
  }

  /** With a limit of one, admissions are a window apart at any times at all. */
  lemma {:induction false} OneAtATime(p: Params, last: int, times: seq<int>, t: int)
    requires p.Valid() && p.limit == 1
    ensures Above(Admissions(p, [last], times), last + p.window - 1)
    ensures CountIn([last] + Admissions(p, [last], times), t, p.window) <= 1
    decreases |times|
  {
    hide Decide, Admissions;
    if times == [] {
      NoAdmissions(p, [last]);
      assert [last] + [] == [last];
    } else {
      var now, rest := times[0], times[1..];
      AdmissionsStep(p, [last], times);
      DecideOne(p, last, now);
      if last > now - p.window {
        OneAtATime(p, last, rest, t);
        assert [] + Admissions(p, [last], rest) == Admissions(p, [last], rest);
      } else {
        OneAtATime(p, now, rest, t);
        PrependAdmission(p, last, now, Admissions(p, [now], rest), t);
      }
    }
  }

  lemma {:induction false} PrependAdmission(p: Params, last: int, now: int, more: seq<int>, t: int)
    requires p.Valid() && now >= last + p.window && Above(more, now)
    requires CountIn([now] + more, t, p.window) <= 1
    ensures Above([now] + more, last + p.window - 1)
    ensures CountIn([last] + ([now] + more), t, p.window) <= 1
  {
    hide CountIn;
    CountInConcat([last], [now] + more, t, p.window);
    if last > t - p.window {
      CountInNone([now] + more, t, p.window);
    }
    CountInOne(last, t, p.window);
  }

  lemma {:induction false} CountInOne(x: int, t: int, window: int)
    ensures CountIn([x], t, window) == if t - window < x <= t then 1 else 0
  {}

  /** A fresh key admits a burst of `limit` requests. */
  lemma {:induction false} FillUp(p: Params, n: nat, k: nat, times: seq<int>)
    requires p.Valid() && n + k <= p.limit
    ensures Admissions(p, Burst(0, n), Burst(0, k) + times) == Burst(0, k) + Admissions(p, Burst(0, n + k), times)
    decreases k
  {
    hide Prune, Admissions, Results, Admitted;
    BurstAt(0, n);
    if k == 0 {
      assert Burst(0, 0) + times == times;
      assert Burst(0, 0) + Admissions(p, Burst(0, n), times) == Admissions(p, Burst(0, n), times);
    } else {
      var run := Burst(0, k) + times;
      AdmissionsStep(p, Burst(0, n), run);
      assert run[0] == 0 && run[1..] == Burst(0, k - 1) + times;
      NothingPruned(Burst(0, n), -p.window);
      FillUp(p, n + 1, k - 1, times);
    }
  }

  lemma {:induction false} CountInBurst(k: nat, t: int, window: int)
    requires t - window < 0 <= t
    ensures CountIn(Burst(0, k), t, window) == k
  {
    if k > 0 {
      CountInBurst(k - 1, t, window);
      assert Burst(0, k)[1..] == Burst(0, k - 1);
    }
  }

  lemma AdmitsNext(p: Params, logs: seq<int>, live: seq<int>, now: int, times: seq<int>)
    requires p.Valid() && Prune(logs, now - p.window) == live && |live| < p.limit
    ensures Admissions(p, logs, [now] + times) == [now] + Admissions(p, live + [now], times)
  {
    hide Prune, Admissions;
    AdmissionsStep(p, logs, [now] + times);
    assert ([now] + times)[1..] == times;
  }

  /** A window after a burst its entries are gone, and a step back cannot see them. */
  lemma {:induction false} ForgetsBurst(p: Params, full: seq<int>, d: int)
    requires p.Valid() && p.limit > 1 && d > 0 && AtMost(full, 0) && Nondecreasing(full)
    ensures Admissions(p, full, [p.window] + [p.window - d]) == [p.window] + [p.window - d]
  {
    hide Prune, Admissions, Recent;
    var w := p.window;
    PruneIsRecent(full, 0);
    RecentNone(full, 0);
    NothingPruned([w], w - d - w);
    AdmitsNext(p, full, [], w, [w - d]);
    AdmitsNext(p, [w], [w], w - d, []);
    assert [] + [w] == [w] && [w - d] + [] == [w - d];
    NoAdmissions(p, [w] + [w - d]);
  }

  lemma NoAdmissions(p: Params, logs: seq<int>)
    requires p.Valid()
    ensures Admissions(p, logs, []) == []
  {}

  /** A full log, one admission a window later, and a step back: the earlier admissions
      are forgotten, so the window that holds them takes one more. */
  lemma {:induction false} StepBackExceeds(p: Params, d: int, times: seq<int>)
    requires p.Valid() && p.limit > 1 && 0 < d <= p.window
    requires times == Burst(0, p.limit) + ([p.window] + [p.window - d])
    ensures StepsBackAtMost(times, d)
    ensures CountIn(Admissions(p, [], times), p.window - d, p.window) == p.limit + 1
  {
    hide Admissions, Burst;
    var (full, w, t) := (Burst(0, p.limit), p.window, p.window - d);
    assert Burst(0, 0) == [] by { BurstAt(0, 0); }
    BurstAt(0, p.limit);
    FillUp(p, 0, p.limit, [w] + [t]);
    ForgetsBurst(p, full, d);
    CountInConcat(full, [w] + [t], t, w);
    CountInConcat([w], [t], t, w);
    CountInBurst(p.limit, t, w);
    CountInOne(w, t, w);
    CountInOne(t, t, w);
  }

  lemma {:induction false} OneInAnyWindow(p: Params, times: seq<int>, t: int)
    requires p.Valid() && p.limit == 1
    ensures CountIn(Admissions(p, [], times), t, p.window) <= 1
  {
    if times != [] {
      AdmissionsStep(p, [], times);
      OneAtATime(p, times[0], times[1..], t);
      assert [] + [times[0]] == [times[0]];
    }
  }

  /** No window is exceeded in any run whose clock steps back by at most `d` exactly when
      it never steps back or the limit is one. */
  lemma StepBackBound(p: Params, d: nat)
    requires p.Valid()
    ensures (forall times: seq<int>, t: int ::
               StepsBackAtMost(times, d) ==> CountIn(Admissions(p, [], times), t, p.window) <= p.limit)
            <==> d == 0 || p.limit == 1
  {
    if d == 0 || p.limit == 1 {
      forall times: seq<int>, t: int | StepsBackAtMost(times, d)
        ensures CountIn(Admissions(p, [], times), t, p.window) <= p.limit
      {
        if d == 0 {
          WindowNeverExceeded(p, times, t);
        } else {
          OneInAnyWindow(p, times, t);
        }
      }
    } else {
      var e := Min(d, p.window);
      var times := Burst(0, p.limit) + ([p.window] + [p.window - e]);
      StepBackExceeds(p, e, times);
      assert StepsBackAtMost(times, d);
    }
  }

  /** At arbitrary times no window is ever exceeded exactly when the limit is one. */
  lemma AnyClockBound(p: Params)
    requires p.Valid()
    ensures (forall times: seq<int>, t: int :: CountIn(Admissions(p, [], times), t, p.window) <= p.limit)
            <==> p.limit == 1
  {
    if p.limit == 1 {
      forall times: seq<int>, t: int ensures CountIn(Admissions(p, [], times), t, p.window) <= 1 {
        OneInAnyWindow(p, times, t);
      }
    } else {
      StepBackExceeds(p, p.window, Burst(0, p.limit) + ([p.window] + [p.window - p.window]));
    }
  }

  // ---- Retry times ----

  /** A denial asks for a positive wait, even if the clock stepped back and the log is
      out of order. */
  lemma RetryAfterPositive(p: Params, logs: seq<int>, now: int)
    requires p.Valid()
    ensures var r := Decide(p, logs, now).1;
            if r.allowed then r.retryAfter == 0 else r.retryAfter > 0
  {}

  /** With a clock that never stepped back the wait is exact: a nanosecond less is
      denied, the wait itself is admitted. */
  lemma RetryAfterExact(p: Params, logs: seq<int>, now: int)
    requires p.Valid() && Nondecreasing(logs) && |logs| <= p.limit
    requires !Decide(p, logs, now).1.allowed
    ensures var (logs', r) := Decide(p, logs, now);
            && !Decide(p, logs', now + r.retryAfter - 1).1.allowed
            && Decide(p, logs', now + r.retryAfter).1.allowed
  {
    hide Prune;
    var (live, r) := Decide(p, logs, now);
    var oldest := live[0];
    assert now + r.retryAfter - p.window == oldest;
    PruneIsRecent(logs, now - p.window);
    RecentSorted(logs, now - p.window);
    RecentShorter(logs, now - p.window);
    OldestExpires(live);
  }

  /** Just before its oldest entry leaves, a sorted log is whole; then it is shorter. */
  lemma OldestExpires(live: seq<int>)
    requires Nondecreasing(live) && live != []
    ensures Prune(live, live[0] - 1) == live
    ensures |Prune(live, live[0])| < |live|
  {
    hide Prune;
    PruneIsRecent(live, live[0] - 1);
    RecentAll(live, live[0] - 1);
    PruneIsRecent(live, live[0]);
    RecentShorter(live[1..], live[0]);
  }

  // ---- Laws ----

  /** State of a key last served at `t` by a clock that never stepped back. */
  ghost predicate Fit(p: Params, logs: seq<int>, t: int) {
    Nondecreasing(logs) && |logs| <= p.limit && AtMost(logs, t)
  }

  ghost function FitFor(p: Params): (seq<int>, int) -> bool { (s, t) => Fit(p, s, t) }

  lemma FitStep(p: Params, logs: seq<int>, t: int, now: int)
    requires p.Valid() && Fit(p, logs, t) && t <= now
    ensures Fit(p, Decide(p, logs, now).0, now)
  {
    hide Prune;
    PruneIsRecent(logs, now - p.window);
    RecentSorted(logs, now - p.window);
    RecentBounds(logs, now - p.window, t);
    RecentShorter(logs, now - p.window);
    SortedAppend(Recent(logs, now - p.window), now);
  }

  /** How many of `k` requests at one instant are admitted. */
  ghost function Taken(p: Params, logs: seq<int>, now: int, k: nat): nat
    requires p.Valid()
  {
    CountAllowed(Results(Alg(p), logs, Burst(now, k)))
  }

  lemma TakenStep(p: Params, logs: seq<int>, now: int, k: nat)
    requires p.Valid()
    ensures Taken(p, logs, now, 0) == 0
    ensures var (logs', r) := Decide(p, logs, now);
            Taken(p, logs, now, k + 1) == (if r.allowed then 1 else 0) + Taken(p, logs', now, k)
  {
    BurstStep(Alg(p), logs, now, k + 1);
  }

  /** The search leaves the log with `j` entries of the burst alone. */
  ghost predicate Still(p: Params, logs: seq<int>, now: int, j: nat) {
    Prune(logs + Burst(now, j), now - p.window) == logs + Burst(now, j)
  }

  ghost predicate Unmoved(p: Params, logs: seq<int>, now: int) {
    forall j: nat :: |logs| + j <= p.limit ==> Still(p, logs, now, j)
  }

  lemma StillNext(p: Params, logs: seq<int>, now: int, j: nat)
    ensures Still(p, logs, now, 0) <==> Prune(logs, now - p.window) == logs
    ensures Still(p, logs, now, j + 1) <==> Still(p, logs + [now], now, j)
  {
    hide Prune;
    assert logs + Burst(now, 0) == logs;
    assert logs + [now] + Burst(now, j) == logs + Burst(now, j + 1);
  }

  lemma UnmovedNext(p: Params, logs: seq<int>, now: int)
    requires |logs| < p.limit
    ensures Unmoved(p, logs, now) <==> Prune(logs, now - p.window) == logs && Unmoved(p, logs + [now], now)
  {
    hide Prune, Still;
    StillNext(p, logs, now, 0);
    if Unmoved(p, logs, now) {
      forall j: nat | |logs + [now]| + j <= p.limit ensures Still(p, logs + [now], now, j) {
        StillNext(p, logs, now, j);
        assert Still(p, logs, now, j + 1);
      }
    }
    if Prune(logs, now - p.window) == logs && Unmoved(p, logs + [now], now) {
      forall j: nat | |logs| + j <= p.limit ensures Still(p, logs, now, j) {
        if j > 0 {
          StillNext(p, logs, now, j - 1);
        }
      }
    }
  }

  /** A decision on a log within the limit, by its length alone. */
  lemma DecideLength(p: Params, logs: seq<int>, now: int)
    requires p.Valid() && |logs| <= p.limit
    ensures var (logs', r) := Decide(p, logs, now);
            var live := Prune(logs, now - p.window);
            && |live| <= |logs| && (|live| == |logs| ==> live == logs)
            && (if |live| < p.limit then r.allowed && logs' == live + [now]
                else !r.allowed && logs' == logs)
            && r.remaining == p.limit - |logs'|
  {
    hide Search;
  }

  /** As many requests as the log has room for are admitted, whatever is pruned. */
  lemma {:induction false} AdmitsAll(p: Params, logs: seq<int>, now: int, k: nat)
    requires p.Valid() && |logs| + k <= p.limit
    ensures Taken(p, logs, now, k) == k
    decreases k
  {
    hide Taken, Decide, Prune;
    TakenStep(p, logs, now, 0);
    if k > 0 {
      TakenStep(p, logs, now, k - 1);
      DecideLength(p, logs, now);
      AdmitsAll(p, Decide(p, logs, now).0, now, k - 1);
    }
  }

  ghost predicate TakenExact(p: Params, logs: seq<int>, now: int, k: nat)
    requires p.Valid()
  {
    Taken(p, logs, now, k) == Min(k, p.limit - |logs|)
  }

  /** A search that moves makes room for one more request than the log has. */
  lemma MovedAdmitsMore(p: Params, logs: seq<int>, now: int)
    requires p.Valid() && |logs| <= p.limit && Prune(logs, now - p.window) != logs
    ensures !TakenExact(p, logs, now, p.limit - |logs| + 1)
  {
    hide Taken, Decide, Prune;
    var k: nat := p.limit - |logs|;
    TakenStep(p, logs, now, k);
    DecideLength(p, logs, now);
    AdmitsAll(p, Decide(p, logs, now).0, now, k);
  }

  /** A full log that the search leaves alone denies every request. */
  lemma {:induction false} FullDenies(p: Params, logs: seq<int>, now: int, k: nat)
    requires p.Valid() && |logs| == p.limit && Prune(logs, now - p.window) == logs
    ensures Taken(p, logs, now, k) == 0
    decreases k
  {
    hide Taken, Decide, Prune;
    TakenStep(p, logs, now, 0);
    if k > 0 {
      TakenStep(p, logs, now, k - 1);
      DecideLength(p, logs, now);
      FullDenies(p, logs, now, k - 1);
    }
  }

  /** For any log, in order or not: a burst gets exactly the room there is if and only if
      the search leaves the log alone. */
  lemma {:induction false} BurstExactly(p: Params, logs: seq<int>, now: int)
    requires p.Valid() && |logs| <= p.limit
    ensures (forall k: nat :: TakenExact(p, logs, now, k)) <==> Unmoved(p, logs, now)
    decreases p.limit - |logs|
  {
    hide Taken, Decide, Prune, Still;
    StillNext(p, logs, now, 0);
    DecideLength(p, logs, now);
    if Prune(logs, now - p.window) != logs {
      MovedAdmitsMore(p, logs, now);
    } else if |logs| == p.limit {
      forall k: nat ensures TakenExact(p, logs, now, k) {
        FullDenies(p, logs, now, k);
      }
    } else {
      UnmovedNext(p, logs, now);
      BurstExactly(p, logs + [now], now);
      hide Unmoved, TakenExact;
      if forall k: nat :: TakenExact(p, logs + [now], now, k) {
        forall k: nat ensures TakenExact(p, logs, now, k) {
          if k == 0 {
            NoneTaken(p, logs, now);
          } else {
            TakenNext(p, logs, now, k - 1);
          }
        }
      } else {
        var k: nat :| !TakenExact(p, logs + [now], now, k);
        TakenNext(p, logs, now, k);
      }
    }
  }

  lemma TakenNext(p: Params, logs: seq<int>, now: int, k: nat)
    requires p.Valid() && |logs| < p.limit && Prune(logs, now - p.window) == logs
    ensures TakenExact(p, logs, now, k + 1) <==> TakenExact(p, logs + [now], now, k)
  {
    hide Taken, Decide, Prune;
    TakenStep(p, logs, now, k);
    DecideLength(p, logs, now);
  }

  lemma NoneTaken(p: Params, logs: seq<int>, now: int)
    requires p.Valid() && |logs| <= p.limit
    ensures TakenExact(p, logs, now, 0)
  {}

  /** For any log, in order or not, Remaining is exact if and only if the search leaves the
      log alone until the burst has filled it. */
  lemma RemainingExact(p: Params, logs: seq<int>, now: int)
    requires p.Valid() && |logs| <= p.limit
    ensures (forall k: nat :: RemainingIsExact(Alg(p), logs, now, k))
            <==> Unmoved(p, Decide(p, logs, now).0, now)
  {
    hide Decide, Unmoved, CountAllowed, Results;
    var logs' := Decide(p, logs, now).0;
    DecideLength(p, logs, now);
    BurstExactly(p, logs', now);
    forall k: nat ensures RemainingIsExact(Alg(p), logs, now, k) <==> TakenExact(p, logs', now, k) {}
  }

  lemma OrderedUnmoved(p: Params, logs: seq<int>, now: int)
    requires p.Valid() && Fit(p, logs, now) && Above(logs, now - p.window)
    ensures Unmoved(p, logs, now)
  {
    hide Prune, Nondecreasing, Above;
    forall j: nat | |logs| + j <= p.limit ensures Still(p, logs, now, j) {
      BurstInOrder(p, logs, now, j);
      NothingPruned(logs + Burst(now, j), now - p.window);
    }
  }

  lemma {:induction false} BurstInOrder(p: Params, logs: seq<int>, now: int, j: nat)
    requires p.Valid() && Nondecreasing(logs) && AtMost(logs, now) && Above(logs, now - p.window)
    ensures Nondecreasing(logs + Burst(now, j)) && Above(logs + Burst(now, j), now - p.window)
  {
    hide Burst;
    BurstAt(now, j);
  }

  /** So it is exact as long as the clock has not stepped back. */
  lemma RemainingExactInOrder(p: Params, logs: seq<int>, t: int, now: int, k: nat)
    requires p.Valid() && Fit(p, logs, t) && t <= now
    ensures RemainingIsExact(Alg(p), logs, now, k)
  {
    hide Prune, Recent;
    FitStep(p, logs, t, now);
    PruneIsRecent(logs, now - p.window);
    RecentBounds(logs, now - p.window, t);
    OrderedUnmoved(p, Decide(p, logs, now).0, now);
    RemainingExact(p, logs, now);
  }

  /** At any times the log keeps to the limit. */
  lemma {:induction false} LengthBound(p: Params, logs: seq<int>, times: seq<int>)
    requires p.Valid() && |logs| <= p.limit
    ensures |After(Alg(p), logs, times)| <= p.limit
    decreases |times|
  {
    if times != [] {
      hide Search;
      LengthBound(p, Decide(p, logs, times[0]).0, times[1..]);
    }
  }

  /** The search looks at the first of two entries only. */
  lemma PairUnmoved(logs: seq<int>, start: int)
    requires |logs| <= 2 && (logs != [] ==> logs[0] > start)
    ensures Prune(logs, start) == logs
  {
    if logs != [] {
      assert Search(logs, start, 0, |logs| - 1, |logs|) == Search(logs, start, 0, -1, 0) == 0;
    }
  }

  lemma HeadIsLive(p: Params, logs: seq<int>, now: int)
    requires p.Valid()
    ensures var logs' := Decide(p, logs, now).0; logs' != [] && logs'[0] > now - p.window
  {
    hide Search;
  }

  lemma ShortUnmoved(p: Params, logs: seq<int>, now: int)
    requires p.Valid() && p.limit <= 2 && |logs| <= p.limit
    ensures Unmoved(p, Decide(p, logs, now).0, now)
  {
    hide Prune, Decide;
    var logs' := Decide(p, logs, now).0;
    HeadIsLive(p, logs, now);
    forall j: nat | |logs'| + j <= p.limit ensures Still(p, logs', now, j) {
      BurstAt(now, j);
      PairUnmoved(logs' + Burst(now, j), now - p.window);
    }
  }

  /** After a step back a third entry makes the search pass over an old second one. */
  lemma ThirdMoves(p: Params, d: int)
    requires p.Valid() && p.limit > 2 && d > 0
    ensures !Unmoved(p, Decide(p, [d] + [0], p.window).0, p.window)
  {
    hide Decide, Search, Prune;
    var (w, logs) := (p.window, [d] + [0]);
    PairUnmoved(logs, w - w);
    DecideLength(p, logs, w);
    var logs' := logs + [w];
    SecondOfThree(logs', 0);
    StillNext(p, logs', w, 0);
    assert !Still(p, logs', w, 0);
  }

  lemma SecondOfThree(logs: seq<int>, start: int)
    requires |logs| == 3 && logs[1] <= start < logs[2]
    ensures Prune(logs, start) != logs
  {
    assert Search(logs, start, 0, 2, 3) == Search(logs, start, 2, 2, 3);
    assert Search(logs, start, 2, 2, 3) == Search(logs, start, 2, 1, 2) == 2;
  }

  lemma StepBackReached(p: Params, d: int)
    requires p.Valid() && p.limit > 2 && d > 0
    ensures After(Alg(p), [], [d] + [0]) == [d] + [0]
  {
    hide Decide, Prune;
    PairUnmoved([], d - p.window);
    DecideLength(p, [], d);
    PairUnmoved([d], 0 - p.window);
    DecideLength(p, [d], 0);
    RunSplit(Alg(p), [], [d], [0]);
    assert [] + [d] == [d];
    AfterOne(Alg(p), [], d);
    AfterOne(Alg(p), [d], 0);
  }

  lemma {:induction false} ShortExact(p: Params, times: seq<int>, now: int, k: nat)
    requires p.Valid() && p.limit <= 2
    ensures RemainingIsExact(Alg(p), After(Alg(p), [], times), now, k)
  {
    hide Decide, RemainingIsExact, Unmoved, After;
    LengthBound(p, [], times);
    var logs := After(Alg(p), [], times);
    ShortUnmoved(p, logs, now);
    RemainingExact(p, logs, now);
  }

  lemma {:induction false} OrderedExact(p: Params, times: seq<int>, now: int, k: nat)
    requires p.Valid() && Nondecreasing(times + [now])
    ensures RemainingIsExact(Alg(p), After(Alg(p), [], times), now, k)
  {
    hide RemainingIsExact, Decide, After;
    LawsHold(p);
    NondecreasingInit(times, now);
    var t := if times == [] then now else times[0];
    EmptyFits(p, t);
    hide Fits, DenialsInvisible, FreshAllows;
    RunFits(Alg(p), FitFor(p), [], t, times);
    var last := if times == [] then t else times[|times| - 1];
    assert Fit(p, After(Alg(p), [], times), last);
    RemainingExactInOrder(p, After(Alg(p), [], times), last, now, k);
  }

  lemma StepBackMisleads(p: Params, d: int) returns (k: nat)
    requires p.Valid() && p.limit > 2 && d > 0
    ensures !RemainingIsExact(Alg(p), After(Alg(p), [], [d] + [0]), p.window, k)
  {
    hide Decide, RemainingIsExact, Unmoved, After;
    ThirdMoves(p, d);
    StepBackReached(p, d);
    RemainingExact(p, [d] + [0], p.window);
    k :| !RemainingIsExact(Alg(p), [d] + [0], p.window, k);
  }

  /** Remaining is exact in every state of every run whose clock steps back by at most `d`
      exactly when it never steps back or the limit is at most two. */
  lemma StepBackRemaining(p: Params, d: nat)
    requires p.Valid()
    ensures (forall times: seq<int>, now: int, k: nat :: StepsBackAtMost(times + [now], d) ==>
               RemainingIsExact(Alg(p), After(Alg(p), [], times), now, k))
            <==> d == 0 || p.limit <= 2
  {
    hide RemainingIsExact, After;
    if d == 0 || p.limit <= 2 {
      forall times: seq<int>, now: int, k: nat | StepsBackAtMost(times + [now], d)
        ensures RemainingIsExact(Alg(p), After(Alg(p), [], times), now, k)
      {
        if d == 0 {
          OrderedExact(p, times, now, k);
        } else {
          ShortExact(p, times, now, k);
        }
      }
    } else {
      var k := StepBackMisleads(p, d);
      assert StepsBackAtMost([d] + [0] + [p.window], d);
    }
  }

  /** At arbitrary times it is exact exactly when the limit is at most two. */
  lemma AnyClockRemaining(p: Params)
    requires p.Valid()
    ensures (forall times: seq<int>, now: int, k: nat ::
               RemainingIsExact(Alg(p), After(Alg(p), [], times), now, k))
            <==> p.limit <= 2
  {
    hide RemainingIsExact, After;
    if p.limit <= 2 {
      forall times: seq<int>, now: int, k: nat ensures RemainingIsExact(Alg(p), After(Alg(p), [], times), now, k) {
        ShortExact(p, times, now, k);
      }
    } else {
      var k := StepBackMisleads(p, 1);
    }
  }

  /** A denial leaves the log as it is, in order or not, so nothing can ever tell. */
  lemma DenialInvisible(p: Params, logs: seq<int>, now: int, later: int)
    requires p.Valid() && |logs| <= p.limit
    requires !Decide(p, logs, now).1.allowed
    ensures Decide(p, logs, now).0 == logs
    ensures Decide(p, Decide(p, logs, now).0, later) == Decide(p, logs, later)
  {
    hide Search;
  }

  lemma LawsHold(p: Params)
    requires p.Valid()
    ensures Fits(Alg(p), FitFor(p))
    ensures FreshAllows(Alg(p))
    ensures DenialsInvisible(Alg(p), FitFor(p))
  {
    var alg := Alg(p);
    forall now: int ensures alg.decide(alg.create(now), now).1.allowed {
      assert Prune([], now - p.window) == [];
    }
    hide Decide, Nondecreasing, AtMost;
    forall now: int ensures FitFor(p)(alg.create(now), now) {
      EmptyFits(p, now);
    }
    forall s: seq<int>, t: int, now: int {:trigger FitFor(p)(s, t), alg.decide(s, now)}
      | FitFor(p)(s, t) && t <= now
      ensures FitFor(p)(alg.decide(s, now).0, now)
    {
      FitStep(p, s, t, now);
    }
    forall s: seq<int>, t: int, now: int, later: int
      | FitFor(p)(s, t) && t <= now <= later && !alg.decide(s, now).1.allowed
      ensures alg.decide(alg.decide(s, now).0, later) == alg.decide(s, later)
    {
      DenialInvisible(p, s, now, later);
    }
  }

  lemma EmptyFits(p: Params, now: int)
    requires p.Valid()
    ensures Fit(p, [], now)
  {}

  /** An idle time empties every log exactly when it covers the window. */
  lemma ForgetsLaw(p: Params, ttl: int)
    requires p.Valid() && ttl >= 0
    ensures Forgets(Alg(p), FitFor(p), ttl) <==> ttl >= p.window
  {
    hide Prune;
    var alg := Alg(p);
    if ttl >= p.window {
      forall s: seq<int>, t: int, now: int {:trigger FitFor(p)(s, t), alg.decide(s, now)}
        | FitFor(p)(s, t) && t + ttl <= now
        ensures alg.decide(s, now) == alg.decide(alg.create(now), now)
      {
        StaleDecidesAsFresh(p, s, now);
      }
    } else {
      hide Prune;
      var start := ttl - p.window;
      PruneIsRecent([], start);
      PruneIsRecent([0], start);
      RecentAll([0], start);
      assert Recent([], start) == [];
      assert FitFor(p)([0], 0);
      assert Decide(p, [], ttl) == ([] + [ttl], Result(true, p.limit - 1, 0));
      assert p.limit > 1 ==> |Decide(p, [0], ttl).0| == 2;
      assert alg.decide([0], ttl) != alg.decide(alg.create(ttl), ttl);
    }
  }

  lemma StaleDecidesAsFresh(p: Params, logs: seq<int>, now: int)
    requires p.Valid() && Nondecreasing(logs) && AtMost(logs, now - p.window)
    ensures Decide(p, logs, now) == Decide(p, [], now)
  {
    hide Prune;
    PruneIsRecent(logs, now - p.window);
    RecentNone(logs, now - p.window);
    PruneIsRecent([], now - p.window);
  }
}
