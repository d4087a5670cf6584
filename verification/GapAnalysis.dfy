/**
 internal/testrun/checks.go, heartbeatCheck: the longest time a device went without a heartbeat,
 leaving out the time a test case took the connection down on purpose.
 */
module GapAnalysis {
  import opened Options

  datatype Interruption = Interruption(from: real, to: real)

  // ------------------------------------------------- what the check is about

  /** The windows of test cases: a start and a duration that is never negative. */
  predicate Ordered(windows: seq<Interruption>) {
    forall i | 0 <= i < |windows| :: windows[i].from <= windows[i].to
  }

  /** A stretch of the run without a heartbeat inside it that no interruption touches. */
  ghost predicate FreeStretch(start: real, end: real, times: seq<real>, windows: seq<Interruption>, a: real, b: real) {
    && start <= a < b <= end
    && (forall i | 0 <= i < |times| :: !(a < times[i] < b))
    && (forall i | 0 <= i < |windows| :: windows[i].to <= a || b <= windows[i].from)
  }

  // ------------------------------------------------- how it is computed

  function Max(a: real, b: real): real {
    if a < b then b else a
  }

  function Min(a: real, b: real): real {
    if a < b then a else b
  }

  function Clamp(x: real, start: real, end: real): real {
    Min(Max(x, start), end)
  }

  function Edges(windows: seq<Interruption>, start: real, end: real): seq<real> {
    if windows == [] then []
    else
      var w := windows[|windows| - 1];
      Edges(windows[..|windows| - 1], start, end) + [Clamp(w.from, start, end), Clamp(w.to, start, end)]
  }

  function Points(start: real, end: real, times: seq<real>, windows: seq<Interruption>): seq<real> {
    [start] + times + [end] + Edges(windows, start, end)
  }

  predicate Ascending(s: seq<real>) {
    forall i, j | 0 <= i < j < |s| :: s[i] <= s[j]
  }

  /** sort.Float64s. */
  function Sorted(s: seq<real>): (t: seq<real>)
    ensures Ascending(t) && multiset(t) == multiset(s)
  {
    if s == [] then []
    else
      assert s == s[..|s| - 1] + [s[|s| - 1]];
      Insert(Sorted(s[..|s| - 1]), s[|s| - 1])
  }

  function Insert(s: seq<real>, x: real): (t: seq<real>)
    requires Ascending(s)
    ensures Ascending(t) && multiset(t) == multiset(s) + multiset{x}
    ensures forall i | 0 <= i < |t| :: t[i] == x || t[i] in s
  {
    if s == [] || s[|s| - 1] <= x then s + [x]
    else
      assert s == s[..|s| - 1] + [s[|s| - 1]];
      Insert(s[..|s| - 1], x) + [s[|s| - 1]]
  }

  predicate Within(windows: seq<Interruption>, a: real, b: real) {
    exists i :: 0 <= i < |windows| && a >= windows[i].from && b <= windows[i].to
  }

  /** The longest gap between consecutive points that lies inside no interruption. */
  function Longest(windows: seq<Interruption>, points: seq<real>): real {
    if |points| < 2 then 0.0
    else
      var a, b := points[|points| - 2], points[|points| - 1];
      var before := Longest(windows, points[..|points| - 1]);
      if Within(windows, a, b) then before else Max(before, b - a)
  }

  // ------------------------------------------------- sound and complete

  lemma {:induction false} LongestCovers(windows: seq<Interruption>, points: seq<real>, i: nat)
    requires i + 1 < |points| && !Within(windows, points[i], points[i + 1])
    ensures points[i + 1] - points[i] <= Longest(windows, points)
    decreases |points|
  {
    if i + 2 < |points| {
      LongestCovers(windows, points[..|points| - 1], i);
    }
  }

  lemma {:induction false} LongestAttained(windows: seq<Interruption>, points: seq<real>) returns (i: nat)
    requires Longest(windows, points) > 0.0
    ensures i + 1 < |points| && !Within(windows, points[i], points[i + 1])
    ensures points[i + 1] - points[i] == Longest(windows, points)
    decreases |points|
  {
    var n := |points| - 1;
    var a, b := points[n - 1], points[n];
    var before := Longest(windows, points[..n]);
    if Within(windows, a, b) || b - a < before {
      i := LongestAttained(windows, points[..n]);
    } else {
      i := n - 1;
    }
  }

  lemma {:induction false} SortedSame(s: seq<real>, x: real)
    ensures x in Sorted(s) <==> x in s
  {
    assert x in Sorted(s) <==> x in multiset(Sorted(s));
    assert x in s <==> x in multiset(s);
  }

  /** The last sorted point at or before a; what follows it lies beyond a. */
  lemma {:induction false} LastUpTo(points: seq<real>, a: real) returns (i: nat)
    requires Ascending(points) && points != [] && points[0] <= a
    ensures i < |points| && points[i] <= a
    ensures forall k | i < k < |points| :: a < points[k]
    decreases |points|
  {
    var n := |points| - 1;
    if points[n] <= a {
      i := n;
    } else {
      i := LastUpTo(points[..n], a);
    }
  }

  lemma {:induction false} EdgeAt(windows: seq<Interruption>, start: real, end: real, i: nat)
    requires i < |windows|
    ensures Clamp(windows[i].from, start, end) in Edges(windows, start, end)
    ensures Clamp(windows[i].to, start, end) in Edges(windows, start, end)
    decreases |windows|
  {
    var n := |windows| - 1;
    var rest, w := Edges(windows[..n], start, end), windows[n];
    var all := Edges(windows, start, end);
    assert all[|rest|] == Clamp(w.from, start, end) && all[|rest| + 1] == Clamp(w.to, start, end);
    if i < n {
      EdgeAt(windows[..n], start, end, i);
      assert forall x | x in rest :: x in all;
    }
  }

  lemma {:induction false} EdgeFrom(windows: seq<Interruption>, start: real, end: real, x: real)
    requires x in Edges(windows, start, end)
    ensures exists i | 0 <= i < |windows| ::
      x == Clamp(windows[i].from, start, end) || x == Clamp(windows[i].to, start, end)
    decreases |windows|
  {
    var n := |windows| - 1;
    if x in Edges(windows[..n], start, end) {
      EdgeFrom(windows[..n], start, end, x);
    }
  }

  /** A stretch that no sorted point divides and no interruption meets lies in one gap between points. */
  lemma {:induction false} StretchInGap(
    points: seq<real>, windows: seq<Interruption>, start: real, end: real, a: real, b: real)
    requires Ascending(points) && start in points && end in points && start <= a < b <= end
    requires forall x | x in points :: !(a < x < b)
    requires forall k | 0 <= k < |windows| ::
      windows[k].from <= windows[k].to && (windows[k].to <= a || b <= windows[k].from)
    ensures b - a <= Longest(windows, points)
  {
    var s :| 0 <= s < |points| && points[s] == start;
    var i := LastUpTo(points, a);
    var e :| 0 <= e < |points| && points[e] == end;
    assert i < e;
    assert points[i + 1] in points;
    assert !Within(windows, points[i], points[i + 1]);
    LongestCovers(windows, points, i);
  }

  /** Soundness: no free stretch is longer than what the check computes. */
  lemma {:induction false} StretchBounded(
    start: real, end: real, times: seq<real>, windows: seq<Interruption>, a: real, b: real)
    requires Ordered(windows) && FreeStretch(start, end, times, windows, a, b)
    ensures b - a <= Longest(windows, Sorted(Points(start, end, times, windows)))
  {
    var all := Points(start, end, times, windows);
    assert all[0] == start && all[|times| + 1] == end;
    SortedSame(all, start);
    SortedSame(all, end);
    forall x | x in Sorted(all) ensures !(a < x < b) {
      SortedSame(all, x);
      NoPointInside(start, end, times, windows, a, b, x);
    }
    StretchInGap(Sorted(all), windows, start, end, a, b);
  }

  lemma NoPointInside(start: real, end: real, times: seq<real>, windows: seq<Interruption>, a: real, b: real, x: real)
    requires Ordered(windows) && FreeStretch(start, end, times, windows, a, b) &&
      x in Points(start, end, times, windows)
    ensures !(a < x < b)
  {
    var k :| 0 <= k < |Points(start, end, times, windows)| && Points(start, end, times, windows)[k] == x;
    if 1 <= k <= |times| {
      assert x == times[k - 1];
    } else if k >= |times| + 2 {
      assert x == Edges(windows, start, end)[k - |times| - 2];
      EdgeFrom(windows, start, end, x);
      var i :| 0 <= i < |windows| && (x == Clamp(windows[i].from, start, end) || x == Clamp(windows[i].to, start, end));
      assert windows[i].to <= a || b <= windows[i].from;
    }
  }

  ghost predicate InsideRun(start: real, end: real, times: seq<real>) {
    forall i | 0 <= i < |times| :: start <= times[i] <= end
  }

  /** Completeness: with all heartbeats inside the run, a positive result is the length of a free stretch. */
  lemma LongestIsStretch(start: real, end: real, times: seq<real>, windows: seq<Interruption>)
    returns (a: real, b: real)
    requires start <= end && InsideRun(start, end, times)
    requires Longest(windows, Sorted(Points(start, end, times, windows))) > 0.0
    ensures FreeStretch(start, end, times, windows, a, b)
    ensures b - a == Longest(windows, Sorted(Points(start, end, times, windows)))
  {
    var all := Points(start, end, times, windows);
    var i := LongestAttained(windows, Sorted(all));
    a, b := Sorted(all)[i], Sorted(all)[i + 1];
    SortedSame(all, a);
    SortedSame(all, b);
    PointInRun(start, end, times, windows, a);
    PointInRun(start, end, times, windows, b);
    forall x | x in all ensures x <= a || b <= x {
      NothingBetween(all, i, x);
    }
    GapIsFree(start, end, times, windows, a, b);
  }

  lemma GapIsFree(start: real, end: real, times: seq<real>, windows: seq<Interruption>, a: real, b: real)
    requires start <= a < b <= end && !Within(windows, a, b)
    requires forall x | x in Points(start, end, times, windows) :: x <= a || b <= x
    ensures FreeStretch(start, end, times, windows, a, b)
  {
    var all := Points(start, end, times, windows);
    forall k | 0 <= k < |times| ensures !(a < times[k] < b) {
      assert all[k + 1] == times[k] && times[k] in all;
    }
    forall k | 0 <= k < |windows| ensures windows[k].to <= a || b <= windows[k].from {
      EdgeAt(windows, start, end, k);
      assert forall x | x in Edges(windows, start, end) :: x in all;
      assert !(a >= windows[k].from && b <= windows[k].to);
    }
  }

  lemma PointInRun(start: real, end: real, times: seq<real>, windows: seq<Interruption>, x: real)
    requires start <= end && InsideRun(start, end, times) && x in Points(start, end, times, windows)
    ensures start <= x <= end
  {
    if x in Edges(windows, start, end) {
      EdgeFrom(windows, start, end, x);
    }
  }

  /** No point lies strictly between two neighbours in sorted order. */
  lemma {:induction false} NothingBetween(all: seq<real>, i: nat, x: real)
    requires i + 1 < |Sorted(all)| && x in all
    ensures x <= Sorted(all)[i] || Sorted(all)[i + 1] <= x
  {
    SortedSame(all, x);
    Neighbours(Sorted(all), i, x);
  }

  lemma Neighbours(points: seq<real>, i: nat, x: real)
    requires Ascending(points) && i + 1 < |points| && x in points
    ensures x <= points[i] || points[i + 1] <= x
  {
    var k :| 0 <= k < |points| && points[k] == x;
    assert k <= i || i + 1 <= k;
  }

  // ------------------------------------------------- heartbeats outside the run

  /**
   A stretch behind the end or before the start of the run, between two neighbouring heartbeats or
   a heartbeat and that end of the run, that does not lie inside one interruption.
   */
  ghost predicate OutsideGap(start: real, end: real, times: seq<real>, windows: seq<Interruption>, a: real, b: real) {
    && a < b
    && ((end <= a && (a == end || a in times) && b in times) ||
      (b <= start && (b == start || b in times) && a in times))
    && (forall i | 0 <= i < |times| :: !(a < times[i] < b))
    && !Within(windows, a, b)
  }

  /** A stretch the check takes for a gap. */
  ghost predicate CountedGap(start: real, end: real, times: seq<real>, windows: seq<Interruption>, a: real, b: real) {
    FreeStretch(start, end, times, windows, a, b) || OutsideGap(start, end, times, windows, a, b)
  }

  lemma PointKinds(start: real, end: real, times: seq<real>, windows: seq<Interruption>, x: real)
    requires start <= end
    ensures start in Points(start, end, times, windows) && end in Points(start, end, times, windows)
    ensures x in times ==> x in Points(start, end, times, windows)
    ensures x in Points(start, end, times, windows) ==> x in times || start <= x <= end
  {
    var all := Points(start, end, times, windows);
    assert all[0] == start && all[|times| + 1] == end;
    if x in times {
      var i :| 0 <= i < |times| && times[i] == x;
      assert all[i + 1] == x;
    }
    if x in Edges(windows, start, end) {
      EdgeFrom(windows, start, end, x);
    }
  }

  /** No point divides a gap outside the run. */
  lemma OutsideUndivided(
    start: real, end: real, times: seq<real>, windows: seq<Interruption>, a: real, b: real, x: real)
    requires start <= end && OutsideGap(start, end, times, windows, a, b) && x in Points(start, end, times, windows)
    ensures !(a < x < b)
  {
    PointKinds(start, end, times, windows, x);
  }

  /** A gap between two neighbouring points that lies in no interruption is bounded by the result. */
  lemma {:induction false} NeighboursBounded(points: seq<real>, windows: seq<Interruption>, a: real, b: real)
    requires Ascending(points) && a in points && b in points && a < b && !Within(windows, a, b)
    requires forall x | x in points :: !(a < x < b)
    ensures b - a <= Longest(windows, points)
  {
    var k :| 0 <= k < |points| && points[k] == a;
    var i := LastUpTo(points, a);
    var l :| 0 <= l < |points| && points[l] == b;
    assert k <= i < l && points[i] == a;
    assert points[i + 1] in points && points[i + 1] == b;
    LongestCovers(windows, points, i);
  }

  lemma {:induction false} OutsideBounded(
    start: real, end: real, times: seq<real>, windows: seq<Interruption>, a: real, b: real)
    requires start <= end && OutsideGap(start, end, times, windows, a, b)
    ensures b - a <= Longest(windows, Sorted(Points(start, end, times, windows)))
  {
    var all := Points(start, end, times, windows);
    PointKinds(start, end, times, windows, a);
    PointKinds(start, end, times, windows, b);
    SortedSame(all, a);
    SortedSame(all, b);
    forall x | x in Sorted(all) ensures !(a < x < b) {
      SortedSame(all, x);
      OutsideUndivided(start, end, times, windows, a, b, x);
    }
    NeighboursBounded(Sorted(all), windows, a, b);
  }

  /** A gap between neighbouring points lies inside the run or outside it. */
  lemma GapIsCounted(start: real, end: real, times: seq<real>, windows: seq<Interruption>, a: real, b: real)
    requires start <= end && a < b && !Within(windows, a, b)
    requires a in Points(start, end, times, windows) && b in Points(start, end, times, windows)
    requires forall x | x in Points(start, end, times, windows) :: x <= a || b <= x
    ensures CountedGap(start, end, times, windows, a, b)
  {
    PointKinds(start, end, times, windows, a);
    PointKinds(start, end, times, windows, b);
    if start <= a && b <= end {
      GapIsFree(start, end, times, windows, a, b);
    } else {
      forall i | 0 <= i < |times| ensures !(a < times[i] < b) {
        PointKinds(start, end, times, windows, times[i]);
      }
    }
  }

  /** A positive result is the length of such a gap, wherever the heartbeats lie. */
  lemma LongestIsCounted(start: real, end: real, times: seq<real>, windows: seq<Interruption>)
    returns (a: real, b: real)
    requires start <= end && Longest(windows, Sorted(Points(start, end, times, windows))) > 0.0
    ensures CountedGap(start, end, times, windows, a, b)
    ensures b - a == Longest(windows, Sorted(Points(start, end, times, windows)))
  {
    var all := Points(start, end, times, windows);
    var i := LongestAttained(windows, Sorted(all));
    a, b := Sorted(all)[i], Sorted(all)[i + 1];
    SortedSame(all, a);
    SortedSame(all, b);
    forall x | x in all ensures x <= a || b <= x {
      NothingBetween(all, i, x);
    }
    GapIsCounted(start, end, times, windows, a, b);
  }

  /** The result exceeds a bound exactly when a free stretch of the run does, or a gap outside the run. */
  lemma {:induction false} LongestExactly(
    start: real, end: real, times: seq<real>, windows: seq<Interruption>, allowed: real)
    requires start <= end && Ordered(windows) && allowed >= 0.0
    ensures Longest(windows, Sorted(Points(start, end, times, windows))) > allowed <==>
      exists a, b :: CountedGap(start, end, times, windows, a, b) && b - a > allowed
  {
    if Longest(windows, Sorted(Points(start, end, times, windows))) > allowed {
      var a, b := LongestIsCounted(start, end, times, windows);
    }
    forall a, b | CountedGap(start, end, times, windows, a, b) && b - a > allowed
      ensures Longest(windows, Sorted(Points(start, end, times, windows))) > allowed
    {
      if FreeStretch(start, end, times, windows, a, b) {
        StretchBounded(start, end, times, windows, a, b);
      } else {
        OutsideBounded(start, end, times, windows, a, b);
      }
    }
  }

  /**
   A device that announces a timeout of four seconds, of which six are allowed, never leaves more than
   four seconds of the run free; a heartbeat recorded seven seconds after the end makes it fail.
   */
  lemma HeartbeatAfterEnd()
    ensures
      var times := [4.0, 8.0, 17.0];
      && Allowed(4.0) == 6.0
      && Longest([], Sorted(Points(0.0, 10.0, times, []))) > Allowed(4.0)
      && forall a, b | FreeStretch(0.0, 10.0, times, [], a, b) :: b - a <= 4.0
  {
    var times := [4.0, 8.0, 17.0];
    assert 17.0 in times by {
      assert times[2] == 17.0;
    }
    assert OutsideGap(0.0, 10.0, times, [], 10.0, 17.0);
    OutsideBounded(0.0, 10.0, times, [], 10.0, 17.0);
    forall a, b | FreeStretch(0.0, 10.0, times, [], a, b) ensures b - a <= 4.0 {
      assert !(a < times[0] < b) && !(a < times[1] < b);
    }
  }

  // ------------------------------------------------- the verdict

  datatype Status = Passed | Failed | Skipped

  /** The timeout announced last, when positive; 60 s otherwise. */
  function Timeout(announced: seq<Option<real>>): real {
    if announced == [] then 60.0
    else
      match announced[|announced| - 1]
      case Some(t) => if t > 0.0 then t else Timeout(announced[..|announced| - 1])
      case None => Timeout(announced[..|announced| - 1])
  }

  function Allowed(timeout: real): real {
    timeout + Max(2.0, timeout * 0.1)
  }

  /** The last positive timeout among the announcements, in seconds; 60 s if there is none. */
  ghost predicate AnnouncedLast(announced: seq<Option<real>>, timeout: real) {
    || (exists k :: 0 <= k < |announced| && announced[k] == Some(timeout) && LastPositive(announced, k))
    || (timeout == 60.0 && forall k | 0 <= k < |announced| :: !Positive(announced[k]))
  }

  predicate Positive(t: Option<real>) {
    t.Some? && t.value > 0.0
  }

  predicate LastPositive(announced: seq<Option<real>>, k: int)
    requires 0 <= k < |announced|
  {
    Positive(announced[k]) && forall i | k < i < |announced| :: !Positive(announced[i])
  }

  lemma {:induction false} TimeoutIsLast(announced: seq<Option<real>>)
    ensures AnnouncedLast(announced, Timeout(announced))
  {
    if announced != [] {
      var n := |announced| - 1;
      TimeoutIsLast(announced[..n]);
      if Positive(announced[n]) {
        assert LastPositive(announced, n);
      } else if k :| 0 <= k < n && announced[k] == Some(Timeout(announced[..n])) && LastPositive(announced[..n], k) {
        assert LastPositive(announced, k);
      }
    }
  }

  /** At most a tenth of the timeout late, or two seconds if that is more. */
  predicate Exceeds(gap: real, timeout: real) {
    gap > timeout + 2.0 && 10.0 * gap > 11.0 * timeout
  }

  lemma ExceedsAllowed(gap: real, timeout: real)
    ensures Exceeds(gap, timeout) <==> gap > Allowed(timeout)
  {
  }

  /**
   The device fails exactly when some free stretch of the run, or some gap between heartbeats recorded
   outside it, exceeds the announced timeout plus jitter, unless frames were lost or the run was too
   short to expect a heartbeat at all.
   */
  method HeartbeatCheck(
    times: seq<real>, overrun: bool, start: real, end: real, windows: seq<Interruption>, announced: seq<Option<real>>)
    returns (status: Status, longest: real, ghost t: real)
    ensures AnnouncedLast(announced, t)
    ensures longest == Longest(windows, Sorted(Points(start, end, times, windows)))
    ensures status == Skipped <==> overrun || (times == [] && end - start <= t)
    ensures start <= end && Ordered(windows) && status != Skipped ==>
      (status == Failed <==>
        exists a, b :: CountedGap(start, end, times, windows, a, b) && Exceeds(b - a, t))
  {
    var timeout := 60.0;
    for k := 0 to |announced|
      invariant timeout == Timeout(announced[..k]) && timeout > 0.0
    {
      assert announced[..k + 1][..k] == announced[..k];
      if announced[k].Some? && announced[k].value > 0.0 {
        timeout := announced[k].value;
      }
    }
    assert announced[..|announced|] == announced;
    t := timeout;
    TimeoutIsLast(announced);
    var points := [start] + times + [end];
    for k := 0 to |windows|
      invariant points == Points(start, end, times, windows[..k])
    {
      assert windows[..k + 1][..k] == windows[..k];
      points := points + [Clamp(windows[k].from, start, end), Clamp(windows[k].to, start, end)];
    }
    assert windows[..|windows|] == windows;
    points := Sorted(points);
    longest := LongestGap(windows, points);
    var allowed := timeout + Max(2.0, timeout * 0.1);
    if overrun {
      status := Skipped;
    } else if |times| == 0 && end - start <= timeout {
      status := Skipped;
    } else if longest > allowed {
      status := Failed;
    } else {
      status := Passed;
    }
    if start <= end && Ordered(windows) {
      LongestExactly(start, end, times, windows, allowed);
      forall gap: real ensures Exceeds(gap, t) <==> gap > allowed {
        ExceedsAllowed(gap, t);
      }
    }
  }

  method LongestGap(windows: seq<Interruption>, points: seq<real>) returns (longest: real)
    ensures longest == Longest(windows, points)
  {
    longest := 0.0;
    var i := 1;
    while i < |points|
      invariant 1 <= i && (points != [] ==> i <= |points|)
      invariant longest == if points == [] then 0.0 else Longest(windows, points[..i])
    {
      assert points[..i + 1][..i] == points[..i];
      if !Within(windows, points[i - 1], points[i]) {
        longest := Max(longest, points[i] - points[i - 1]);
      }
      i := i + 1;
    }
    assert points[..|points|] == points;
  }
}
