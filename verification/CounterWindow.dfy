/**
 internal/conformance/session.go, counterWindow: message counters must not repeat. The window
 keeps 256 of them; what it answers is compared here with the whole stream of counters observed.
 */
module CounterWindow {
  const WINDOW_SIZE: nat := 256

  // ------------------------------------------------- the unbounded history

  /** Every fresh counter since the last restart, with nothing forgotten, and the largest of them. */
  datatype Log = Log(used: seq<real>, max: real)

  const START := Log([], 0.0)

  function Last(s: seq<real>, n: nat): seq<real> {
    if |s| <= n then s else s[|s| - n..]
  }

  /** A counter far below the maximum: the sender rebooted. */
  predicate Restarts(log: Log, counter: real) {
    counter < log.max / 4.0 && counter <= 64.0
  }

  function Kept(log: Log, counter: real): Log {
    if Restarts(log, counter) then START else log
  }

  /** The counter is among the last 256 fresh ones since the last restart. */
  predicate Repeats(log: Log, counter: real) {
    counter in Last(Kept(log, counter).used, WINDOW_SIZE)
  }

  function Record(log: Log, counter: real): Log {
    var kept := Kept(log, counter);
    if Repeats(log, counter) then kept
    else Log(kept.used + [counter], if counter > kept.max then counter else kept.max)
  }

  // ------------------------------------------------- the window itself

  function SetOf(s: seq<real>): set<real> {
    set i | 0 <= i < |s| :: s[i]
  }

  predicate Distinct(s: seq<real>) {
    forall i, j | 0 <= i < j < |s| :: s[i] != s[j]
  }

  function Trim(order: seq<real>): seq<real> {
    if |order| > WINDOW_SIZE then order[1..] else order
  }

  lemma PushLast(used: seq<real>, counter: real)
    ensures Last(used + [counter], WINDOW_SIZE) == Trim(Last(used, WINDOW_SIZE) + [counter])
  {}

  lemma PushSet(order: seq<real>, counter: real)
    requires Distinct(order) && counter !in SetOf(order)
    ensures Distinct(Trim(order + [counter]))
    ensures |order| < WINDOW_SIZE ==> SetOf(Trim(order + [counter])) == SetOf(order) + {counter}
    ensures |order| == WINDOW_SIZE ==> SetOf(Trim(order + [counter])) == SetOf(order) + {counter} - {order[0]}
  {
    var pushed := order + [counter];
    assert forall i | 0 <= i < |order| :: pushed[i] == order[i] && pushed[i] in SetOf(order);
    assert Distinct(pushed);
    assert pushed[|order|] == counter;
    assert SetOf(pushed) == SetOf(order) + {counter};
    if |order| == WINDOW_SIZE {
      assert forall i | 0 <= i < |order| :: pushed[1..][i] == pushed[i + 1];
      forall x | x in SetOf(pushed) - {order[0]} ensures x in SetOf(pushed[1..]) {
        var i :| 0 <= i < |pushed| && pushed[i] == x;
        assert pushed[1..][i - 1] == x;
      }
    }
  }

  class Window {
    var seen: set<real>
    var order: seq<real>
    var max: real
    ghost var log: Log

    ghost predicate Valid()
      reads this
    {
      && order == Last(log.used, WINDOW_SIZE)
      && seen == SetOf(order)
      && max == log.max
      && Distinct(order)
    }

    constructor ()
      ensures Valid() && log == START
    {
      seen, order, max, log := {}, [], 0.0, START;
    }

    /** The bounded window answers as the unbounded history does. */
    method Observe(counter: real) returns (duplicate: bool)
      requires Valid()
      modifies this
      ensures Valid()
      ensures duplicate == Repeats(old(log), counter)
      ensures log == Record(old(log), counter)
    {
      if counter < max / 4.0 && counter <= 64.0 {
        seen, order, max, log := {}, [], 0.0, START;
      }
      assert log == Kept(old(log), counter);
      if counter in seen {
        return true;
      }
      PushLast(log.used, counter);
      PushSet(order, counter);
      seen := seen + {counter};
      order := order + [counter];
      if |order| > WINDOW_SIZE {
        seen := seen - {order[0]};
        order := order[1..];
      }
      if counter > max {
        max := counter;
      }
      log := Log(log.used + [counter], max);
      return false;
    }
  }

  // ------------------------------------------------- over a whole stream

  /** The log before message k of the stream. */
  function LogAt(h: seq<real>, k: nat): Log
    requires k <= |h|
  {
    if k == 0 then START else Record(LogAt(h, k - 1), h[k - 1])
  }

  predicate RestartAt(h: seq<real>, k: nat)
    requires k < |h|
  {
    Restarts(LogAt(h, k), h[k])
  }

  predicate Flagged(h: seq<real>, k: nat)
    requires k < |h|
  {
    Repeats(LogAt(h, k), h[k])
  }

  /** How many counters strictly between positions i and k were fresh. */
  function FreshBetween(h: seq<real>, i: nat, k: nat): nat
    requires k <= |h|
  {
    if k <= i + 1 then 0 else FreshBetween(h, i, k - 1) + Fresh(h, k - 1)
  }

  function Fresh(h: seq<real>, k: nat): nat
    requires k < |h|
  {
    if Flagged(h, k) then 0 else 1
  }

  predicate NoRestart(h: seq<real>, from: nat, to: nat)
    requires to <= |h|
  {
    forall m | from <= m < to :: !RestartAt(h, m)
  }

  /** The stream positions of the counters in LogAt(h, k). */
  ghost function Positions(h: seq<real>, k: nat): seq<nat>
    requires k <= |h|
  {
    if k == 0 then [] else Extended(h, k - 1, Positions(h, k - 1))
  }

  /** ps are positions before k that carried these counters. */
  ghost predicate Carried(h: seq<real>, k: nat, ps: seq<nat>, used: seq<real>) {
    |ps| == |used| && forall p | 0 <= p < |ps| :: ps[p] < k <= |h| && h[ps[p]] == used[p]
  }

  lemma CarriedSnoc(h: seq<real>, k: nat, ps: seq<nat>, used: seq<real>)
    requires k < |h| && Carried(h, k, ps, used)
    ensures Carried(h, k + 1, ps + [k], used + [h[k]]) && Carried(h, k + 1, ps, used)
  {
  }

  lemma {:induction false} PositionsCarried(h: seq<real>, k: nat)
    requires k <= |h|
    ensures Carried(h, k, Positions(h, k), LogAt(h, k).used)
  {
    if k > 0 {
      PositionsCarried(h, k - 1);
      if RestartAt(h, k - 1) {
        CarriedSnoc(h, k - 1, [], []);
      } else {
        CarriedSnoc(h, k - 1, Positions(h, k - 1), LogAt(h, k - 1).used);
      }
    }
  }

  /** Message i was fresh, the sender did not restart since, and so many fresh counters followed before k. */
  ghost predicate UsedBefore(h: seq<real>, k: nat, i: nat, newer: int)
    requires k <= |h|
  {
    i < k && !Flagged(h, i) && NoRestart(h, i + 1, k) && FreshBetween(h, i, k) == newer
  }

  lemma UsedStep(h: seq<real>, k: nat, i: nat, newer: int)
    requires k < |h| && UsedBefore(h, k, i, newer) && !RestartAt(h, k)
    ensures UsedBefore(h, k + 1, i, newer + Fresh(h, k))
  {
  }

  lemma UsedNew(h: seq<real>, k: nat)
    requires k < |h| && !Flagged(h, k)
    ensures UsedBefore(h, k + 1, k, 0)
  {
  }

  /** Each position stands for a fresh use, and the ones behind it are all the newer ones. */
  ghost predicate Meant(h: seq<real>, k: nat, ps: seq<nat>)
    requires k <= |h|
  {
    forall p | 0 <= p < |ps| :: UsedBefore(h, k, ps[p], |ps| - 1 - p)
  }

  function Extended(h: seq<real>, k: nat, ps: seq<nat>): seq<nat>
    requires k < |h|
  {
    (if RestartAt(h, k) then [] else ps) + if Flagged(h, k) then [] else [k]
  }

  lemma MeantNext(h: seq<real>, k: nat, ps: seq<nat>, next: seq<nat>)
    requires 0 < k <= |h| && Meant(h, k - 1, ps) && next == Extended(h, k - 1, ps)
    ensures Meant(h, k, next)
  {
    forall p | 0 <= p < |next| ensures UsedBefore(h, k, next[p], |next| - 1 - p) {
      if !RestartAt(h, k - 1) && p < |ps| {
        UsedStep(h, k - 1, ps[p], |ps| - 1 - p);
      } else {
        UsedNew(h, k - 1);
      }
    }
  }

  lemma {:induction false} PositionsMeaning(h: seq<real>, k: nat)
    requires k <= |h|
    ensures Meant(h, k, Positions(h, k))
  {
    if k == 0 {
      assert Positions(h, 0) == [];
    } else {
      PositionsMeaning(h, k - 1);
      MeantNext(h, k, Positions(h, k - 1), Positions(h, k));
    }
  }

  lemma {:induction false} PositionsComplete(h: seq<real>, k: nat, i: nat)
    requires i < k <= |h| && !Flagged(h, i) && NoRestart(h, i + 1, k)
    ensures i in Positions(h, k)
    decreases k
  {
    if i < k - 1 {
      PositionsComplete(h, k - 1, i);
      assert !RestartAt(h, k - 1);
    } else {
      var ps := Positions(h, k);
      assert ps[|ps| - 1] == i;
    }
  }

  /** Position i carried the counter of message k as a fresh one, recently and in the same epoch. */
  predicate RecentUse(h: seq<real>, i: nat, k: nat)
    requires i < k < |h|
  {
    h[i] == h[k] && !Flagged(h, i) && NoRestart(h, i + 1, k + 1) && FreshBetween(h, i, k) < WINDOW_SIZE
  }

  /**
   A counter is flagged exactly when an earlier message carried it as a fresh counter, the sender
   did not restart since, and fewer than 256 fresh counters came in between.
   */
  lemma FlaggedExactly(h: seq<real>, k: nat)
    requires k < |h|
    ensures Flagged(h, k) <==> exists i :: 0 <= i < k && RecentUse(h, i, k)
  {
    if Flagged(h, k) {
      var i := FlaggedUse(h, k);
    }
    forall i | 0 <= i < k && RecentUse(h, i, k) ensures Flagged(h, k) {
      UseFlagged(h, i, k);
    }
  }

  lemma FlaggedUse(h: seq<real>, k: nat) returns (i: nat)
    requires k < |h| && Flagged(h, k)
    ensures i < k && RecentUse(h, i, k)
  {
    assert !RestartAt(h, k);
    var p := InLast(LogAt(h, k).used, h[k]);
    PositionsCarried(h, k);
    PositionsMeaning(h, k);
    i := Positions(h, k)[p];
    RecentFrom(h, i, k);
  }

  lemma {:induction false} RecentFrom(h: seq<real>, i: nat, k: nat)
    requires i < k < |h| && h[i] == h[k] && !Flagged(h, i) && FreshBetween(h, i, k) < WINDOW_SIZE
    requires NoRestart(h, i + 1, k) && !RestartAt(h, k)
    ensures RecentUse(h, i, k)
  {
  }

  lemma InLast(used: seq<real>, counter: real) returns (p: nat)
    requires counter in Last(used, WINDOW_SIZE)
    ensures p < |used| <= p + WINDOW_SIZE && used[p] == counter
  {
    var w :| 0 <= w < |Last(used, WINDOW_SIZE)| && Last(used, WINDOW_SIZE)[w] == counter;
    p := |used| - |Last(used, WINDOW_SIZE)| + w;
  }

  lemma UseFlagged(h: seq<real>, i: nat, k: nat)
    requires i < k < |h| && RecentUse(h, i, k)
    ensures Flagged(h, k)
  {
    assert !RestartAt(h, k);
    PositionsComplete(h, k, i) by { assert NoRestart(h, i + 1, k); }
    var used, ps := LogAt(h, k).used, Positions(h, k);
    var p :| 0 <= p < |ps| && ps[p] == i;
    PositionsCarried(h, k);
    PositionsMeaning(h, k);
    AmongLast(used, p);
  }

  lemma AmongLast(used: seq<real>, p: nat)
    requires p < |used| <= p + WINDOW_SIZE
    ensures used[p] in Last(used, WINDOW_SIZE)
  {
    var last := Last(used, WINDOW_SIZE);
    assert last[|last| - (|used| - p)] == used[p];
  }

  /** Reuse soon after a fresh use is always caught, unless the counter looks like a restart. */
  lemma {:induction false} ReuseCaught(h: seq<real>, i: nat, k: nat)
    requires i < k < |h| && h[i] == h[k] && !Flagged(h, i) && k - i <= WINDOW_SIZE
    requires NoRestart(h, i + 1, k)
    requires h[k] > 64.0 || h[k] >= LogAt(h, k).max / 4.0
    ensures Flagged(h, k)
  {
    FreshBetweenBound(h, i, k);
    UseFlagged(h, i, k);
  }

  lemma {:induction false} FreshBetweenBound(h: seq<real>, i: nat, k: nat)
    requires i < k <= |h|
    ensures FreshBetween(h, i, k) <= k - i - 1
    decreases k
  {
    if i + 1 < k {
      FreshBetweenBound(h, i, k - 1);
    }
  }

  /** The recorded maximum is the largest fresh counter since the last restart. */
  lemma {:induction false} MaxIsLargest(h: seq<real>, k: nat)
    requires k <= |h|
    ensures var log := LogAt(h, k);
      && (forall i | 0 <= i < |log.used| :: log.used[i] <= log.max)
      && 0.0 <= log.max && (log.max == 0.0 || log.max in log.used)
  {
    if k > 0 {
      MaxIsLargest(h, k - 1);
      var log := LogAt(h, k);
      assert log.used != [] ==> log.used[|log.used| - 1] in log.used;
    }
  }

  /**
   A counter restarts the window exactly when it is at most 64 and below a quarter of some fresh counter since
   the last restart, or negative. It is then not flagged, and all counters before it are forgotten.
   */
  lemma {:induction false} RestartExactly(h: seq<real>, k: nat)
    requires k < |h|
    ensures RestartAt(h, k) <==> h[k] <= 64.0 && (h[k] < 0.0 || exists i :: LargerBefore(h, k, i))
    ensures RestartAt(h, k) ==> !Flagged(h, k) && LogAt(h, k + 1).used == [h[k]]
  {
    var log, ps := LogAt(h, k), Positions(h, k);
    MaxIsLargest(h, k);
    PositionsCarried(h, k);
    PositionsMeaning(h, k);
    if log.max > 0.0 && 4.0 * h[k] < log.max {
      var p :| 0 <= p < |log.used| && log.used[p] == log.max;
      assert UsedBefore(h, k, ps[p], |ps| - 1 - p);
      assert LargerBefore(h, k, ps[p]);
    }
    if i :| LargerBefore(h, k, i) {
      PositionsComplete(h, k, i);
      var p :| 0 <= p < |ps| && ps[p] == i;
      assert log.used[p] == h[i];
    }
  }

  /** Message i was fresh, the sender did not restart since, and its counter is more than four times that of k. */
  predicate LargerBefore(h: seq<real>, k: nat, i: int)
    requires k < |h|
  {
    0 <= i < k && !Flagged(h, i) && NoRestart(h, i + 1, k) && h[i] > 4.0 * h[k]
  }

  ghost predicate Increasing(h: seq<real>) {
    (forall i | 0 <= i < |h| :: 0.0 < h[i]) && (forall i, j | 0 <= i < j < |h| :: h[i] < h[j])
  }

  /** A sender that only counts upwards leaves every counter in the log. */
  lemma {:induction false} IncreasingLog(h: seq<real>, k: nat)
    requires k <= |h| && Increasing(h)
    ensures LogAt(h, k) == Log(h[..k], if k == 0 then 0.0 else h[k - 1])
  {
    if k > 0 {
      IncreasingLog(h, k - 1);
      IncreasingStep(h[..k - 1], if k == 1 then 0.0 else h[k - 2], h[k - 1]);
      assert h[..k - 1] + [h[k - 1]] == h[..k];
    }
  }

  /** And is never flagged. */
  lemma IncreasingNeverFlagged(h: seq<real>, k: nat)
    requires k < |h| && Increasing(h)
    ensures !Flagged(h, k)
  {
    IncreasingLog(h, k);
    IncreasingStep(h[..k], if k == 0 then 0.0 else h[k - 1], h[k]);
  }

  lemma IncreasingStep(used: seq<real>, max: real, counter: real)
    requires 0.0 <= max < counter && forall i | 0 <= i < |used| :: used[i] < counter
    ensures !Repeats(Log(used, max), counter)
    ensures Record(Log(used, max), counter) == Log(used + [counter], counter)
  {
    assert !Restarts(Log(used, max), counter);
    if counter in Last(used, WINDOW_SIZE) {
      var p := InLast(used, counter);
    }
  }

  lemma {:induction false} LogPrefix(h: seq<real>, n: nat, k: nat)
    requires k <= n <= |h|
    ensures LogAt(h[..n], k) == LogAt(h, k)
  {
    if k > 0 {
      LogPrefix(h, n, k - 1);
    }
  }

  /** A window full of increasing counters, the oldest of them again, a new one, and the oldest once more. */
  ghost predicate OldestAgain(h: seq<real>) {
    && |h| == WINDOW_SIZE + 3
    && Increasing(h[..WINDOW_SIZE]) && h[0] > 64.0
    && h[WINDOW_SIZE] == h[0] == h[WINDOW_SIZE + 2]
    && h[WINDOW_SIZE + 1] > 64.0 && h[WINDOW_SIZE + 1] !in h[..WINDOW_SIZE]
  }

  /**
   A flagged counter does not count as a new use: the reuse is flagged, but once its first use has left
   the window, the next reuse goes unseen although the sender reused it only moments ago.
   */
  lemma ReuseOfFlaggedForgotten(h: seq<real>)
    requires OldestAgain(h)
    ensures Flagged(h, WINDOW_SIZE) && !Flagged(h, WINDOW_SIZE + 1) && !Flagged(h, WINDOW_SIZE + 2)
  {
    var n := WINDOW_SIZE;
    var used := h[..n];
    IncreasingLog(used, n);
    LogPrefix(h, n, n);
    assert used[..n] == used;
    var log := LogAt(h, n);
    assert log.used == used && used[0] == h[0];
    assert forall i | 0 < i < n :: used[i] != h[0];
    FullWindow(log, h[0], h[n + 1]);
    assert LogAt(h, n + 1) == Record(log, h[n]);
    assert LogAt(h, n + 2) == Record(LogAt(h, n + 1), h[n + 1]);
  }

  lemma FullWindow(log: Log, a: real, b: real)
    requires |log.used| == WINDOW_SIZE && log.used[0] == a && forall i | 0 < i < |log.used| :: log.used[i] != a
    requires a > 64.0 && b > 64.0 && b !in log.used
    ensures Repeats(log, a) && Record(log, a) == log
    ensures !Repeats(log, b) && !Repeats(Record(log, b), a)
  {
    assert Last(log.used, WINDOW_SIZE) == log.used;
    assert Last(log.used + [b], WINDOW_SIZE) == log.used[1..] + [b];
  }
}
