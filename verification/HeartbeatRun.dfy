/**
 internal/testrun: the heartbeats the monitor collects and the check on them, taken together. The run is
 stamped before the monitor learns where the trace stands, so heartbeats that arrive in between belong to
 the run but are never collected.
 */
module HeartbeatRun {
  import opened Trace
  import opened Polling
  import opened GapAnalysis

  /** The times of the device's heartbeats among these frames of the log. */
  function Beats(log: seq<Frame>, from: nat, to: nat, ski: string): seq<real>
    requires from <= to <= |log|
  {
    HeartbeatTimes(Own(Numbered(log, from, to), ski))
  }

  /** The device left a stretch of the run free for longer than allowed. */
  ghost predicate LeavesGap(
    start: real, end: real, times: seq<real>, windows: seq<Interruption>, allowed: real)
  {
    exists a, b :: FreeStretch(start, end, times, windows, a, b) && b - a > allowed
  }

  /** What the device sent during the run is what arrived before the monitor's start, and what it collected. */
  lemma {:induction false} CollectedAfterStart(s: Run, events: seq<Event>, stamp: nat, start: nat, ski: string)
    requires ValidRing(s.ring) && Begins(s, start) && stamp <= start
    requires !RunOf(s, events + [Sample]).cursor.overrun && !ClearLost(s, events + [Sample])
    ensures
      var t := RunOf(s, events + [Sample]);
      Beats(t.ring.log, stamp, |t.ring.log|, ski) ==
      Beats(t.ring.log, stamp, start, ski) + HeartbeatTimes(Own(t.cursor.covered, ski))
  {
    var log := RunOf(s, events + [Sample]).ring.log;
    FinalSample(s, events, start, ski);
    var early, late := Numbered(log, stamp, start), Numbered(log, start, |log|);
    assert Numbered(log, stamp, |log|) == early + late;
    OwnConcat(early, late, ski);
    TimesConcat(Own(early, ski), Own(late, ski));
  }

  lemma FreeOfBoth(
    start: real, end: real, early: seq<real>, times: seq<real>, windows: seq<Interruption>, a: real, b: real)
    ensures
      FreeStretch(start, end, early + times, windows, a, b) <==>
      FreeStretch(start, end, times, windows, a, b) && forall i | 0 <= i < |early| :: !(a < early[i] < b)
  {
    var all := early + times;
    if FreeStretch(start, end, all, windows, a, b) {
      assert forall i | 0 <= i < |early| :: early[i] == all[i];
      assert forall i | 0 <= i < |times| :: times[i] == all[|early| + i];
    }
  }

  /**
   A gap the device left is always found in the collected heartbeats; one found there is the device's
   exactly when none of the heartbeats that arrived too early to be collected lies in it.
   */
  lemma {:induction false} GapIsDevices(
    start: real, end: real, early: seq<real>, times: seq<real>, windows: seq<Interruption>, allowed: real)
    requires start <= end && Ordered(windows) && allowed >= 0.0
    ensures LeavesGap(start, end, early + times, windows, allowed) ==>
      Longest(windows, Sorted(Points(start, end, times, windows))) > allowed
    ensures
      LeavesGap(start, end, early + times, windows, allowed) <==>
      exists a, b ::
        && FreeStretch(start, end, times, windows, a, b) && b - a > allowed
        && forall i | 0 <= i < |early| :: !(a < early[i] < b)
  {
    forall a, b | FreeStretch(start, end, early + times, windows, a, b) && b - a > allowed
      ensures FreeStretch(start, end, times, windows, a, b) && forall i | 0 <= i < |early| :: !(a < early[i] < b)
      ensures Longest(windows, Sorted(Points(start, end, times, windows))) > allowed
    {
      FreeOfBoth(start, end, early, times, windows, a, b);
      StretchBounded(start, end, times, windows, a, b);
    }
    forall a, b | FreeStretch(start, end, times, windows, a, b) && b - a > allowed
      && forall i | 0 <= i < |early| :: !(a < early[i] < b)
      ensures FreeStretch(start, end, early + times, windows, a, b)
    {
      FreeOfBoth(start, end, early, times, windows, a, b);
    }
  }

  /**
   So when the heartbeats lie in the run, a gap that exceeds what is allowed by more than the time in
   which the early ones arrived is the device's.
   */
  lemma {:induction false} OverstatedByDelay(
    start: real, end: real, early: seq<real>, times: seq<real>, windows: seq<Interruption>, allowed: real, delay: real)
    requires start <= end && Ordered(windows) && InsideRun(start, end, times) && allowed >= 0.0 && delay >= 0.0
    requires forall i | 0 <= i < |early| :: early[i] <= start + delay
    requires Longest(windows, Sorted(Points(start, end, times, windows))) > allowed + delay
    ensures LeavesGap(start, end, early + times, windows, allowed)
  {
    var a, b := LongestIsStretch(start, end, times, windows);
    var from := Max(a, start + delay);
    FreeOfBoth(start, end, early, times, windows, from, b);
    assert FreeStretch(start, end, early + times, windows, from, b);
  }

  /**
   A device that announces a timeout of four seconds and keeps to it fails when its first heartbeat comes
   before the monitor starts.
   */
  lemma EarlyHeartbeatUnseen()
    ensures
      var early, times := [3.0], [7.0, 11.0];
      && Longest([], Sorted(Points(0.0, 12.0, times, []))) > Allowed(4.0)
      && !LeavesGap(0.0, 12.0, early + times, [], Allowed(4.0))
      && forall a, b | FreeStretch(0.0, 12.0, early + times, [], a, b) :: b - a <= 4.0
  {
    var early, times := [3.0], [7.0, 11.0];
    var all := early + times;
    StretchBounded(0.0, 12.0, times, [], 0.0, 7.0);
    forall a, b | FreeStretch(0.0, 12.0, all, [], a, b) ensures b - a <= 4.0 {
      assert !(a < all[0] < b) && !(a < all[1] < b) && !(a < all[2] < b);
    }
  }
}
