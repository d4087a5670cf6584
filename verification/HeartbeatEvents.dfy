/**
 internal/eebusgo/heartbeat.go: the cadence in force and the counters published, read off the calls alone.
 */
module HeartbeatEvents {
  import opened Options
  import opened Heartbeat

  // ------------------------------------------------- the cadence

  /** The interval a call asks for: its own, or the timeout less two seconds, or a timeout no longer than that. */
  function AskedInterval(e: Event): int
    requires e.SetCadence?
  {
    if e.interval != 0 then e.interval
    else if e.timeout <= 2_000_000_000 then e.timeout
    else e.timeout - 2_000_000_000
  }

  /** A call that takes effect: both times are from one second to an hour. */
  predicate InBounds(e: Event) {
    && e.SetCadence?
    && 1_000_000_000 <= e.timeout <= 3_600_000_000_000
    && 1_000_000_000 <= AskedInterval(e) <= 3_600_000_000_000
  }

  /** The last call that took effect is event k. */
  predicate LastSet(events: seq<Event>, k: nat) {
    k < |events| && InBounds(events[k]) && forall i | k < i < |events| :: !InBounds(events[i])
  }

  ghost predicate EverSet(events: seq<Event>) {
    exists k: nat :: LastSet(events, k)
  }

  /** These are the interval and the timeout of the last call that took effect, or the initial ones. */
  ghost predicate CadenceOf(start: State, events: seq<Event>, interval: int, timeout: int) {
    if start.hasFeature && EverSet(events)
    then forall k: nat | LastSet(events, k) :: interval == AskedInterval(events[k]) && timeout == events[k].timeout
    else interval == start.interval && timeout == start.timeout
  }

  lemma LastSetSnoc(events: seq<Event>)
    requires events != []
    ensures InBounds(events[|events| - 1]) ==> LastSet(events, |events| - 1)
    ensures !InBounds(events[|events| - 1]) ==>
      forall k: nat :: LastSet(events, k) <==> LastSet(events[..|events| - 1], k)
    ensures InBounds(events[|events| - 1]) ==> forall k: nat | LastSet(events, k) :: k == |events| - 1
  {
  }

  lemma CadenceSet(start: State, events: seq<Event>)
    requires events != [] && start.hasFeature && InBounds(events[|events| - 1])
    ensures
      var e := events[|events| - 1];
      LastSet(events, |events| - 1) && CadenceOf(start, events, AskedInterval(e), e.timeout)
  {
    LastSetSnoc(events);
  }

  lemma CadenceStays(start: State, events: seq<Event>, interval: int, timeout: int)
    requires events != [] && (!start.hasFeature || !InBounds(events[|events| - 1]))
    requires CadenceOf(start, events[..|events| - 1], interval, timeout)
    ensures CadenceOf(start, events, interval, timeout)
    ensures start.hasFeature ==>
      (EverSet(events) <==> EverSet(events[..|events| - 1]))
  {
    var before := events[..|events| - 1];
    if start.hasFeature {
      LastSetSnoc(events);
      if k: nat :| LastSet(before, k) {
        assert LastSet(events, k);
      }
      forall k: nat | LastSet(events, k) ensures LastSet(before, k) && before[k] == events[k] {
      }
    }
  }

  lemma CadenceStep(s: State, e: Event)
    ensures Step(s, e).hasFeature == s.hasFeature
    ensures
      var t := Step(s, e);
      if s.hasFeature && InBounds(e) then t.interval == AskedInterval(e) && t.timeout == e.timeout && t.paced
      else t.interval == s.interval && t.timeout == s.timeout && t.paced == s.paced
  {
  }

  /** In every run the cadence is the one set last, and the pacer has taken over exactly if one was set. */
  lemma {:induction false} CadenceIsLastSet(start: State, events: seq<Event>)
    requires Initial(start)
    ensures
      var t := RunOf(start, events);
      && t.hasFeature == start.hasFeature && CadenceOf(start, events, t.interval, t.timeout)
      && (t.paced <==> start.hasFeature && EverSet(events))
  {
    if events != [] {
      var before := events[..|events| - 1];
      CadenceIsLastSet(start, before);
      CadenceStep(RunOf(start, before), events[|events| - 1]);
      if start.hasFeature && InBounds(events[|events| - 1]) {
        CadenceSet(start, events);
      } else {
        CadenceStays(start, events, RunOf(start, before).interval, RunOf(start, before).timeout);
      }
    }
  }

  /**
   Whenever a goroutine publishes, it announces the timeout set last and was started with the interval set
   last, both as the calls before that beat asked for them.
   */
  lemma {:induction false} BeatFollowsCadence(start: State, events: seq<Event>, g: nat)
    requires Initial(start) && RunOf(start, events + [SenderBeat(g)]).beats != RunOf(start, events).beats
    ensures
      var s, t := RunOf(start, events), RunOf(start, events + [SenderBeat(g)]);
      && g < |s.goroutines| && |t.beats| == |s.beats| + 1 && s.beats <= t.beats
      && t.beats[|s.beats|].origin == Sender(g)
      && CadenceOf(start, events, s.goroutines[g].interval, t.beats[|s.beats|].timeout)
  {
    assert (events + [SenderBeat(g)])[..|events|] == events;
    RunOk(start, events);
    CadenceIsLastSet(start, events);
  }

  /** A manager's beat announces four seconds. */
  lemma {:induction false} ManagerAnnouncesDefault(start: State, events: seq<Event>)
    requires RunOf(start, events + [ManagerBeat]).beats != RunOf(start, events).beats
    ensures
      var s, t := RunOf(start, events), RunOf(start, events + [ManagerBeat]);
      exists counter :: t.beats == s.beats + [Beat(Manager, counter, 4_000_000_000)]
  {
    assert (events + [ManagerBeat])[..|events|] == events;
  }

  // ------------------------------------------------- who publishes

  /** The goroutine started last holds the current stop channel, if there is one; all others are closed. */
  ghost predicate NewestHolds(s: State) {
    && (s.stop.Some? ==> s.goroutines != [] && s.goroutines[|s.goroutines| - 1].stop == s.stop.value)
    && (forall g | 0 <= g < |s.goroutines| :: s.goroutines[g].stop in s.closed || s.stop == Some(s.goroutines[g].stop))
  }

  lemma StartHolds(s: State)
    requires NewestHolds(s) && s.stop.None?
    ensures NewestHolds(StartSender(s))
  {
  }

  lemma StopHolds(s: State)
    requires NewestHolds(s)
    ensures NewestHolds(StopSender(s)) && StopSender(s).stop.None?
  {
    var t := StopSender(s);
    assert s.stop.Some? ==> t.closed[|s.closed|] == s.stop.value;
    assert forall x | x in s.closed :: x in t.closed;
  }

  lemma StepHolds(s: State, e: Event)
    requires NewestHolds(s)
    ensures NewestHolds(Step(s, e))
  {
    match e
    case Start(_) => if s.paced && s.stop.None? { StartHolds(s); }
    case Stop => if s.paced { StopHolds(s); }
    case SetCadence(asked, timeout) =>
      var taken := s.(paced := true, managerRunning := s.paced && s.managerRunning);
      StopHolds(taken);
      StartHolds(StopSender(taken).(interval := AskedInterval(e), timeout := timeout));
    case _ =>
  }

  lemma {:induction false} RunHolds(start: State, events: seq<Event>)
    requires Initial(start)
    ensures NewestHolds(RunOf(start, events))
  {
    if events != [] {
      RunHolds(start, events[..|events| - 1]);
      StepHolds(RunOf(start, events[..|events| - 1]), events[|events| - 1]);
    }
  }

  /**
   A goroutine that wakes up publishes exactly if a cadence was set, a heartbeat is wanted, and no goroutine
   was started after it; the stop channels of all others are closed. The manager publishes exactly if no
   cadence was set and a heartbeat is wanted.
   */
  lemma {:induction false} PublishesExactly(start: State, events: seq<Event>, g: nat)
    requires Initial(start)
    ensures
      var s, paced := RunOf(start, events), start.hasFeature && EverSet(events);
      && (g < |s.goroutines| ==>
           && (|Step(s, SenderBeat(g)).beats| > |s.beats| <==>
             paced && Wanted(start, events) && g == |s.goroutines| - 1)
           && (s.goroutines[g].stop in s.closed <==> !(paced && Wanted(start, events) && g == |s.goroutines| - 1)))
      && (|Step(s, ManagerBeat).beats| > |s.beats| <==> !paced && Wanted(start, events))
  {
    RunOk(start, events);
    RunHolds(start, events);
    RunsWhenWanted(start, events);
    CadenceIsLastSet(start, events);
  }

  // ------------------------------------------------- the counters

  /** One more than c, in 64 bits. */
  predicate OneMore(c: nat, next: nat) {
    if c == 18_446_744_073_709_551_615 then next == 0 else next == c + 1
  }

  /**
   In every run the first beat counts on from the beat before the run, or starts with one if there was none,
   and every further beat counts on from the one before it.
   */
  lemma {:induction false} BeatsNumbered(start: State, events: seq<Event>)
    requires Initial(start) && (start.last.Some? ==> start.last.value <= 18_446_744_073_709_551_615)
    ensures
      var beats := RunOf(start, events).beats;
      && (beats != [] ==>
           if start.last.Some? then OneMore(start.last.value, beats[0].counter) else beats[0].counter == 1)
      && (forall i | 0 < i < |beats| :: OneMore(beats[i - 1].counter, beats[i].counter))
  {
    var beats := RunOf(start, events).beats;
    EveryRun(start, events);
    forall i | 0 <= i < |beats| ensures beats[i].counter <= 18_446_744_073_709_551_615 {
      CounterFits(start.last, beats, i);
    }
  }

  lemma {:induction false} CounterFits(before: Option<nat>, beats: seq<Beat>, i: nat)
    requires Consecutive(before, beats) && i < |beats|
    ensures beats[i].counter <= 18_446_744_073_709_551_615
  {
    assert beats[i].counter == NextCounter(CounterAt(before, beats, i));
    if i > 0 {
      CounterFits(before, beats, i - 1);
    }
  }
}
