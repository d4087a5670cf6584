/**
 internal/eebusgo/heartbeat.go: the heartbeat is first sent by the stack's own manager and, once
 a cadence is set, by sender goroutines that a stop channel identifies. Goroutines run freely:
 each may wake up at any moment, also long after it was replaced.

 The manager is an assumed part: it beats only while running and counts on from its last beat.
 */
module Heartbeat {
  import opened Options

  const SECOND: int := 1_000_000_000
  const MAX_HEARTBEAT_PERIOD: int := 3600 * SECOND
  const DEFAULT_HEARTBEAT_TIMEOUT: int := 4 * SECOND
  const COUNTER_MAX: nat := 0xFFFF_FFFF_FFFF_FFFF

  /** The counter is a uint64 and wraps. */
  function Succ(counter: nat): nat {
    if counter >= COUNTER_MAX then 0 else counter + 1
  }

  datatype Origin = Manager | Sender(goroutine: nat)

  datatype Beat = Beat(origin: Origin, counter: nat, timeout: int)

  /** A goroutine started by startLocked: the stop channel it watches and what it announces. */
  datatype Goroutine = Goroutine(stop: nat, interval: int, timeout: int)

  datatype State = State(
    hasFeature: bool, managerRunning: bool, paced: bool, interval: int, timeout: int, stop: Option<nat>,
    channels: nat, closed: seq<nat>, goroutines: seq<Goroutine>, last: Option<nat>, beats: seq<Beat>)

  datatype Event =
    | Start(managerStarts: bool)
    | Stop
    | SetCadence(interval: int, timeout: int)
    | ManagerBeat
    | SenderBeat(goroutine: nat)

  function DefaultInterval(timeout: int): int {
    if timeout > 2 * SECOND then timeout - 2 * SECOND else timeout
  }

  // ------------------------------------------------- single steps

  predicate Accepted(hasFeature: bool, interval: int, timeout: int) {
    hasFeature && SECOND <= timeout <= MAX_HEARTBEAT_PERIOD && SECOND <= interval <= MAX_HEARTBEAT_PERIOD
  }

  /**
   Without an interval of its own, a valid timeout is refused exactly between two and three seconds,
   where sending two seconds early leaves less than the shortest interval.
   */
  lemma DefaultCadence(hasFeature: bool, timeout: int)
    ensures Accepted(hasFeature, DefaultInterval(timeout), timeout) <==>
      hasFeature && (SECOND <= timeout <= 2 * SECOND || 3 * SECOND <= timeout <= MAX_HEARTBEAT_PERIOD)
  {
  }

  function StartSender(s: State): State {
    s.(stop := Some(s.channels), channels := s.channels + 1,
       goroutines := s.goroutines + [Goroutine(s.channels, s.interval, s.timeout)])
  }

  function StopSender(s: State): State {
    if s.stop.Some? then s.(closed := s.closed + [s.stop.value], stop := None) else s
  }

  function Running(s: State): bool {
    if s.paced then s.stop.Some? else s.managerRunning
  }

  function NextCounter(last: Option<nat>): nat {
    match last
    case Some(c) => Succ(c)
    case None => 1
  }

  function Send(s: State, origin: Origin, timeout: int): State {
    s.(last := Some(NextCounter(s.last)), beats := s.beats + [Beat(origin, NextCounter(s.last), timeout)])
  }

  function Cadence(s: State, asked: int, timeout: int): State {
    var interval := if asked == 0 then DefaultInterval(timeout) else asked;
    if !Accepted(s.hasFeature, interval, timeout) then s
    else
      var halted := StopSender(s.(paced := true, managerRunning := s.paced && s.managerRunning));
      var adjusted := halted.(interval := interval, timeout := timeout);
      if Running(s) then StartSender(adjusted) else adjusted
  }

  function Step(s: State, e: Event): State {
    match e
    case Start(managerStarts) =>
      if !s.paced then s.(managerRunning := s.managerRunning || managerStarts)
      else if s.stop.None? then StartSender(s)
      else s
    case Stop => if !s.paced then s.(managerRunning := false) else StopSender(s)
    case SetCadence(interval, timeout) => Cadence(s, interval, timeout)
    case ManagerBeat => if s.managerRunning then Send(s, Manager, DEFAULT_HEARTBEAT_TIMEOUT) else s
    case SenderBeat(g) =>
      if g < |s.goroutines| && s.stop == Some(s.goroutines[g].stop)
      then Send(s, Sender(g), s.goroutines[g].timeout)
      else s
  }

  function RunOf(s: State, events: seq<Event>): State {
    if events == [] then s else Step(RunOf(s, events[..|events| - 1]), events[|events| - 1])
  }

  /** As constructed: the manager may have beaten before. */
  predicate Initial(s: State) {
    && !s.paced && s.stop == None && s.channels == 0 && s.closed == [] && s.goroutines == []
    && s.beats == []
  }

  // ------------------------------------------------- what every run keeps

  ghost predicate Ok(s: State) {
    && (s.paced ==> !s.managerRunning && s.hasFeature)
    && (!s.paced ==> s.stop == None)
    && (s.stop.Some? ==> s.stop.value < s.channels && s.stop.value !in s.closed)
    && (forall i | 0 <= i < |s.closed| :: s.closed[i] < s.channels)
    && (forall i, j | 0 <= i < j < |s.closed| :: s.closed[i] != s.closed[j])
    && (forall i | 0 <= i < |s.goroutines| :: s.goroutines[i].stop < s.channels)
    && (forall i, j | 0 <= i < j < |s.goroutines| :: s.goroutines[i].stop != s.goroutines[j].stop)
    && (s.stop.Some? ==>
         exists g :: 0 <= g < |s.goroutines| && s.goroutines[g] == Goroutine(s.stop.value, s.interval, s.timeout))
  }

  /** The counter published last among the first i beats. */
  function CounterAt(before: Option<nat>, beats: seq<Beat>, i: nat): Option<nat>
    requires i <= |beats|
  {
    if i == 0 then before else Some(beats[i - 1].counter)
  }

  ghost predicate Consecutive(before: Option<nat>, beats: seq<Beat>) {
    forall i | 0 <= i < |beats| :: beats[i].counter == NextCounter(CounterAt(before, beats, i))
  }

  ghost predicate CountsOn(start: State, s: State) {
    && Consecutive(start.last, s.beats)
    && s.last == CounterAt(start.last, s.beats, |s.beats|)
  }

  lemma StartSenderOk(s: State)
    requires Ok(s) && s.paced && s.stop.None?
    ensures Ok(StartSender(s))
  {
    assert StartSender(s).goroutines[|s.goroutines|] == Goroutine(s.channels, s.interval, s.timeout);
  }

  lemma StopSenderOk(s: State)
    requires Ok(s)
    ensures Ok(StopSender(s)) && StopSender(s).stop == None
  {}

  lemma SendOk(start: State, s: State, origin: Origin, timeout: int)
    requires CountsOn(start, s)
    ensures CountsOn(start, Send(s, origin, timeout))
  {
    ConsecutiveSnoc(start.last, s.beats, Beat(origin, NextCounter(s.last), timeout));
  }

  lemma ConsecutiveSnoc(before: Option<nat>, beats: seq<Beat>, beat: Beat)
    requires Consecutive(before, beats) && beat.counter == NextCounter(CounterAt(before, beats, |beats|))
    ensures Consecutive(before, beats + [beat])
    ensures CounterAt(before, beats + [beat], |beats| + 1) == Some(beat.counter)
  {
    var more := beats + [beat];
    forall i | 0 <= i < |more| ensures more[i].counter == NextCounter(CounterAt(before, more, i)) {
      assert CounterAt(before, more, i) == CounterAt(before, beats, i);
    }
  }

  lemma CadenceOk(s: State, asked: int, timeout: int)
    requires Ok(s)
    ensures Ok(Cadence(s, asked, timeout))
    ensures Cadence(s, asked, timeout).beats == s.beats && Cadence(s, asked, timeout).last == s.last
  {
    var interval := if asked == 0 then DefaultInterval(timeout) else asked;
    if Accepted(s.hasFeature, interval, timeout) {
      var taken := s.(paced := true, managerRunning := s.paced && s.managerRunning);
      StopSenderOk(taken);
      if Running(s) {
        StartSenderOk(StopSender(taken).(interval := interval, timeout := timeout));
      }
    }
  }

  lemma StepOk(start: State, s: State, e: Event)
    requires Ok(s) && CountsOn(start, s)
    ensures Ok(Step(s, e)) && CountsOn(start, Step(s, e))
  {
    match e
    case Start(_) => if s.paced && s.stop.None? { StartSenderOk(s); }
    case Stop => StopSenderOk(s);
    case SetCadence(asked, timeout) => CadenceOk(s, asked, timeout);
    case ManagerBeat => SendOk(start, s, Manager, DEFAULT_HEARTBEAT_TIMEOUT);
    case SenderBeat(g) => if g < |s.goroutines| { SendOk(start, s, Sender(g), s.goroutines[g].timeout); }
  }

  lemma {:induction false} RunOk(s: State, events: seq<Event>)
    requires Initial(s)
    ensures Ok(RunOf(s, events)) && CountsOn(s, RunOf(s, events))
  {
    if events != [] {
      RunOk(s, events[..|events| - 1]);
      StepOk(s, RunOf(s, events[..|events| - 1]), events[|events| - 1]);
    }
  }

  /**
   In every interleaving the published counters go up by exactly one, whoever sends, no stop
   channel is closed twice, and at any time at most one goroutine is able to publish.
   */
  lemma {:induction false} EveryRun(s: State, events: seq<Event>)
    requires Initial(s)
    ensures
      var t := RunOf(s, events);
      && Consecutive(s.last, t.beats)
      && (forall i, j | 0 <= i < j < |t.closed| :: t.closed[i] != t.closed[j])
      && (forall g, h | 0 <= g < |t.goroutines| && 0 <= h < |t.goroutines| ::
           Step(t, SenderBeat(g)) != t && Step(t, SenderBeat(h)) != t ==> g == h)
  {
    RunOk(s, events);
  }

  /** Whether a heartbeat is wanted, read off the calls alone. */
  function Wanted(s: State, events: seq<Event>): bool {
    if events == [] then s.managerRunning
    else
      var before := events[..|events| - 1];
      match events[|events| - 1]
      case Start(managerStarts) => Wanted(s, before) || managerStarts || RunOf(s, before).paced
      case Stop => false
      case _ => Wanted(s, before)
  }

  /** The pacer runs exactly while a heartbeat is wanted; changing the cadence does not matter. */
  lemma {:induction false} RunsWhenWanted(s: State, events: seq<Event>)
    requires Initial(s)
    ensures Running(RunOf(s, events)) == Wanted(s, events)
  {
    if events != [] {
      RunsWhenWanted(s, events[..|events| - 1]);
      RunOk(s, events[..|events| - 1]);
    }
  }

  lemma StoppedIsSilent(s: State, e: Event)
    requires Ok(s) && !Running(s)
    ensures Step(s, e).beats == s.beats
    ensures !e.Start? ==> !Running(Step(s, e))
  {}

  /** Between a Stop and the next Start nothing is published, however many goroutines still wake up. */
  lemma {:induction false} SilentAfterStop(s: State, events: seq<Event>, k: nat)
    requires Initial(s) && k < |events| && events[k] == Stop
    requires forall i | k < i < |events| :: !events[i].Start?
    ensures
      var t := RunOf(s, events);
      t.beats == RunOf(s, events[..k + 1]).beats && !Running(t)
    decreases |events|
  {
    var n := |events| - 1;
    RunOk(s, events[..n]);
    if k == n {
      assert events[..k + 1] == events;
    } else {
      assert events[..n][..k + 1] == events[..k + 1];
      SilentAfterStop(s, events[..n], k);
      StoppedIsSilent(RunOf(s, events[..n]), events[n]);
    }
  }

  /** From position `from` on, every beat came from a sender goroutine. */
  predicate SendersFrom(beats: seq<Beat>, from: nat) {
    from <= |beats| && forall i | from <= i < |beats| :: beats[i].origin.Sender?
  }

  lemma PacedStep(s: State, e: Event, from: nat)
    requires Ok(s) && s.paced && SendersFrom(s.beats, from)
    ensures Step(s, e).paced && SendersFrom(Step(s, e).beats, from)
  {}

  lemma {:induction false} PacedNext(s: State, events: seq<Event>, from: nat)
    requires Initial(s) && events != []
    requires
      var before := RunOf(s, events[..|events| - 1]);
      before.paced && SendersFrom(before.beats, from)
    ensures RunOf(s, events).paced && SendersFrom(RunOf(s, events).beats, from)
  {
    RunOk(s, events[..|events| - 1]);
    PacedStep(RunOf(s, events[..|events| - 1]), events[|events| - 1], from);
  }

  /** Once a cadence was set, every further beat is a sender's. */
  lemma {:induction false} ManagerIsDone(s: State, events: seq<Event>, k: nat)
    requires Initial(s) && k <= |events| && RunOf(s, events[..k]).paced
    ensures RunOf(s, events).paced && SendersFrom(RunOf(s, events).beats, |RunOf(s, events[..k]).beats|)
    decreases |events|
  {
    var n := |events| - 1;
    if k == |events| {
      assert events[..k] == events;
    } else {
      assert events[..n][..k] == events[..k];
      ManagerIsDone(s, events[..n], k);
      PacedNext(s, events, |RunOf(s, events[..k]).beats|);
    }
  }

  /** A goroutine that publishes announces the timeout of the cadence set last. */
  lemma {:induction false} AnnouncesCurrentTimeout(s: State, events: seq<Event>, g: nat)
    requires Initial(s) && Step(RunOf(s, events), SenderBeat(g)) != RunOf(s, events)
    ensures
      var t := Step(RunOf(s, events), SenderBeat(g));
      t.beats[|t.beats| - 1].timeout == RunOf(s, events).timeout
  {
    RunOk(s, events);
  }

  // ------------------------------------------------- the object

  class Pacer {
    const hasFeature: bool
    var managerRunning: bool
    var paced: bool
    var interval: int
    var timeout: int
    var stop: Option<nat>
    var channels: nat
    var closed: seq<nat>
    var goroutines: seq<Goroutine>
    var last: Option<nat>
    ghost var beats: seq<Beat>

    ghost function View(): State
      reads this
    {
      State(hasFeature, managerRunning, paced, interval, timeout, stop, channels, closed, goroutines, last, beats)
    }

    constructor (hasFeature: bool, managerRunning: bool, last: Option<nat>)
      ensures Initial(View()) && Ok(View()) && this.managerRunning == managerRunning && this.last == last
      ensures this.hasFeature == hasFeature && timeout == DEFAULT_HEARTBEAT_TIMEOUT && interval == 2 * SECOND
    {
      this.hasFeature, this.managerRunning, this.last := hasFeature, managerRunning, last;
      paced, interval, timeout, stop :=
        false, DefaultInterval(DEFAULT_HEARTBEAT_TIMEOUT), DEFAULT_HEARTBEAT_TIMEOUT, None;
      channels, closed, goroutines, beats := 0, [], [], [];
    }

    method StartHeartbeat(managerStarts: bool)
      requires Ok(View())
      modifies this
      ensures View() == Step(old(View()), Start(managerStarts)) && Ok(View())
    {
      if !paced {
        managerRunning := managerRunning || managerStarts;
      } else if stop == None {
        StartLocked();
      }
    }

    method StopHeartbeat()
      requires Ok(View())
      modifies this
      ensures View() == Step(old(View()), Stop) && Ok(View())
    {
      if !paced {
        managerRunning := false;
      } else {
        StopLocked();
      }
    }

    method ChangeCadence(asked: int, timeout: int) returns (ok: bool)
      requires Ok(View())
      modifies this
      ensures View() == Step(old(View()), SetCadence(asked, timeout)) && Ok(View())
      ensures ok == Accepted(hasFeature, if asked == 0 then DefaultInterval(timeout) else asked, timeout)
    {
      var interval := asked;
      if interval == 0 {
        interval := DefaultInterval(timeout);
      }
      ok := Accepted(hasFeature, interval, timeout);
      if ok {
        var running := stop != None;
        if !paced {
          running := managerRunning;
          managerRunning := false;
          paced := true;
        }
        StopLocked();
        this.interval, this.timeout := interval, timeout;
        if running {
          StartLocked();
        }
      }
    }

    method StartLocked()
      requires Ok(View()) && paced && stop == None
      modifies this
      ensures View() == StartSender(old(View())) && Ok(View())
    {
      StartSenderOk(View());
      stop := Some(channels);
      goroutines := goroutines + [Goroutine(channels, interval, timeout)];
      channels := channels + 1;
    }

    method StopLocked()
      requires Ok(View())
      modifies this
      ensures View() == StopSender(old(View())) && Ok(View())
    {
      StopSenderOk(View());
      if stop.Some? {
        assert stop.value !in closed;
        closed := closed + [stop.value];
        stop := None;
      }
    }

    /** A goroutine's attempt to send, at its start or on a tick of its ticker. */
    method TrySend(g: nat)
      requires Ok(View()) && g < |goroutines|
      modifies this
      ensures View() == Step(old(View()), SenderBeat(g)) && Ok(View())
    {
      if stop == Some(goroutines[g].stop) {
        var counter := 1;
        if last.Some? {
          counter := Succ(last.value);
        }
        last := Some(counter);
        beats := beats + [Beat(Sender(g), counter, goroutines[g].timeout)];
      }
    }
  }
}
