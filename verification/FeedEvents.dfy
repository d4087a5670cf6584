/**
 internal/tracerfeed/tracerfeed.go: what the feed's state owes to the events alone: which lines there were,
 who listens to them from when to when, and what each tracer begins with.
 */
module FeedEvents {
  import opened TracerFeed

  lemma Snoc(events: seq<Event>)
    requires events != []
    ensures events == events[..|events| - 1] + [events[|events| - 1]]
    ensures forall e :: e in events <==> e in events[..|events| - 1] || e == events[|events| - 1]
  {
    assert events == events[..|events| - 1] + [events[|events| - 1]];
  }

  // ------------------------------------------------- the lines

  function Lines(events: seq<Event>): seq<string> {
    if events == [] then []
    else
      var before := Lines(events[..|events| - 1]);
      match events[|events| - 1]
      case Publish(line) => before + [line]
      case _ => before
  }

  /** Those before the feed was closed. */
  function OpenLines(events: seq<Event>): seq<string> {
    if events == [] then []
    else
      var before := OpenLines(events[..|events| - 1]);
      match events[|events| - 1]
      case Publish(line) => if Close in events then before else before + [line]
      case _ => before
  }

  lemma {:induction false} PublishedIsLines(events: seq<Event>)
    ensures RunOf(events).published == Lines(events)
  {
    if events != [] {
      PublishedIsLines(events[..|events| - 1]);
    }
  }

  lemma {:induction false} ClosedIsClosed(events: seq<Event>)
    ensures RunOf(events).closed <==> Close in events
  {
    if events != [] {
      ClosedIsClosed(events[..|events| - 1]);
      Snoc(events);
    }
  }

  lemma {:induction false} OpenIsAll(events: seq<Event>)
    requires Close !in events
    ensures OpenLines(events) == Lines(events)
  {
    if events != [] {
      Snoc(events);
      OpenIsAll(events[..|events| - 1]);
    }
  }

  // ------------------------------------------------- the TCP tracers

  lemma {:induction false} KnownExactly(events: seq<Event>, id: nat)
    ensures id in RunOf(events).clients <==> Attach(id) in events
  {
    if events != [] {
      KnownExactly(events[..|events| - 1], id);
      Snoc(events);
    }
  }

  /** A tracer listens from its first Attach on, until the feed is closed or its service has ended. */
  predicate Listens(events: seq<Event>, id: nat) {
    if events == [] then false
    else
      var before := events[..|events| - 1];
      match events[|events| - 1]
      case Attach(other) => Listens(before, id) || (other == id && Attach(id) !in before)
      case Close => Listens(before, id) && Close in before
      case Leave(other) => Listens(before, id) && !(other == id && Ended(before, id))
      case _ => Listens(before, id)
  }

  predicate Ended(events: seq<Event>, id: nat) {
    id in RunOf(events).clients && RunOf(events).clients[id].done
  }

  lemma {:induction false} ListensExactly(events: seq<Event>, id: nat)
    ensures id in RunOf(events).tcp <==> Listens(events, id)
  {
    if events != [] {
      var before := events[..|events| - 1];
      ListensExactly(before, id);
      KnownExactly(before, id);
      ClosedIsClosed(before);
    }
  }

  /** How many events came before the tracer's Attach. */
  function AttachedAfter(events: seq<Event>, id: nat): (a: nat)
    ensures a <= |events|
  {
    if events == [] then 0
    else if Attach(id) in events[..|events| - 1] then AttachedAfter(events[..|events| - 1], id)
    else |events| - 1
  }

  /**
   What a tracer received or will receive begins with the last 5000 lines before its Attach, or with all of
   them if there were no more.
   */
  lemma {:induction false} BeginsWithRecent(events: seq<Event>, id: nat)
    requires id in RunOf(events).clients
    ensures
      var earlier := Lines(events[..AttachedAfter(events, id)]);
      && Last(earlier, 5000) <= RunOf(events).clients[id].Lines()
      && RunOf(events).clients[id].Start() == (if |earlier| > 5000 then |earlier| - 5000 else 0)
  {
    var c, earlier := RunOf(events).clients[id], Lines(events[..AttachedAfter(events, id)]);
    TracerStream(events, id);
    AttachedAt(events, id);
    PublishedIsLines(events);
    LinesGrow(events, AttachedAfter(events, id));
    assert Lines(events)[c.Start()..c.attachedAt] == earlier[c.Start()..];
    assert earlier[0..] == earlier;
  }

  lemma {:induction false} LinesGrow(events: seq<Event>, k: nat)
    requires k <= |events|
    ensures Lines(events[..k]) <= Lines(events)
    decreases |events|
  {
    if k == |events| {
      assert events[..k] == events;
    } else {
      assert events[..|events| - 1][..k] == events[..k];
      LinesGrow(events[..|events| - 1], k);
    }
  }

  lemma {:induction false} AttachedAt(events: seq<Event>, id: nat)
    requires id in RunOf(events).clients
    ensures RunOf(events).clients[id].attachedAt == |Lines(events[..AttachedAfter(events, id)])|
  {
    var before, e := events[..|events| - 1], events[|events| - 1];
    KnownExactly(before, id);
    if id in RunOf(before).clients {
      AttachedAt(before, id);
      AttachedStep(RunOf(before), e, id);
      assert before[..AttachedAfter(before, id)] == events[..AttachedAfter(events, id)];
    } else {
      PublishedIsLines(before);
      assert events[..AttachedAfter(events, id)] == before;
      NewStep(RunOf(before), e, id);
    }
  }

  lemma AttachedStep(s: State, e: Event, id: nat)
    requires id in s.clients
    ensures id in Step(s, e).clients && Step(s, e).clients[id].attachedAt == s.clients[id].attachedAt
  {
  }

  lemma NewStep(s: State, e: Event, id: nat)
    requires id !in s.clients && id in Step(s, e).clients
    ensures e == Attach(id) && Step(s, e).clients[id].attachedAt == |s.published|
    ensures !Step(s, e).clients[id].closed
  {
  }

  // ------------------------------------------------- the UDP tracers

  /** How many events came before the tracer's Register. */
  function RegisteredAfter(events: seq<Event>, addr: string): (a: nat)
    ensures a <= |events|
  {
    if events == [] then 0
    else if Register(addr) in events[..|events| - 1] then RegisteredAfter(events[..|events| - 1], addr)
    else |events| - 1
  }

  /** The first line for a UDP tracer: the last 5000 before its Register count. */
  function FirstLine(events: seq<Event>, addr: string): nat {
    var earlier := |Lines(events[..RegisteredAfter(events, addr)])|;
    if earlier > 5000 then earlier - 5000 else 0
  }

  predicate RegisteredOpen(events: seq<Event>, addr: string) {
    Close !in events[..RegisteredAfter(events, addr)]
  }

  lemma {:induction false} RegisteredExactly(events: seq<Event>, addr: string)
    ensures addr in RunOf(events).udp <==> Register(addr) in events
  {
    if events != [] {
      RegisteredExactly(events[..|events| - 1], addr);
      Snoc(events);
    }
  }

  lemma RegisteredBefore(events: seq<Event>, addr: string)
    requires events != [] && Register(addr) in events[..|events| - 1]
    ensures FirstLine(events, addr) == FirstLine(events[..|events| - 1], addr)
    ensures RegisteredOpen(events, addr) == RegisteredOpen(events[..|events| - 1], addr)
  {
    var before := events[..|events| - 1];
    assert before[..RegisteredAfter(before, addr)] == events[..RegisteredAfter(events, addr)];
  }

  lemma OpenSnoc(events: seq<Event>)
    requires events != []
    ensures
      var before, e := events[..|events| - 1], events[|events| - 1];
      OpenLines(events) == OpenLines(before) + if e.Publish? && !RunOf(before).closed then [e.line] else []
  {
    Snoc(events);
    ClosedIsClosed(events[..|events| - 1]);
  }

  /**
   A UDP tracer has been sent the last 5000 lines before its Register and every line from then until the
   feed was closed, or nothing if it was closed by then.
   */
  lemma {:induction false} PeerExactly(events: seq<Event>, addr: string)
    requires addr in RunOf(events).udp
    ensures
      if RegisteredOpen(events, addr)
      then
        && FirstLine(events, addr) <= |OpenLines(events)|
        && RunOf(events).udp[addr].sent == OpenLines(events)[FirstLine(events, addr)..]
      else RunOf(events).closed && RunOf(events).udp[addr].sent == []
  {
    var before, e := events[..|events| - 1], events[|events| - 1];
    RegisteredExactly(before, addr);
    OpenSnoc(events);
    if addr in RunOf(before).udp {
      PeerExactly(before, addr);
      RegisteredBefore(events, addr);
      PeerStep(RunOf(before), e, addr);
    } else {
      NewPeer(events, addr);
    }
  }

  lemma PeerStep(s: State, e: Event, addr: string)
    requires addr in s.udp
    ensures addr in Step(s, e).udp && (s.closed ==> Step(s, e).closed)
    ensures Step(s, e).udp[addr].sent == s.udp[addr].sent + if e.Publish? && !s.closed then [e.line] else []
  {
  }

  lemma NewPeerStep(s: State, e: Event, addr: string)
    requires addr !in s.udp && addr in Step(s, e).udp
    ensures e == Register(addr) && Step(s, e).closed == s.closed
    ensures Step(s, e).udp[addr].sent == if s.closed then [] else s.history
  {
  }

  lemma {:induction false} NewPeer(events: seq<Event>, addr: string)
    requires events != [] && addr !in RunOf(events[..|events| - 1]).udp && addr in RunOf(events).udp
    ensures
      if RegisteredOpen(events, addr)
      then
        && FirstLine(events, addr) <= |OpenLines(events)|
        && RunOf(events).udp[addr].sent == OpenLines(events)[FirstLine(events, addr)..]
      else RunOf(events).closed && RunOf(events).udp[addr].sent == []
  {
    var before := events[..|events| - 1];
    NewPeerStep(RunOf(before), events[|events| - 1], addr);
    RegisteredExactly(before, addr);
    assert events[..RegisteredAfter(events, addr)] == before;
    ClosedIsClosed(before);
    OpenSnoc(events);
    if Close !in before {
      OpenIsAll(before);
      HistoryIsRecent(before);
    }
  }

  lemma {:induction false} HistoryIsRecent(events: seq<Event>)
    ensures RunOf(events).history == Last(Lines(events), 5000)
  {
    RunOk(events);
    PublishedIsLines(events);
  }
}
