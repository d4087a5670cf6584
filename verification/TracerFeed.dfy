/**
 internal/tracerfeed/tracerfeed.go: every frame as a line to every attached tracer. A TCP tracer
 first gets the recent history, then what its bounded queue has room for; a UDP tracer gets the
 history and then every line. Sockets are reduced to "the write succeeded" or not.
 */
module TracerFeed {
  const QUEUE_DEPTH: nat := 256
  const REPLAY_DEPTH: nat := 5000

  function Last(s: seq<string>, n: nat): seq<string> {
    if |s| <= n then s else s[|s| - n..]
  }

  /**
   One TCP tracer. `taken` is the line its goroutine is writing right now. The last four fields
   are bookkeeping: the published lines by index that were meant for it and kept, where its
   stretch of the published lines begins, how many were published while it was attached, and how
   many of them its full queue turned away.
   */
  datatype Client = Client(
    received: seq<string>, taken: seq<string>, replay: seq<string>, queue: seq<string>, closed: bool, done: bool,
    kept: seq<nat>, attachedAt: nat, seen: nat, dropped: nat)
  {
    /** Everything received or still on its way, in order. */
    function Lines(): seq<string> {
      received + taken + replay + queue
    }

    /** The first line meant for this tracer. */
    function Start(): nat {
      if attachedAt > REPLAY_DEPTH then attachedAt - REPLAY_DEPTH else 0
    }
  }

  datatype Peer = Peer(start: nat, sent: seq<string>)

  datatype State = State(
    published: seq<string>, history: seq<string>, tcp: set<nat>, clients: map<nat, Client>,
    udp: map<string, Peer>, closed: bool)

  const INITIAL := State([], [], {}, map[], map[], false)

  datatype Event =
    | Attach(id: nat)
    | Register(addr: string)
    | Publish(line: string)
    | Take(id: nat)
    | Deliver(id: nat, ok: bool)
    | Leave(id: nat)
    | Close

  // ------------------------------------------------- single steps

  function Indices(from: nat, to: nat): seq<nat>
    requires from <= to
  {
    seq(to - from, i requires 0 <= i < to - from => from + i)
  }

  function NewClient(published: seq<string>, history: seq<string>): Client {
    var n := |published|;
    var start := if n > REPLAY_DEPTH then n - REPLAY_DEPTH else 0;
    Client([], [], history, [], false, false, Indices(start, n), n, n, 0)
  }

  /** The non-blocking send of one line, published as number `index`. */
  function Push(c: Client, line: string, index: nat): Client {
    if |c.queue| < QUEUE_DEPTH then c.(queue := c.queue + [line], kept := c.kept + [index], seen := index + 1)
    else c.(dropped := c.dropped + 1, seen := index + 1)
  }

  /** The serving goroutine picks up its next line, or ends once the closed queue is drained. */
  function TakeNext(c: Client): Client {
    if c.done || c.taken != [] then c
    else if c.replay != [] then c.(taken := [c.replay[0]], replay := c.replay[1..])
    else if c.queue != [] then c.(taken := [c.queue[0]], queue := c.queue[1..])
    else if c.closed then c.(done := true)
    else c
  }

  function Written(c: Client, ok: bool): Client {
    if c.done || c.taken == [] then c
    else if ok then c.(received := c.received + c.taken, taken := [])
    else c.(done := true)
  }

  function PushAll(clients: map<nat, Client>, tcp: set<nat>, line: string, index: nat): map<nat, Client> {
    map id | id in clients :: if id in tcp then Push(clients[id], line, index) else clients[id]
  }

  function SendAll(udp: map<string, Peer>, line: string): map<string, Peer> {
    map a | a in udp :: udp[a].(sent := udp[a].sent + [line])
  }

  function CloseAll(clients: map<nat, Client>, tcp: set<nat>): map<nat, Client> {
    map id | id in clients :: if id in tcp then clients[id].(closed := true) else clients[id]
  }

  function Step(s: State, e: Event): State {
    match e
    case Attach(id) =>
      if id in s.clients then s
      else s.(tcp := s.tcp + {id}, clients := s.clients[id := NewClient(s.published, s.history)])
    case Register(addr) =>
      if addr in s.udp then s
      else
        var start := if |s.published| > |s.history| then |s.published| - |s.history| else 0;
        s.(udp := s.udp[addr := Peer(start, if s.closed then [] else s.history)])
    case Publish(line) =>
      s.(published := s.published + [line],
         history := Last(s.history + [line], REPLAY_DEPTH),
         clients := PushAll(s.clients, s.tcp, line, |s.published|),
         udp := if s.closed then s.udp else SendAll(s.udp, line))
    case Take(id) => if id in s.clients then s.(clients := s.clients[id := TakeNext(s.clients[id])]) else s
    case Deliver(id, ok) => if id in s.clients then s.(clients := s.clients[id := Written(s.clients[id], ok)]) else s
    case Leave(id) => if id in s.clients && s.clients[id].done then s.(tcp := s.tcp - {id}) else s
    case Close =>
      if s.closed then s
      else s.(closed := true, tcp := {}, clients := CloseAll(s.clients, s.tcp))
  }

  function RunOf(events: seq<Event>): State {
    if events == [] then INITIAL else Step(RunOf(events[..|events| - 1]), events[|events| - 1])
  }

  // ------------------------------------------------- what every run keeps

  ghost predicate Increasing(s: seq<nat>) {
    forall i, j | 0 <= i < j < |s| :: s[i] < s[j]
  }

  /** The lines are published lines: the ones with these indices. */
  ghost predicate Chosen(lines: seq<string>, kept: seq<nat>, published: seq<string>) {
    && |kept| == |lines|
    && Increasing(kept)
    && forall i | 0 <= i < |kept| :: kept[i] < |published| && lines[i] == published[kept[i]]
  }

  ghost predicate Counted(c: Client) {
    && c.Start() <= c.attachedAt <= c.seen
    && (forall i | 0 <= i < |c.kept| :: c.Start() <= c.kept[i] < c.seen)
    && |c.kept| + c.dropped == c.seen - c.Start()
    && (c.dropped == 0 ==> c.kept == Indices(c.Start(), c.seen))
    && Indices(c.Start(), c.attachedAt) <= c.kept
  }

  /** A tracer's lines are published lines, in order and none twice, from its start on. */
  ghost predicate ClientOk(c: Client, published: seq<string>) {
    Chosen(c.Lines(), c.kept, published) && Counted(c) && c.seen <= |published| && |c.queue| <= QUEUE_DEPTH &&
      |c.taken| <= 1
  }

  ghost predicate PeerOk(p: Peer, s: State) {
    && p.start + |p.sent| <= |s.published|
    && p.sent == s.published[p.start..p.start + |p.sent|]
    && (!s.closed ==> p.start + |p.sent| == |s.published|)
  }

  ghost predicate Ok(s: State) {
    && s.history == Last(s.published, REPLAY_DEPTH)
    && s.tcp <= s.clients.Keys
    && (forall id | id in s.clients :: ClientOk(s.clients[id], s.published))
    && (forall id | id in s.tcp :: s.clients[id].seen == |s.published| && !s.clients[id].closed)
    && (forall a | a in s.udp :: PeerOk(s.udp[a], s))
  }

  lemma NewClientOk(published: seq<string>, history: seq<string>)
    requires history == Last(published, REPLAY_DEPTH)
    ensures ClientOk(NewClient(published, history), published)
  {}

  lemma PublishedGrows(c: Client, published: seq<string>, line: string)
    requires ClientOk(c, published)
    ensures ClientOk(c, published + [line])
  {}

  lemma ChosenSnoc(lines: seq<string>, kept: seq<nat>, published: seq<string>, line: string)
    requires Chosen(lines, kept, published)
    ensures Chosen(lines + [line], kept + [|published|], published + [line])
  {}

  lemma PushOk(c: Client, published: seq<string>, line: string)
    requires ClientOk(c, published) && c.seen == |published|
    ensures ClientOk(Push(c, line, |published|), published + [line])
  {
    if |c.queue| < QUEUE_DEPTH {
      assert Push(c, line, |published|).Lines() == c.Lines() + [line];
      ChosenSnoc(c.Lines(), c.kept, published, line);
      assert c.dropped == 0 ==> Indices(c.Start(), c.seen) + [|published|] == Indices(c.Start(), c.seen + 1);
    } else {
      PublishedGrows(c, published, line);
    }
  }

  lemma TakeNextOk(c: Client, published: seq<string>)
    requires ClientOk(c, published)
    ensures ClientOk(TakeNext(c), published) && TakeNext(c).Lines() == c.Lines()
  {
    TakeKeepsLines(c);
  }

  /** Picking up a line only moves it. */
  lemma TakeKeepsLines(c: Client)
    ensures TakeNext(c).Lines() == c.Lines()
  {
    if !c.done && c.taken == [] {
      assert c.replay != [] ==> c.replay == [c.replay[0]] + c.replay[1..];
      assert c.queue != [] ==> c.queue == [c.queue[0]] + c.queue[1..];
    }
  }

  lemma WrittenOk(c: Client, ok: bool, published: seq<string>)
    requires ClientOk(c, published)
    ensures ClientOk(Written(c, ok), published) && Written(c, ok).Lines() == c.Lines()
  {
    assert Written(c, ok).Lines() == c.Lines();
  }

  lemma PushAllOk(s: State, line: string, id: nat)
    requires Ok(s) && id in s.clients
    ensures
      var c := PushAll(s.clients, s.tcp, line, |s.published|)[id];
      ClientOk(c, s.published + [line]) && (id in s.tcp ==> c.seen == |s.published| + 1 && !c.closed)
  {
    if id in s.tcp {
      PushOk(s.clients[id], s.published, line);
    } else {
      PublishedGrows(s.clients[id], s.published, line);
    }
  }

  lemma SendOk(p: Peer, s: State, t: State, line: string)
    requires PeerOk(p, s) && t.published == s.published + [line] && t.closed == s.closed
    ensures PeerOk(if s.closed then p else p.(sent := p.sent + [line]), t)
  {
    assert t.published[p.start..p.start + |p.sent|] == p.sent;
    if !s.closed {
      assert t.published[p.start..] == s.published[p.start..] + [line];
    }
  }

  lemma PublishOk(s: State, line: string)
    requires Ok(s)
    ensures Ok(Step(s, Publish(line)))
  {
    var t := Step(s, Publish(line));
    forall id | id in s.clients
      ensures ClientOk(t.clients[id], t.published)
      ensures id in s.tcp ==> t.clients[id].seen == |t.published| && !t.clients[id].closed
    {
      PushAllOk(s, line, id);
    }
    forall a | a in s.udp ensures PeerOk(t.udp[a], t) {
      SendOk(s.udp[a], s, t, line);
    }
  }

  lemma ReplaceOk(s: State, id: nat, c: Client)
    requires Ok(s) && id in s.clients && ClientOk(c, s.published)
    requires c.seen == s.clients[id].seen && c.closed == s.clients[id].closed
    ensures Ok(s.(clients := s.clients[id := c]))
  {
    var t := s.(clients := s.clients[id := c]);
    forall a | a in s.udp ensures PeerOk(t.udp[a], t) {
      assert PeerOk(s.udp[a], s);
    }
  }

  lemma AttachOk(s: State, id: nat)
    requires Ok(s)
    ensures Ok(Step(s, Attach(id)))
  {
    NewClientOk(s.published, s.history);
    forall a | a in s.udp ensures PeerOk(Step(s, Attach(id)).udp[a], Step(s, Attach(id))) {
      assert PeerOk(s.udp[a], s);
    }
  }

  lemma RegisterOk(s: State, addr: string)
    requires Ok(s)
    ensures Ok(Step(s, Register(addr)))
  {
    var t := Step(s, Register(addr));
    forall a | a in t.udp ensures PeerOk(t.udp[a], t) {
      if a in s.udp {
        assert PeerOk(s.udp[a], s);
      }
    }
  }

  lemma CloseOk(s: State)
    requires Ok(s)
    ensures Ok(Step(s, Close))
  {
    var t := Step(s, Close);
    forall id | id in s.clients ensures ClientOk(t.clients[id], s.published) {
      assert t.clients[id].Lines() == s.clients[id].Lines();
    }
    forall a | a in s.udp ensures PeerOk(t.udp[a], t) {
      assert PeerOk(s.udp[a], s);
    }
  }

  lemma StepOk(s: State, e: Event)
    requires Ok(s)
    ensures Ok(Step(s, e))
  {
    match e
    case Attach(id) => AttachOk(s, id);
    case Register(addr) => RegisterOk(s, addr);
    case Publish(line) => PublishOk(s, line);
    case Take(id) =>
      if id in s.clients {
        TakeNextOk(s.clients[id], s.published);
        ReplaceOk(s, id, TakeNext(s.clients[id]));
      }
    case Deliver(id, ok) =>
      if id in s.clients {
        WrittenOk(s.clients[id], ok, s.published);
        ReplaceOk(s, id, Written(s.clients[id], ok));
      }
    case Close => CloseOk(s);
    case _ =>
  }

  lemma {:induction false} RunOk(events: seq<Event>)
    ensures Ok(RunOf(events))
  {
    if events != [] {
      RunOk(events[..|events| - 1]);
      StepOk(RunOf(events[..|events| - 1]), events[|events| - 1]);
    }
  }

  /**
   In every interleaving, what a TCP tracer received or has pending is an in-order, repetition-free
   choice of the published lines that starts with the last 5000 at the time it attached; it is the
   whole contiguous stretch exactly when its queue never turned a line away.
   */
  lemma {:induction false} TracerStream(events: seq<Event>, id: nat)
    requires id in RunOf(events).clients
    ensures
      var s := RunOf(events);
      var c := s.clients[id];
      && Chosen(c.Lines(), c.kept, s.published)
      && c.Start() <= c.attachedAt <= c.seen <= |s.published|
      && s.published[c.Start()..c.attachedAt] <= c.Lines()
      && (c.dropped == 0 <==> c.Lines() == s.published[c.Start()..c.seen])
      && (id in s.tcp ==> c.seen == |s.published|)
  {
    RunOk(events);
    ClientStream(RunOf(events).clients[id], RunOf(events).published);
  }

  lemma ClientStream(c: Client, published: seq<string>)
    requires ClientOk(c, published)
    ensures published[c.Start()..c.attachedAt] <= c.Lines()
    ensures c.dropped == 0 <==> c.Lines() == published[c.Start()..c.seen]
  {
    var first := published[c.Start()..c.attachedAt];
    forall i | 0 <= i < |first| ensures c.Lines()[i] == first[i] {
      assert Indices(c.Start(), c.attachedAt)[i] == c.kept[i];
    }
    if c.dropped == 0 {
      forall i | 0 <= i < |c.kept| ensures c.Lines()[i] == published[c.Start() + i] {
        assert c.kept[i] == Indices(c.Start(), c.seen)[i];
      }
    }
  }

  /** A line is turned away only by a full queue. */
  lemma DropsOnlyWhenFull(s: State, e: Event, id: nat)
    requires Ok(s) && id in s.clients && Step(s, e).clients[id].dropped != s.clients[id].dropped
    ensures e.Publish? && id in s.tcp && |s.clients[id].queue| == QUEUE_DEPTH
  {}

  /** No line is ever put on a closed queue: publishing reaches open queues only. */
  lemma {:induction false} NeverSendsOnClosed(events: seq<Event>, line: string, id: nat)
    requires id in RunOf(events).clients && RunOf(events).clients[id].closed
    ensures Step(RunOf(events), Publish(line)).clients[id] == RunOf(events).clients[id]
  {
    RunOk(events);
  }

  /** A UDP tracer has been sent the recent history and then every line until the feed closed. */
  lemma {:induction false} PeerStream(events: seq<Event>, addr: string)
    requires addr in RunOf(events).udp
    ensures
      var s := RunOf(events);
      var p := s.udp[addr];
      p.start <= |s.published| && p.sent <= s.published[p.start..] && (!s.closed ==> p.sent == s.published[p.start..])
  {
    RunOk(events);
    var s := RunOf(events);
    assert PeerOk(s.udp[addr], s);
  }

  // ------------------------------------------------- the feed object

  class Feed {
    var history: seq<string>
    var tcp: set<nat>
    var clients: map<nat, Client>
    var udpPeers: map<string, Peer>
    var closed: bool
    /** Every line so far, which the source does not keep: the tracers are described against it. */
    var published: seq<string>

    ghost function View(): State
      reads this
    {
      State(published, history, tcp, clients, udpPeers, closed)
    }

    constructor ()
      ensures View() == INITIAL
    {
      history, tcp, clients, udpPeers, closed, published := [], {}, map[], map[], false, [];
    }

    /** accept: snapshot and registration in one critical section. */
    method Accept(id: nat)
      requires Ok(View()) && id !in clients
      modifies this
      ensures View() == Step(old(View()), Attach(id)) && Ok(View())
    {
      StepOk(View(), Attach(id));
      var n := |published|;
      clients := clients[id := Client([], [], history, [], false, false, Indices(n - |history|, n), n, n, 0)];
      tcp := tcp + {id};
    }

    method RegisterPeer(addr: string)
      requires Ok(View())
      modifies this
      ensures View() == Step(old(View()), Register(addr)) && Ok(View())
    {
      StepOk(View(), Register(addr));
      if addr !in udpPeers {
        udpPeers := udpPeers[addr := Peer(|published| - |history|, if closed then [] else history)];
      }
    }

    method PublishLine(line: string)
      requires Ok(View())
      modifies this
      ensures View() == Step(old(View()), Publish(line)) && Ok(View())
    {
      ghost var before := View();
      history := history + [line];
      if |history| > REPLAY_DEPTH {
        history := history[|history| - REPLAY_DEPTH..];
      }
      Broadcast(line);
      SendToPeers(line);
      published := published + [line];
      PublishOk(before, line);
    }

    method SendToPeers(line: string)
      modifies this`udpPeers
      ensures udpPeers == if closed then old(udpPeers) else SendAll(old(udpPeers), line)
    {
      if !closed {
        var left := udpPeers.Keys;
        while left != {}
          invariant left <= udpPeers.Keys == old(udpPeers).Keys
          invariant forall a | a in udpPeers ::
              udpPeers[a] ==
              if a in left then old(udpPeers)[a] else old(udpPeers)[a].(sent := old(udpPeers)[a].sent + [line])
        {
          var a :| a in left;
          udpPeers := udpPeers[a := udpPeers[a].(sent := udpPeers[a].sent + [line])];
          left := left - {a};
        }
      }
    }

    /** The loop over the attached tracers, in whatever order the map yields them. */
    method Broadcast(line: string)
      requires tcp <= clients.Keys && forall id | id in tcp :: !clients[id].closed
      modifies this`clients
      ensures clients == PushAll(old(clients), tcp, line, |published|)
    {
      var left := tcp;
      while left != {}
        invariant left <= tcp && clients.Keys == old(clients).Keys
        invariant forall id | id in clients ::
            clients[id] ==
            if id in tcp && id !in left then Push(old(clients)[id], line, |published|) else old(clients)[id]
      {
        var id :| id in left;
        assert !clients[id].closed;
        clients := clients[id := Push(clients[id], line, |published|)];
        left := left - {id};
      }
    }

    /** One step of the serving goroutine: fetch a line, then report how writing it went. */
    method ServeTake(id: nat)
      requires Ok(View()) && id in clients
      modifies this
      ensures View() == Step(old(View()), Take(id)) && Ok(View())
    {
      StepOk(View(), Take(id));
      var c := clients[id];
      if !c.done && c.taken == [] {
        if c.replay != [] {
          clients := clients[id := c.(taken := [c.replay[0]], replay := c.replay[1..])];
        } else if c.queue != [] {
          clients := clients[id := c.(taken := [c.queue[0]], queue := c.queue[1..])];
        } else if c.closed {
          clients := clients[id := c.(done := true)];
        }
      }
      assert clients == Step(old(View()), Take(id)).clients;
    }

    method ServeWritten(id: nat, ok: bool)
      requires Ok(View()) && id in clients
      modifies this
      ensures View() == Step(old(View()), Deliver(id, ok)) && Ok(View())
    {
      StepOk(View(), Deliver(id, ok));
      clients := clients[id := Written(clients[id], ok)];
    }

    /** The deferred clean-up of a goroutine that ended. */
    method ServeEnd(id: nat)
      requires Ok(View()) && id in clients && clients[id].done
      modifies this
      ensures View() == Step(old(View()), Leave(id)) && Ok(View())
    {
      StepOk(View(), Leave(id));
      tcp := tcp - {id};
    }

    method CloseFeed()
      requires Ok(View())
      modifies this
      ensures View() == Step(old(View()), Close) && Ok(View())
    {
      CloseOk(View());
      if !closed {
        closed := true;
        Disconnect();
        tcp := {};
      }
    }

    method Disconnect()
      requires tcp <= clients.Keys && forall id | id in tcp :: !clients[id].closed
      modifies this`clients
      ensures clients == CloseAll(old(clients), tcp)
    {
      var left := tcp;
      while left != {}
        invariant left <= tcp && clients.Keys == old(clients).Keys
        invariant forall id | id in clients ::
            clients[id] == if id in tcp && id !in left then old(clients)[id].(closed := true) else old(clients)[id]
      {
        var id :| id in left;
        assert !clients[id].closed;
        clients := clients[id := clients[id].(closed := true)];
        left := left - {id};
      }
    }
  }
}
