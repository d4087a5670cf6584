/**
 internal/tracerfeed/tracerfeed.go: how the service of the TCP tracers ends once the feed is closed.
 */
module FeedEnd {
  import opened TracerFeed
  import opened FeedEvents

  // ------------------------------------------------- which queues are closed

  /** The feed is closed at event c, and was not before. */
  predicate FirstClose(events: seq<Event>, c: nat) {
    c < |events| && events[c] == Close && Close !in events[..c]
  }

  ghost predicate AttachedAtClose(events: seq<Event>, id: nat) {
    exists c: nat :: FirstClose(events, c) && id in RunOf(events[..c]).tcp
  }

  lemma FirstCloseSnoc(events: seq<Event>)
    requires events != []
    ensures
      var before := events[..|events| - 1];
      forall c: nat ::
        FirstClose(events, c) <==>
        FirstClose(before, c) || (c == |before| && events[c] == Close && Close !in before)
  {
    assert forall c | 0 <= c <= |events| - 1 :: events[..|events| - 1][..c] == events[..c];
  }

  lemma AttachedSnoc(events: seq<Event>, id: nat)
    requires events != []
    ensures
      var before, e := events[..|events| - 1], events[|events| - 1];
      AttachedAtClose(events, id) <==>
      AttachedAtClose(before, id) || (e.Close? && !RunOf(before).closed && id in RunOf(before).tcp)
  {
    var before, e := events[..|events| - 1], events[|events| - 1];
    FirstCloseSnoc(events);
    ClosedIsClosed(before);
    assert events[..|before|] == before && before[..|before|] == before;
    assert e == Close && Close !in before ==> FirstClose(events, |before|);
    if c: nat :| FirstClose(before, c) && id in RunOf(before[..c]).tcp {
      assert before[..c] == events[..c];
      assert FirstClose(events, c);
    }
    if c: nat :| FirstClose(events, c) && id in RunOf(events[..c]).tcp {
      if c < |before| {
        assert before[..c] == events[..c];
        assert FirstClose(before, c);
      }
    }
  }

  /** In every run a tracer's queue is closed if and only if the tracer was attached when the feed closed. */
  lemma {:induction false} ClosedExactly(events: seq<Event>, id: nat)
    requires id in RunOf(events).clients
    ensures RunOf(events).clients[id].closed <==> AttachedAtClose(events, id)
  {
    var before, e := events[..|events| - 1], events[|events| - 1];
    AttachedSnoc(events, id);
    if id in RunOf(before).clients {
      ClosedExactly(before, id);
      ClosedStep(RunOf(before), e, id);
    } else {
      NotYetThere(before, id);
      NewStep(RunOf(before), e, id);
    }
  }

  lemma StaysKnown(s: State, e: Event, id: nat)
    requires id in s.clients
    ensures id in Step(s, e).clients
  {
  }

  lemma {:induction false} AttachedIsKnown(events: seq<Event>, id: nat)
    requires id in RunOf(events).tcp
    ensures id in RunOf(events).clients
  {
    RunOk(events);
  }

  lemma ClosedStep(s: State, e: Event, id: nat)
    requires id in s.clients
    ensures id in Step(s, e).clients
    ensures Step(s, e).clients[id].closed == (s.clients[id].closed || (e.Close? && !s.closed && id in s.tcp))
  {
  }

  lemma {:induction false} NotYetThere(events: seq<Event>, id: nat)
    requires id !in RunOf(events).clients
    ensures !AttachedAtClose(events, id)
  {
    if events != [] {
      var before := events[..|events| - 1];
      if id in RunOf(before).clients {
        StaysKnown(RunOf(before), events[|events| - 1], id);
      }
      AttachedSnoc(events, id);
      NotYetThere(before, id);
      if id in RunOf(before).tcp {
        AttachedIsKnown(before, id);
      }
    }
  }

  // ------------------------------------------------- that their service ends

  /** The turns a serving goroutine still needs: two for each line, one for a line in hand, one to end. */
  function Pending(c: Client): nat {
    if c.done then 0 else 1 + |c.taken| + 2 * (|c.replay| + |c.queue|)
  }

  /** The goroutine's own turn: it takes a line with none in hand, or is done writing the one in hand. */
  predicate Turn(c: Client, e: Event, id: nat) {
    !c.done && ((e == Take(id) && c.taken == []) || (e.Deliver? && e.id == id && c.taken != []))
  }

  /** How many turns it had in the events after the first k. */
  function Turns(events: seq<Event>, k: nat, id: nat): nat {
    if |events| <= k then 0
    else
      var before, e := events[..|events| - 1], events[|events| - 1];
      var s := RunOf(before);
      Turns(before, k, id) + if id in s.clients && Turn(s.clients[id], e, id) then 1 else 0
  }

  /** Nothing but its own turns changes a tracer whose queue is closed. */
  lemma ClosedTurn(s: State, e: Event, id: nat)
    requires Ok(s) && id in s.clients && s.clients[id].closed
    ensures id in Step(s, e).clients && Step(s, e).clients[id].closed
    ensures !Turn(s.clients[id], e, id) ==> Step(s, e).clients[id] == s.clients[id]
    ensures Turn(s.clients[id], e, id) ==> Pending(Step(s, e).clients[id]) < Pending(s.clients[id])
  {
    ClosedIsOut(s, id);
    if e.Take? && e.id == id {
      TakeTurn(s.clients[id]);
    } else if e.Deliver? && e.id == id {
      WriteTurn(s.clients[id], e.ok);
    }
  }

  lemma ClosedIsOut(s: State, id: nat)
    requires Ok(s) && id in s.clients && s.clients[id].closed
    ensures id !in s.tcp
  {
  }

  lemma TakeTurn(c: Client)
    requires c.closed
    ensures TakeNext(c).closed
    ensures if !c.done && c.taken == [] then Pending(TakeNext(c)) < Pending(c) else TakeNext(c) == c
  {
  }

  lemma WriteTurn(c: Client, ok: bool)
    requires c.closed
    ensures Written(c, ok).closed
    ensures if !c.done && c.taken != [] then Pending(Written(c, ok)) < Pending(c) else Written(c, ok) == c
  {
  }

  /** With nothing left to take or write, a closed queue ends the goroutine at its next take. */
  lemma DrainedEnds(s: State, id: nat)
    requires id in s.clients && s.clients[id].closed
    requires s.clients[id].taken == s.clients[id].replay == s.clients[id].queue == []
    ensures Step(s, Take(id)).clients[id].done
  {
  }

  /**
   A service ends exactly by a write that fails, or by a take on a closed queue with nothing left; a line is
   received exactly if its write succeeds.
   */
  lemma EndsExactly(s: State, e: Event, id: nat)
    requires id in s.clients && !s.clients[id].done
    ensures
      var c, d := s.clients[id], Step(s, e).clients[id];
      && (d.done <==>
           || (e == Deliver(id, false) && c.taken != [])
           || (e == Take(id) && c.closed && c.taken == c.replay == c.queue == []))
      && d.received == if e == Deliver(id, true) then c.received + c.taken else c.received
  {
  }

  /** From the closing on, every turn of the goroutine brings its end nearer. */
  lemma {:induction false} TurnsBringEnd(events: seq<Event>, k: nat, id: nat)
    requires k <= |events| && id in RunOf(events[..k]).clients && RunOf(events[..k]).clients[id].closed
    ensures id in RunOf(events).clients && RunOf(events).clients[id].closed
    ensures Pending(RunOf(events).clients[id]) + Turns(events, k, id) <= Pending(RunOf(events[..k]).clients[id])
    decreases |events|
  {
    if k == |events| {
      assert events[..k] == events;
    } else {
      var before := events[..|events| - 1];
      assert before[..k] == events[..k];
      TurnsBringEnd(before, k, id);
      RunOk(before);
      ClosedTurn(RunOf(before), events[|events| - 1], id);
    }
  }

  /**
   After the feed has closed, whatever else happens, a tracer attached then is done once its goroutine has
   had the turns it still needs, and it is never given more of them.
   */
  lemma {:induction false} ServiceEnds(events: seq<Event>, k: nat, id: nat)
    requires k <= |events| && id in RunOf(events[..k]).clients && AttachedAtClose(events[..k], id)
    ensures Turns(events, k, id) <= Pending(RunOf(events[..k]).clients[id])
    ensures
      && id in RunOf(events).clients
      && (Turns(events, k, id) >= Pending(RunOf(events[..k]).clients[id]) ==> RunOf(events).clients[id].done)
  {
    ClosedExactly(events[..k], id);
    TurnsBringEnd(events, k, id);
  }

  // ------------------------------------------------- with everything received

  predicate NoFailure(events: seq<Event>, id: nat) {
    forall i | 0 <= i < |events| :: events[i] != Deliver(id, false)
  }

  ghost predicate Complete(c: Client) {
    c.done ==> c.closed && c.taken == [] && c.replay == [] && c.queue == []
  }

  lemma CompleteStep(s: State, e: Event, id: nat)
    requires Ok(s) && id in s.clients && Complete(s.clients[id]) && e != Deliver(id, false)
    ensures Complete(Step(s, e).clients[id])
  {
  }

  /** A tracer that is done without a failed write was closed and has received every line kept for it. */
  lemma {:induction false} DoneHasReceivedAll(events: seq<Event>, id: nat)
    requires id in RunOf(events).clients && NoFailure(events, id)
    ensures Complete(RunOf(events).clients[id])
    ensures
      RunOf(events).clients[id].done ==>
        AttachedAtClose(events, id) && RunOf(events).clients[id].received == RunOf(events).clients[id].Lines()
  {
    var before, e := events[..|events| - 1], events[|events| - 1];
    if id in RunOf(before).clients {
      DoneHasReceivedAll(before, id);
      RunOk(before);
      CompleteStep(RunOf(before), e, id);
    }
    ClosedExactly(events, id);
  }
}