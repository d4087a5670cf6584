/**
 internal/simulator/simulator.go: when the station is in failsafe state, and which writes it approves, read
 off the events themselves: who was heard when, with which timeout, and who asked.
 */
module StationGuard {
  import opened Options
  import opened StationLimits

  // ------------------------------------------------- failsafe

  /** The clock looked at event c, and has not since. */
  predicate LastLook(h: seq<Event>, c: nat) {
    c < |h| && h[c].Clock? && forall k | c < k < |h| :: !h[k].Clock?
  }

  /** The guard's last heartbeat is event b. */
  predicate LastBeat(h: seq<Event>, b: nat) {
    b < |h| && h[b].Heartbeat? && forall k | b < k < |h| :: !h[k].Heartbeat?
  }

  predicate Announces(e: Event) {
    e.Heartbeat? && e.timeout.Some? && e.timeout.value > 0.0
  }

  predicate LastAnnouncement(h: seq<Event>, a: nat) {
    a < |h| && Announces(h[a]) && forall k | a < k < |h| :: !Announces(h[k])
  }

  /** The timeout t was announced last, or none was and t is 60 seconds. */
  ghost predicate LastTimeout(h: seq<Event>, t: real) {
    || (exists a: nat :: LastAnnouncement(h, a) && h[a].timeout.value == t)
    || (t == 60.0 && forall k | 0 <= k < |h| :: !Announces(h[k]))
  }

  /** The clock looked last at event c, when the guard had been silent for more than twice its timeout t. */
  ghost predicate TooSilent(h: seq<Event>, c: nat, b: nat, t: real) {
    && LastLook(h, c) && LastBeat(h[..c], b) && LastTimeout(h[..c], t)
    && h[c].now - h[b].now > 2.0 * t
  }

  lemma AnnouncementSnoc(h: seq<Event>, t: real)
    requires h != [] && LastTimeout(h[..|h| - 1], t)
    ensures LastTimeout(h, if Announces(h[|h| - 1]) then h[|h| - 1].timeout.value else t)
  {
    var before, e := h[..|h| - 1], h[|h| - 1];
    if Announces(e) {
      assert LastAnnouncement(h, |before|);
    } else if a: nat :| LastAnnouncement(before, a) && before[a].timeout.value == t {
      assert LastAnnouncement(h, a);
    }
  }

  lemma {:induction false} TimeoutIsLast(h: seq<Event>)
    ensures LastTimeout(h, RunOf(h).guard.timeout)
  {
    if h != [] {
      var before, e := h[..|h| - 1], h[|h| - 1];
      TimeoutIsLast(before);
      AnnouncementSnoc(h, RunOf(before).guard.timeout);
      OnlyGuardEvents(RunOf(before), e);
    }
  }

  lemma OneTimeout(h: seq<Event>, t: real, u: real)
    requires LastTimeout(h, t) && LastTimeout(h, u)
    ensures t == u
  {
  }

  ghost predicate SeenAt(h: seq<Event>, seen: Option<real>) {
    match seen
    case Some(time) => exists b: nat :: LastBeat(h, b) && h[b].now == time
    case None => forall b: nat :: !LastBeat(h, b)
  }

  lemma {:induction false} SeenIsLast(h: seq<Event>)
    ensures SeenAt(h, RunOf(h).guard.seen)
  {
    if h != [] {
      var before, e := h[..|h| - 1], h[|h| - 1];
      SeenIsLast(before);
      OnlyGuardEvents(RunOf(before), e);
      BeatSnoc(h);
    }
  }

  lemma BeatSnoc(h: seq<Event>)
    requires h != []
    ensures h[|h| - 1].Heartbeat? ==> LastBeat(h, |h| - 1)
    ensures !h[|h| - 1].Heartbeat? ==> forall b: nat :: LastBeat(h, b) <==> LastBeat(h[..|h| - 1], b)
  {
  }

  lemma {:induction false} FailsafeSinceLook(h: seq<Event>, c: nat)
    requires LastLook(h, c)
    ensures RunOf(h).guard.failsafe == GuardStep(RunOf(h[..c]).guard, h[c]).failsafe
    decreases |h|
  {
    var before, e := h[..|h| - 1], h[|h| - 1];
    OnlyGuardEvents(RunOf(before), e);
    if c + 1 < |h| {
      assert before[..c] == h[..c];
      FailsafeSinceLook(before, c);
    }
  }

  ghost predicate Looked(h: seq<Event>) {
    exists c: nat :: LastLook(h, c)
  }

  lemma LookSnoc(h: seq<Event>)
    requires h != [] && (h[|h| - 1].Clock? || Looked(h[..|h| - 1]))
    ensures Looked(h)
  {
    if h[|h| - 1].Clock? {
      assert LastLook(h, |h| - 1);
    } else {
      var c: nat :| LastLook(h[..|h| - 1], c);
      assert LastLook(h, c);
    }
  }

  lemma FailsafeStep(s: Limits, e: Event)
    requires Step(s, e).guard.failsafe
    ensures e.Clock? || s.guard.failsafe
  {
    OnlyGuardEvents(s, e);
  }

  lemma {:induction false} NeverLooked(h: seq<Event>)
    requires RunOf(h).guard.failsafe
    ensures Looked(h)
  {
    var before := h[..|h| - 1];
    FailsafeStep(RunOf(before), h[|h| - 1]);
    if !h[|h| - 1].Clock? {
      NeverLooked(before);
    }
    LookSnoc(h);
  }

  lemma {:induction false} LookDecides(h: seq<Event>, c: nat)
    requires LastLook(h, c)
    ensures RunOf(h).guard.failsafe <==> exists b: nat, t :: TooSilent(h, c, b, t)
  {
    var g := RunOf(h[..c]).guard;
    FailsafeSinceLook(h, c);
    TimeoutIsLast(h[..c]);
    SeenIsLast(h[..c]);
    if g.seen.Some? {
      var b: nat :| LastBeat(h[..c], b) && h[..c][b].now == g.seen.value;
      assert RunOf(h).guard.failsafe ==> TooSilent(h, c, b, g.timeout);
    }
    forall b: nat, t | TooSilent(h, c, b, t) ensures RunOf(h).guard.failsafe {
      OneTimeout(h[..c], t, g.timeout);
      assert h[..c][b] == h[b];
    }
  }

  /**
   After any run the station is in failsafe state if and only if, when the clock looked last, the guard had
   been heard, and its last heartbeat was more than twice the timeout ago that it had announced last, or
   twice 60 seconds if it had not announced any.
   */
  lemma {:induction false} FailsafeExactly(h: seq<Event>)
    ensures RunOf(h).guard.failsafe <==> exists c: nat, b: nat, t :: TooSilent(h, c, b, t)
  {
    if RunOf(h).guard.failsafe {
      NeverLooked(h);
      var c: nat :| LastLook(h, c);
      LookDecides(h, c);
    }
    forall c: nat, b: nat, t | TooSilent(h, c, b, t) ensures RunOf(h).guard.failsafe {
      LookDecides(h, c);
    }
  }

  // ------------------------------------------------- approvals

  /** The guard had been heard and the station was not in failsafe state. */
  predicate Listening(h: seq<Event>) {
    !RunOf(h).guard.failsafe && exists b :: 0 <= b < |h| && h[b].Heartbeat?
  }

  /** How often w was asked for when it could be approved: a limit that is not negative, with a live guard. */
  function AskedFor(h: seq<Event>, w: LimitWrite): nat {
    if h == [] then 0
    else
      var before, e := h[..|h| - 1], h[|h| - 1];
      AskedFor(before, w) + if e.Ask? && w.value >= 0.0 && Listening(before) then multiset(e.pending)[w] else 0
  }

  /** How often it was stored. */
  function StoredTimes(h: seq<Event>, w: LimitWrite): nat {
    if h == [] then 0
    else
      var before, e := h[..|h| - 1], h[|h| - 1];
      StoredTimes(before, w) + if Stores(RunOf(before), e) && e.write == w then 1 else 0
  }

  lemma {:induction false} GrantedCount(pending: seq<LimitWrite>, guarded: bool, w: LimitWrite)
    ensures Granted(pending, guarded)[w] == if guarded && w.value >= 0.0 then multiset(pending)[w] else 0
  {
    if pending != [] {
      var n := |pending| - 1;
      GrantedCount(pending[..n], guarded, w);
      assert pending == pending[..n] + [pending[n]];
    }
  }

  lemma {:induction false} ListeningIsGuarded(h: seq<Event>)
    ensures Listening(h) == Guarded(RunOf(h).guard.seen, RunOf(h).guard.failsafe)
  {
    SeenIsLast(h);
    match RunOf(h).guard.seen
    case Some(time) =>
      var b: nat :| LastBeat(h, b) && h[b].now == time;
    case None =>
      if b :| 0 <= b < |h| && h[b].Heartbeat? {
        var last := NewestBeat(h, b);
      }
  }

  lemma {:induction false} NewestBeat(h: seq<Event>, b: nat) returns (last: nat)
    requires b < |h| && h[b].Heartbeat?
    ensures LastBeat(h, last)
    decreases |h|
  {
    if h[|h| - 1].Heartbeat? {
      last := |h| - 1;
    } else {
      last := NewestBeat(h[..|h| - 1], b);
    }
  }

  /** In every run the approved writes and the stored ones together are those asked for with a live guard. */
  lemma {:induction false} ApprovedExactly(h: seq<Event>, w: LimitWrite)
    ensures RunOf(h).approved[w] + StoredTimes(h, w) == AskedFor(h, w)
  {
    if h != [] {
      var before, e := h[..|h| - 1], h[|h| - 1];
      ApprovedExactly(before, w);
      ListeningIsGuarded(before);
      ApprovedCount(RunOf(before), e, w);
    }
  }

  lemma ApprovedCount(s: Limits, e: Event, w: LimitWrite)
    ensures
      Step(s, e).approved[w] + (if Stores(s, e) && e.write == w then 1 else 0) ==
      s.approved[w] +
      if e.Ask? && w.value >= 0.0 && Guarded(s.guard.seen, s.guard.failsafe) then multiset(e.pending)[w] else 0
  {
    if e.Ask? {
      GrantedCount(e.pending, Guarded(s.guard.seen, s.guard.failsafe), w);
    }
  }

  // ------------------------------------------------- timers

  /** The timer of the update applied last has fired: its expiry has at least passed the check. */
  predicate OwnFired(h: seq<Event>) {
    if h == [] then false
    else
      var s, e := RunOf(h[..|h| - 1]), h[|h| - 1];
      && !Applies(s, e)
      && ((e.ExpireCheck? && e.timer in s.running && e.timer == s.generation) || OwnFired(h[..|h| - 1]))
  }

  ghost predicate TimersOk(s: Limits, fired: bool) {
    && (forall t | t in s.running || t in s.checked || t in s.copied || t in s.wrote :: t <= s.generation)
    && (s.generation in s.checked || s.generation in s.copied || s.generation in s.wrote ==> fired)
    && (s.generation in s.running || fired <==> s.held.limit.active && s.held.limit.duration > 0.0)
    && !(s.generation in s.running && fired)
  }

  lemma TimersStep(s: Limits, e: Event, fired: bool)
    requires TimersOk(s, fired)
    ensures
      TimersOk(Step(s, e),
               !Applies(s, e) && ((e.ExpireCheck? && e.timer in s.running && e.timer == s.generation) || fired))
  {
    match e
    case UpdateApply(_) =>
    case ExpireCheck(_) =>
    case ExpireRead(_) =>
    case ExpireFail(_) =>
    case ExpireWrite(_) =>
    case ExpireCommit(_) =>
    case _ =>
  }

  lemma {:induction false} TimersOfRun(h: seq<Event>)
    ensures TimersOk(RunOf(h), OwnFired(h))
    ensures OwnExpired(h) ==> OwnFired(h)
  {
    if h != [] {
      TimersOfRun(h[..|h| - 1]);
      TimersStep(RunOf(h[..|h| - 1]), h[|h| - 1], OwnFired(h[..|h| - 1]));
    }
  }

  /**
   In every run the limit applied last has a timer, which runs or has fired, exactly when it was read as
   active and with a duration; only such a limit can be cleared by its own timer.
   */
  lemma {:induction false} TimedExactly(h: seq<Event>)
    ensures
      RunOf(h).generation in RunOf(h).running || OwnFired(h) <==>
      RunOf(h).held.limit.active && RunOf(h).held.limit.duration > 0.0
    ensures OwnExpired(h) ==> RunOf(h).held.limit.duration > 0.0
  {
    TimersOfRun(h);
  }
}
