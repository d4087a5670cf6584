/**
 internal/simulator/simulator.go: the simulated station's consumption limit.

 A written limit is stored in the published limit data, and a goroutine of its own then applies the
 update: it reads that data and installs what it read under the lock. An expiry checks its generation
 under the lock, reads the data, writes it back inactive and clears the limit under the lock again.
 None of them holds the lock between these steps, so all of them interleave freely, with guard
 heartbeats and the one-second clock. A stopped timer may still have fired already, so timers are never
 taken back here.
 */
module StationLimits {
  import opened Options

  const DEFAULT_GUARD_TIMEOUT: real := 60.0

  /** A limit as a controller writes it. */
  datatype LimitWrite = LimitWrite(value: real, active: bool, duration: real)

  /** The published data: the limit, the number of the write it stems from, and whether an expiry wrote it. */
  datatype Data = Data(limit: LimitWrite, number: nat, back: bool)

  datatype Guard = Guard(seen: Option<real>, timeout: real, failsafe: bool, failsafeW: real)

  /**
   `stores` counts the stored writes, `due` are those whose update has not read the data, `copies` what
   the updates under way have read. `held` is the data applied last. An expiry under way is in `checked`,
   then in `copied` with what it has read, then in `wrote`.
   */
  datatype Limits = Limits(
    approved: multiset<LimitWrite>, data: Data, stores: nat, due: set<nat>, copies: map<nat, Data>,
    held: Data, active: bool, generation: nat,
    running: set<nat>, checked: set<nat>, copied: map<nat, Data>, wrote: set<nat>, guard: Guard)

  datatype Event =
    | Ask(pending: seq<LimitWrite>)
    | Store(write: LimitWrite)
    | UpdateRead(number: nat, over: bool)
    | UpdateFail(number: nat)
    | UpdateApply(number: nat)
    | ExpireCheck(timer: nat)
    | ExpireRead(timer: nat)
    | ExpireFail(timer: nat)
    | ExpireWrite(timer: nat)
    | ExpireCommit(timer: nat)
    | Heartbeat(now: real, timeout: Option<real>)
    | FailsafeRead(failsafeW: real)
    | Clock(now: real)
    | Compute
    | Publish(report: nat)

  const NO_LIMIT := LimitWrite(0.0, false, 0.0)
  const UNWRITTEN := Data(NO_LIMIT, 0, false)
  const UNSEEN := Guard(None, DEFAULT_GUARD_TIMEOUT, false, 0.0)

  const INITIAL :=
    Limits(multiset{}, UNWRITTEN, 0, {}, map[], UNWRITTEN, false, 0, {}, {}, map[], {}, UNSEEN)

  // ------------------------------------------------- single steps

  /** Limit writes are evaluated only with a guard heartbeat and outside failsafe state. */
  predicate Guarded(seen: Option<real>, failsafe: bool) {
    seen.Some? && !failsafe
  }

  /** The pending writes that get through; a negative limit never does. */
  function Granted(pending: seq<LimitWrite>, guarded: bool): multiset<LimitWrite> {
    if pending == [] then multiset{}
    else
      var last := pending[|pending| - 1];
      Granted(pending[..|pending| - 1], guarded) + if guarded && last.value >= 0.0 then multiset{last} else multiset{}
  }

  /** Write by write. */
  function Decisions(pending: seq<LimitWrite>, guarded: bool): seq<bool> {
    seq(|pending|, i requires 0 <= i < |pending| => guarded && pending[i].value >= 0.0)
  }

  function Announced(current: real, timeout: Option<real>): real {
    if timeout.Some? && timeout.value > 0.0 then timeout.value else current
  }

  predicate Silent(seen: Option<real>, timeout: real, now: real) {
    seen.Some? && now - seen.value > 2.0 * timeout
  }

  function GuardStep(g: Guard, e: Event): Guard {
    match e
    case Heartbeat(now, timeout) => g.(seen := Some(now), timeout := Announced(g.timeout, timeout))
    case FailsafeRead(w) => g.(failsafeW := w)
    case Clock(now) => g.(failsafe := Silent(g.seen, g.timeout, now))
    case _ => g
  }

  predicate Timed(w: LimitWrite) {
    w.active && w.duration > 0.0
  }

  /** What a read of the data gives: a limit with a duration is inactive once its time is over. */
  function Current(d: Data, over: bool): Data {
    if over && d.limit.duration > 0.0 then d.(limit := d.limit.(active := false, duration := 0.0)) else d
  }

  /** What an expiry writes back. */
  function Ended(d: Data): Data {
    d.(limit := d.limit.(active := false, duration := 0.0), back := true)
  }

  // The events that take effect.

  predicate Stores(s: Limits, e: Event) {
    e.Store? && e.write in s.approved
  }

  predicate Reads(s: Limits, e: Event) {
    e.UpdateRead? && e.number in s.due
  }

  predicate Applies(s: Limits, e: Event) {
    e.UpdateApply? && e.number in s.copies
  }

  predicate WritesBack(s: Limits, e: Event) {
    e.ExpireWrite? && e.timer in s.copied
  }

  predicate Commits(s: Limits, e: Event) {
    e.ExpireCommit? && e.timer in s.wrote
  }

  function Stored(s: Limits, w: LimitWrite): Limits {
    s.(approved := s.approved - multiset{w}, data := Data(w, s.stores + 1, false), stores := s.stores + 1,
       due := s.due + {s.stores + 1})
  }

  function Applied(s: Limits, n: nat): Limits
    requires n in s.copies
  {
    var copy := s.copies[n];
    s.(copies := s.copies - {n}, held := copy, active := copy.limit.active, generation := s.generation + 1,
       running := if Timed(copy.limit) then s.running + {s.generation + 1} else s.running)
  }

  function Expiring(s: Limits, e: Event): Limits {
    match e
    case ExpireCheck(t) =>
      if t !in s.running then s
      else s.(running := s.running - {t}, checked := if t == s.generation then s.checked + {t} else s.checked)
    case ExpireRead(t) =>
      if t !in s.checked then s else s.(checked := s.checked - {t}, copied := s.copied[t := s.data])
    case ExpireFail(t) => s.(checked := s.checked - {t}, copied := s.copied - {t})
    case ExpireWrite(t) =>
      if t !in s.copied then s
      else s.(copied := s.copied - {t}, wrote := s.wrote + {t}, data := Ended(s.copied[t]))
    case ExpireCommit(t) => if t !in s.wrote then s else s.(wrote := s.wrote - {t}, active := false)
    case _ => s
  }

  function Step(s: Limits, e: Event): Limits {
    match e
    case Ask(pending) => s.(approved := s.approved + Granted(pending, Guarded(s.guard.seen, s.guard.failsafe)))
    case Store(w) => if Stores(s, e) then Stored(s, w) else s
    case UpdateRead(n, over) =>
      if Reads(s, e) then s.(due := s.due - {n}, copies := s.copies[n := Current(s.data, over)]) else s
    case UpdateFail(n) => s.(due := s.due - {n})
    case UpdateApply(n) => if Applies(s, e) then Applied(s, n) else s
    case Heartbeat(_, _) => s.(guard := GuardStep(s.guard, e))
    case FailsafeRead(_) => s.(guard := GuardStep(s.guard, e))
    case Clock(_) => s.(guard := GuardStep(s.guard, e))
    case _ => Expiring(s, e)
  }

  function RunOf(h: seq<Event>): Limits {
    if h == [] then INITIAL else Step(RunOf(h[..|h| - 1]), h[|h| - 1])
  }

  /** The limit the station holds: the failsafe limit in failsafe state, otherwise the written one if active. */
  function EffectiveLimit(s: Limits): Option<real> {
    if s.guard.failsafe then Some(s.guard.failsafeW)
    else if s.active then Some(s.held.limit.value)
    else None
  }

  // ------------------------------------------------- the guard

  function LastSeen(h: seq<Event>): Option<real> {
    if h == [] then None
    else match h[|h| - 1]
      case Heartbeat(now, _) => Some(now)
      case _ => LastSeen(h[..|h| - 1])
  }

  /** The timeout the guard announced last, 60 s before it announced any. */
  function GuardTimeout(h: seq<Event>): real {
    if h == [] then DEFAULT_GUARD_TIMEOUT
    else match h[|h| - 1]
      case Heartbeat(_, timeout) => Announced(GuardTimeout(h[..|h| - 1]), timeout)
      case _ => GuardTimeout(h[..|h| - 1])
  }

  /** Whether the guard was silent for too long when the clock last looked. */
  predicate InFailsafe(h: seq<Event>) {
    if h == [] then false
    else match h[|h| - 1]
      case Clock(now) => Silent(LastSeen(h[..|h| - 1]), GuardTimeout(h[..|h| - 1]), now)
      case _ => InFailsafe(h[..|h| - 1])
  }

  /** The failsafe limit read last. */
  function FailsafeLimit(h: seq<Event>): real {
    if h == [] then 0.0
    else match h[|h| - 1]
      case FailsafeRead(w) => w
      case _ => FailsafeLimit(h[..|h| - 1])
  }

  /** The guard side always reflects the history. */
  lemma {:induction false} GuardReflectsHistory(h: seq<Event>)
    ensures RunOf(h).guard == Guard(LastSeen(h), GuardTimeout(h), InFailsafe(h), FailsafeLimit(h))
  {
    if h != [] {
      GuardReflectsHistory(h[..|h| - 1]);
      OnlyGuardEvents(RunOf(h[..|h| - 1]), h[|h| - 1]);
    }
  }

  lemma OnlyGuardEvents(s: Limits, e: Event)
    ensures Step(s, e).guard == GuardStep(s.guard, e)
  {
  }

  // ------------------------------------------------- the history of the data

  /** The write stored last. */
  function LastStored(h: seq<Event>): LimitWrite {
    if h == [] then NO_LIMIT
    else
      var before := h[..|h| - 1];
      if Stores(RunOf(before), h[|h| - 1]) then h[|h| - 1].write else LastStored(before)
  }

  /** A write was stored after the first r events. */
  predicate StoredSince(h: seq<Event>, r: nat) {
    |h| > r && (Stores(RunOf(h[..|h| - 1]), h[|h| - 1]) || StoredSince(h[..|h| - 1], r))
  }

  /** An expiry has written the data back since the last write was stored. */
  predicate WrittenBack(h: seq<Event>) {
    if h == [] then false
    else
      var before, e := h[..|h| - 1], h[|h| - 1];
      !Stores(RunOf(before), e) && (WritesBack(RunOf(before), e) || WrittenBack(before))
  }

  /** The published data is the write stored last, until an expiry writes it back. */
  lemma {:induction false} DataReflectsHistory(h: seq<Event>)
    ensures
      var s := RunOf(h);
      && s.data.back == WrittenBack(h) && s.data.number <= s.stores
      && (if s.data.back then !s.data.limit.active && s.data.limit.duration == 0.0
          else s.data.limit == LastStored(h) && s.data.number == s.stores)
      && (forall t | t in s.copied :: s.copied[t].number <= s.stores)
  {
    if h != [] {
      DataReflectsHistory(h[..|h| - 1]);
      DataStep(RunOf(h[..|h| - 1]), h[|h| - 1]);
    }
  }

  lemma DataStep(s: Limits, e: Event)
    ensures
      Step(s, e).data ==
      if Stores(s, e) then Data(e.write, s.stores + 1, false) else if WritesBack(s, e) then Ended(s.copied[e.timer])
        else s.data
    ensures Step(s, e).stores == if Stores(s, e) then s.stores + 1 else s.stores
    ensures forall t | t in Step(s, e).copied ::
      (t in s.copied && Step(s, e).copied[t] == s.copied[t]) || Step(s, e).copied[t] == s.data
  {
  }

  /** More has been stored since exactly when the number of writes went up. */
  lemma {:induction false} StoresGrow(h: seq<Event>, r: nat)
    requires r <= |h|
    ensures RunOf(h[..r]).stores <= RunOf(h).stores
    ensures RunOf(h[..r]).stores < RunOf(h).stores <==> StoredSince(h, r)
    ensures !StoredSince(h, r) ==> LastStored(h[..r]) == LastStored(h)
    decreases |h|
  {
    if r == |h| {
      assert h[..r] == h;
    } else {
      var before := h[..|h| - 1];
      assert before[..r] == h[..r];
      StoresGrow(before, r);
      DataStep(RunOf(before), h[|h| - 1]);
    }
  }

  // ------------------------------------------------- what the updates have read

  /** How many events came before update n read the data. */
  function ReadAt(h: seq<Event>, n: nat): (r: nat)
    ensures r <= |h|
  {
    if h == [] then 0
    else
      var before, e := h[..|h| - 1], h[|h| - 1];
      if Reads(RunOf(before), e) && e.number == n then |h| - 1 else ReadAt(before, n)
  }

  /** Update n read the data when its time was over. */
  predicate ReadLate(h: seq<Event>, n: nat) {
    if h == [] then false
    else
      var before, e := h[..|h| - 1], h[|h| - 1];
      if Reads(RunOf(before), e) && e.number == n then e.over else ReadLate(before, n)
  }

  /** How many events came before the update applied last read the data. */
  function AppliedRead(h: seq<Event>): (r: nat)
    ensures r <= |h|
  {
    if h == [] then 0
    else
      var before, e := h[..|h| - 1], h[|h| - 1];
      if Applies(RunOf(before), e) then ReadAt(before, e.number) else AppliedRead(before)
  }

  predicate AppliedLate(h: seq<Event>) {
    if h == [] then false
    else
      var before, e := h[..|h| - 1], h[|h| - 1];
      if Applies(RunOf(before), e) then ReadLate(before, e.number) else AppliedLate(before)
  }

  lemma HeldStep(s: Limits, e: Event)
    ensures Step(s, e).held == if Applies(s, e) then s.copies[e.number] else s.held
    ensures forall n | n in Step(s, e).copies ::
      if Reads(s, e) && e.number == n then Step(s, e).copies[n] == Current(s.data, e.over)
      else n in s.copies && Step(s, e).copies[n] == s.copies[n]
  {
  }

  lemma {:induction false} CopyIsRead(h: seq<Event>, n: nat)
    requires n in RunOf(h).copies
    ensures RunOf(h).copies[n] == Current(RunOf(h[..ReadAt(h, n)]).data, ReadLate(h, n))
  {
    if h != [] {
      var before := h[..|h| - 1];
      HeldStep(RunOf(before), h[|h| - 1]);
      if !(Reads(RunOf(before), h[|h| - 1]) && h[|h| - 1].number == n) {
        CopyIsRead(before, n);
        assert before[..ReadAt(before, n)] == h[..ReadAt(h, n)];
      }
    }
  }

  /** The station holds what the update applied last has read. */
  lemma {:induction false} HeldIsRead(h: seq<Event>)
    ensures RunOf(h).held == Current(RunOf(h[..AppliedRead(h)]).data, AppliedLate(h))
  {
    if h == [] {
      assert h[..0] == h;
    } else {
      var before, e := h[..|h| - 1], h[|h| - 1];
      HeldStep(RunOf(before), e);
      assert before[..AppliedRead(h)] == h[..AppliedRead(h)];
      if Applies(RunOf(before), e) {
        CopyIsRead(before, e.number);
      } else {
        HeldIsRead(before);
      }
    }
  }

  // ------------------------------------------------- expiries

  /** The timer started with the update applied last has run out and cleared the limit. */
  predicate OwnExpired(h: seq<Event>) {
    if h == [] then false
    else
      var s, e := RunOf(h[..|h| - 1]), h[|h| - 1];
      !Applies(s, e) && ((Commits(s, e) && e.timer == s.generation) || OwnExpired(h[..|h| - 1]))
  }

  /** The time of the limit applied last is over: its timer has cleared it, or it was read only afterwards. */
  predicate TimeOver(h: seq<Event>) {
    OwnExpired(h) || (AppliedLate(h) && LastStored(h[..AppliedRead(h)]).duration > 0.0)
  }

  /** Another timer has cleared the limit since the last update was applied. */
  predicate OtherExpired(h: seq<Event>) {
    if h == [] then false
    else
      var s, e := RunOf(h[..|h| - 1]), h[|h| - 1];
      !Applies(s, e) && ((Commits(s, e) && e.timer != s.generation) || OtherExpired(h[..|h| - 1]))
  }

  lemma ActiveStep(s: Limits, e: Event)
    ensures
      Step(s, e).active ==
      if Applies(s, e) then s.copies[e.number].limit.active else if Commits(s, e) then false else s.active
  {
  }

  lemma {:induction false} ActiveReflectsHistory(h: seq<Event>)
    ensures RunOf(h).active == (RunOf(h).held.limit.active && !OwnExpired(h) && !OtherExpired(h))
  {
    if h != [] {
      var before := h[..|h| - 1];
      ActiveReflectsHistory(before);
      ActiveStep(RunOf(before), h[|h| - 1]);
      HeldStep(RunOf(before), h[|h| - 1]);
    }
  }

  // ------------------------------------------------- the limit in force

  /**
   The limit in force at any moment of any run: the write stored last before the update applied last read
   the data, if it is active and its time is not over, unless an expiry had written the data back by then,
   or another timer has cleared the limit since.
   */
  lemma {:induction false} LimitInForce(h: seq<Event>)
    ensures
      var s, read := RunOf(h), h[..AppliedRead(h)];
      && s.active == (LastStored(read).active && !TimeOver(h) && !WrittenBack(read) && !OtherExpired(h))
      && (s.active ==> s.held.limit == LastStored(read))
  {
    ActiveReflectsHistory(h);
    HeldIsRead(h);
    DataReflectsHistory(h[..AppliedRead(h)]);
  }

  /** The write stored last is in force. */
  predicate LastInForce(h: seq<Event>) {
    RunOf(h).active && RunOf(h).held.number == RunOf(h).stores
  }

  /**
   Nothing got in the way of the write stored last: the update applied last read the data after it was
   stored and before any expiry wrote the data back, and no other timer has cleared the limit since.
   */
  predicate Undisturbed(h: seq<Event>) {
    !StoredSince(h, AppliedRead(h)) && !WrittenBack(h[..AppliedRead(h)]) && !OtherExpired(h)
  }

  /**
   At any moment of any run, whatever is still under way, the write stored last is in force if and only if
   it is active, its time is not over, and nothing got in its way.
   */
  lemma {:induction false} LastInForceExactly(h: seq<Event>)
    ensures LastInForce(h) <==> LastStored(h).active && !TimeOver(h) && Undisturbed(h)
  {
    var r := AppliedRead(h);
    LimitInForce(h);
    HeldIsRead(h);
    DataReflectsHistory(h[..r]);
    StoresGrow(h, r);
  }

  /**
   A limit is in force although the write stored last is inactive exactly when the update applied last
   had read the data before that write was stored, an active limit then, and its time is not over and no
   other timer has cleared it since.
   */
  lemma {:induction false} InactiveExactly(h: seq<Event>)
    requires !LastStored(h).active
    ensures
      var read := h[..AppliedRead(h)];
      RunOf(h).active <==>
      && StoredSince(h, AppliedRead(h)) && LastStored(read).active && !WrittenBack(read)
      && !TimeOver(h) && !OtherExpired(h)
  {
    LimitInForce(h);
    StoresGrow(h, AppliedRead(h));
  }

  /** The limit the history calls for. */
  function ExpectedLimit(h: seq<Event>): Option<real> {
    if InFailsafe(h) then Some(FailsafeLimit(h))
    else if LastStored(h).active && !TimeOver(h) then Some(LastStored(h).value)
    else None
  }

  /** With nothing in its way, the effective limit is exactly the one the history calls for. */
  lemma {:induction false} EffectiveReflectsHistory(h: seq<Event>)
    requires Undisturbed(h)
    ensures EffectiveLimit(RunOf(h)) == ExpectedLimit(h)
  {
    LimitInForce(h);
    StoresGrow(h, AppliedRead(h));
    GuardReflectsHistory(h);
  }

  // ------------------------------------------------- one at a time

  /** No update is to come or under way, and no expiry is under way. */
  predicate Quiet(s: Limits) {
    NoUpdate(s) && s.checked == {} && s.copied == map[] && s.wrote == {}
  }

  predicate NoUpdate(s: Limits) {
    s.due == {} && s.copies == map[]
  }

  /** A write is stored, or an expiry begun, only when nothing else is under way, and no update fails. */
  predicate OneAtATime(h: seq<Event>) {
    if h == [] then true
    else
      var s, e := RunOf(h[..|h| - 1]), h[|h| - 1];
      && OneAtATime(h[..|h| - 1])
      && (Stores(s, e) || e.ExpireCheck? ==> Quiet(s))
      && (e.UpdateFail? ==> e.number !in s.due)
  }

  ghost predicate Orderly(s: Limits) {
    && (NoUpdate(s) || (s.checked == {} && s.copied == map[] && s.wrote == {}))
    && s.due <= {s.stores} && s.copies.Keys <= {s.stores} && s.due !! s.copies.Keys
    && s.checked <= {s.generation} && s.copied.Keys <= {s.generation} && s.wrote <= {s.generation}
  }

  lemma OrderlyStep(s: Limits, e: Event)
    requires Orderly(s) && (Stores(s, e) || e.ExpireCheck? ==> Quiet(s))
    ensures Orderly(Step(s, e))
  {
    match e
    case Store(_) =>
    case UpdateRead(_, _) =>
    case UpdateApply(_) =>
    case ExpireCheck(_) =>
    case ExpireRead(_) =>
    case ExpireWrite(_) =>
    case ExpireCommit(_) =>
    case _ =>
  }

  lemma {:induction false} OrderlyRun(h: seq<Event>)
    requires OneAtATime(h)
    ensures Orderly(RunOf(h))
  {
    if h != [] {
      OrderlyRun(h[..|h| - 1]);
      OrderlyStep(RunOf(h[..|h| - 1]), h[|h| - 1]);
    }
  }

  /** What the events of updates and expiries mean for what is under way. */
  lemma UnderWayStep(s: Limits, e: Event)
    ensures Stores(s, e) ==> s.stores + 1 in Step(s, e).due && Step(s, e).copies == s.copies
    ensures !Stores(s, e) ==> Step(s, e).due <= s.due
    ensures WritesBack(s, e) ==> e.timer in s.copied && Step(s, e).due == s.due
  {
  }

  lemma NothingLeft(s: Limits, e: Event)
    requires NoUpdate(Step(s, e)) && !Applies(s, e) && (e.UpdateFail? ==> e.number !in s.due)
    ensures NoUpdate(s) && !Stores(s, e)
  {
    match e
    case Store(_) => UnderWayStep(s, e);
    case UpdateRead(n, _) => assert Reads(s, e) ==> n in Step(s, e).copies;
    case UpdateFail(n) => assert s.due - {n} == s.due;
    case _ =>
  }

  /** While a write waits for its update, no expiry has written the data back since it was stored. */
  lemma {:induction false} UnreadData(h: seq<Event>)
    requires OneAtATime(h) && RunOf(h).due != {}
    ensures !WrittenBack(h)
  {
    var before := h[..|h| - 1];
    var s, e := RunOf(before), h[|h| - 1];
    OrderlyRun(before);
    UnderWayStep(s, e);
    if !Stores(s, e) {
      UnreadData(before);
    }
  }

  /** What an update under way has read is still the newest. */
  predicate FreshCopy(h: seq<Event>, n: nat) {
    !StoredSince(h, ReadAt(h, n)) && !WrittenBack(h[..ReadAt(h, n)])
  }

  lemma {:induction false} NothingSinceAll(h: seq<Event>)
    ensures !StoredSince(h, |h|)
  {
  }

  lemma {:induction false} CopiesFresh(h: seq<Event>, n: nat)
    requires OneAtATime(h) && n in RunOf(h).copies
    ensures FreshCopy(h, n)
  {
    var before := h[..|h| - 1];
    var s, e := RunOf(before), h[|h| - 1];
    UnderWayStep(s, e);
    HeldStep(s, e);
    assert !Stores(s, e);
    if Reads(s, e) && e.number == n {
      UnreadData(before);
      NothingSinceAll(before);
      assert h[..|h| - 1] == before;
    } else {
      CopiesFresh(before, n);
      assert before[..ReadAt(before, n)] == h[..ReadAt(h, n)];
    }
  }

  /** While only one thing is under way at a time, nothing ever gets in the way of a write. */
  lemma {:induction false} OneAtATimeUndisturbed(h: seq<Event>)
    requires OneAtATime(h) && NoUpdate(RunOf(h))
    ensures Undisturbed(h)
  {
    if h == [] {
      assert h[..0] == [];
    } else {
      var before := h[..|h| - 1];
      var s, e := RunOf(before), h[|h| - 1];
      OrderlyRun(before);
      if Applies(s, e) {
        CopiesFresh(before, e.number);
        assert before[..ReadAt(before, e.number)] == h[..AppliedRead(h)];
      } else {
        NothingLeft(s, e);
        OneAtATimeUndisturbed(before);
        assert before[..AppliedRead(before)] == h[..AppliedRead(h)];
      }
    }
  }

  // ------------------------------------------------- and when they overlap

  lemma {:induction false} Snoc(h: seq<Event>, e: Event)
    ensures RunOf(h + [e]) == Step(RunOf(h), e)
    ensures LastStored(h + [e]) == if Stores(RunOf(h), e) then e.write else LastStored(h)
  {
    assert (h + [e])[..|h|] == h;
  }

  /** Two writes are approved: a timed one, and a permanent one after it. */
  predicate Successive(first: LimitWrite, second: LimitWrite) {
    0.0 <= first.value && Timed(first) && 0.0 <= second.value && second.active && !Timed(second)
  }

  function BothApproved(first: LimitWrite, second: LimitWrite): Limits {
    INITIAL.(approved := multiset{first, second}, guard := UNSEEN.(seen := Some(0.0)))
  }

  function Asked(first: LimitWrite, second: LimitWrite): seq<Event> {
    [Heartbeat(0.0, None)] + [Ask([first, second])]
  }

  lemma AskedBoth(first: LimitWrite, second: LimitWrite)
    requires Successive(first, second)
    ensures RunOf(Asked(first, second)) == BothApproved(first, second)
    ensures LastStored(Asked(first, second)) == NO_LIMIT
  {
    GrantedBoth(first, second);
    Snoc([], Heartbeat(0.0, None));
    assert [] + [Heartbeat(0.0, None)] == [Heartbeat(0.0, None)];
    Snoc([Heartbeat(0.0, None)], Ask([first, second]));
  }

  lemma GrantedBoth(first: LimitWrite, second: LimitWrite)
    requires Successive(first, second)
    ensures Granted([first, second], true) == multiset{first, second}
  {
    assert [first, second][..1] == [first] && [first][..0] == [];
    assert Granted([first], true) == multiset{first};
    assert Granted([first, second], true) == multiset{first} + multiset{second};
  }

  /** An update as a whole. */
  function ThenUpdate(h: seq<Event>, n: nat): seq<Event> {
    h + [UpdateRead(n, false)] + [UpdateApply(n)]
  }

  function Refreshed(s: Limits, n: nat): Limits {
    s.(due := s.due - {n}, held := s.data, active := s.data.limit.active, generation := s.generation + 1,
       running := if Timed(s.data.limit) then s.running + {s.generation + 1} else s.running)
  }

  lemma {:induction false} Updated(h: seq<Event>, n: nat)
    requires n in RunOf(h).due && n !in RunOf(h).copies
    ensures RunOf(ThenUpdate(h, n)) == Refreshed(RunOf(h), n)
    ensures LastStored(ThenUpdate(h, n)) == LastStored(h)
  {
    Snoc(h, UpdateRead(n, false));
    Snoc(h + [UpdateRead(n, false)], UpdateApply(n));
    UpdateSteps(RunOf(h), n);
  }

  lemma UpdateSteps(s: Limits, n: nat)
    requires n in s.due && n !in s.copies
    ensures Step(Step(s, UpdateRead(n, false)), UpdateApply(n)) == Refreshed(s, n)
  {
    TakenBack(s.copies, n, s.data);
  }

  lemma TakenBack(m: map<nat, Data>, n: nat, d: Data)
    requires n !in m
    ensures m[n := d] - {n} == m
  {
  }

  /** The rest of an expiry that has passed its check. */
  function ThenExpire(h: seq<Event>, t: nat): seq<Event> {
    h + [ExpireRead(t)] + [ExpireWrite(t)] + [ExpireCommit(t)]
  }

  function Cleared(s: Limits, t: nat): Limits {
    s.(checked := s.checked - {t}, data := Ended(s.data), active := false)
  }

  lemma {:induction false} Expired(h: seq<Event>, t: nat)
    requires t in RunOf(h).checked && t !in RunOf(h).copied && t !in RunOf(h).wrote
    ensures RunOf(ThenExpire(h, t)) == Cleared(RunOf(h), t)
    ensures LastStored(ThenExpire(h, t)) == LastStored(h)
  {
    Snoc(h, ExpireRead(t));
    Snoc(h + [ExpireRead(t)], ExpireWrite(t));
    Snoc(h + [ExpireRead(t)] + [ExpireWrite(t)], ExpireCommit(t));
    ExpirySteps(RunOf(h), t);
  }

  lemma ExpirySteps(s: Limits, t: nat)
    requires t in s.checked && t !in s.copied && t !in s.wrote
    ensures Step(Step(Step(s, ExpireRead(t)), ExpireWrite(t)), ExpireCommit(t)) == Cleared(s, t)
  {
    TakenBack(s.copied, t, s.data);
    assert s.wrote + {t} - {t} == s.wrote;
  }

  /** The first write stored, and both in force one after the other. */
  function FirstStored(first: LimitWrite, second: LimitWrite): seq<Event> {
    Asked(first, second) + [Store(first)]
  }

  function FirstInForce(first: LimitWrite, second: LimitWrite): seq<Event> {
    ThenUpdate(FirstStored(first, second), 1)
  }

  function OneStored(first: LimitWrite, second: LimitWrite): Limits {
    BothApproved(first, second).(
      approved := multiset{second}, data := Data(first, 1, false), stores := 1, due := {1})
  }

  lemma FirstIsStored(first: LimitWrite, second: LimitWrite)
    requires Successive(first, second)
    ensures RunOf(FirstStored(first, second)) == OneStored(first, second)
  {
    AskedBoth(first, second);
    Snoc(Asked(first, second), Store(first));
    assert multiset{first, second} - multiset{first} == multiset{second};
  }

  lemma FirstIsInForce(first: LimitWrite, second: LimitWrite)
    requires Successive(first, second)
    ensures RunOf(FirstInForce(first, second)) == Refreshed(OneStored(first, second), 1)
  {
    FirstIsStored(first, second);
    Updated(FirstStored(first, second), 1);
  }

  /** Nothing is under way any more, and still the active write stored last is not in force. */
  predicate Lost(h: seq<Event>, w: LimitWrite) {
    Quiet(RunOf(h)) && LastStored(h) == w && w.active && !LastInForce(h)
  }

  /** The expiry of the first limit passes its check, the second limit comes into force, and is cleared. */
  lemma ExpiryRace(first: LimitWrite, second: LimitWrite)
    requires Successive(first, second)
    ensures
      var h := ThenUpdate(FirstInForce(first, second) + [ExpireCheck(1)] + [Store(second)], 2);
      && EffectiveLimit(RunOf(h)) == Some(second.value)
      && Lost(ThenExpire(h, 1), second) && EffectiveLimit(RunOf(ThenExpire(h, 1))) == None
  {
    var h1 := FirstInForce(first, second) + [ExpireCheck(1)];
    FirstIsInForce(first, second);
    Snoc(FirstInForce(first, second), ExpireCheck(1));
    Snoc(h1, Store(second));
    Updated(h1 + [Store(second)], 2);
    Expired(ThenUpdate(h1 + [Store(second)], 2), 1);
  }

  /** The second limit is stored, the first expires as a whole, and the update reads what it wrote back. */
  lemma LostToExpiry(first: LimitWrite, second: LimitWrite)
    requires Successive(first, second)
    ensures
      var h := ThenUpdate(ThenExpire(FirstInForce(first, second) + [Store(second)] + [ExpireCheck(1)], 1), 2);
      Lost(h, second) && EffectiveLimit(RunOf(h)) == None
  {
    var h1 := FirstInForce(first, second) + [Store(second)];
    FirstIsInForce(first, second);
    Snoc(FirstInForce(first, second), Store(second));
    Snoc(h1, ExpireCheck(1));
    Expired(h1 + [ExpireCheck(1)], 1);
    Updated(ThenExpire(h1 + [ExpireCheck(1)], 1), 2);
  }

  /** Two updates overlap: the one that read the first limit is applied last, and that limit stays. */
  lemma LostToUpdate(first: LimitWrite, second: LimitWrite)
    requires Successive(first, second)
    ensures
      var h := ThenUpdate(FirstStored(first, second) + [UpdateRead(1, false)] + [Store(second)], 2) + [UpdateApply(1)];
      Lost(h, second) && EffectiveLimit(RunOf(h)) == Some(first.value)
  {
    var h1 := FirstStored(first, second) + [UpdateRead(1, false)];
    FirstIsStored(first, second);
    Snoc(FirstStored(first, second), UpdateRead(1, false));
    Snoc(h1, Store(second));
    Updated(h1 + [Store(second)], 2);
    Snoc(ThenUpdate(h1 + [Store(second)], 2), UpdateApply(1));
  }

  // ------------------------------------------------- limits are never negative

  predicate NotNegative(s: Limits) {
    && (forall w | w in s.approved :: w.value >= 0.0)
    && s.data.limit.value >= 0.0 && s.held.limit.value >= 0.0
    && (forall n | n in s.copies :: s.copies[n].limit.value >= 0.0)
    && (forall t | t in s.copied :: s.copied[t].limit.value >= 0.0)
    && s.guard.failsafeW >= 0.0
  }

  lemma {:induction false} GrantedNotNegative(pending: seq<LimitWrite>, guarded: bool)
    ensures forall w | w in Granted(pending, guarded) :: w.value >= 0.0
  {
    if pending != [] {
      GrantedNotNegative(pending[..|pending| - 1], guarded);
    }
  }

  /** No limit is ever negative, as long as the failsafe limits read are not. */
  lemma {:induction false} LimitsNeverNegative(h: seq<Event>)
    requires forall k | 0 <= k < |h| && h[k].FailsafeRead? :: h[k].failsafeW >= 0.0
    ensures NotNegative(RunOf(h))
  {
    if h != [] {
      LimitsNeverNegative(h[..|h| - 1]);
      StaysNotNegative(RunOf(h[..|h| - 1]), h[|h| - 1]);
    }
  }

  lemma StaysNotNegative(s: Limits, e: Event)
    requires NotNegative(s) && (e.FailsafeRead? ==> e.failsafeW >= 0.0)
    ensures NotNegative(Step(s, e))
  {
    OnlyGuardEvents(s, e);
    DataStep(s, e);
    HeldStep(s, e);
    ApprovedStep(s, e);
  }

  lemma ApprovedStep(s: Limits, e: Event)
    requires forall w | w in s.approved :: w.value >= 0.0
    ensures forall w | w in Step(s, e).approved :: w.value >= 0.0
  {
    if e.Ask? {
      GrantedNotNegative(e.pending, Guarded(s.guard.seen, s.guard.failsafe));
    }
  }
}
