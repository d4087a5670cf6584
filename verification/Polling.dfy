/**
 internal/testrun/checks.go, conformanceTracker and heartbeatMonitor: both read the bounded trace
 with a cursor, while frames keep arriving.
 */
module Polling {
  import opened Options
  import opened Trace

  // ------------------------------------------------- what is accumulated

  datatype RuleCount = RuleCount(severity: Severity, count: nat, specRef: string, firstSeq: nat, example: string)

  datatype Tally = Tally(frames: nat, errorFrames: nat, warningFrames: nat, rules: map<string, RuleCount>)

  const NOTHING := Tally(0, 0, 0, map[])

  /** One finding of a frame; `seen` holds the rules this frame was already counted for. */
  function CountFinding(rules: map<string, RuleCount>, seen: set<string>, number: nat, f: Finding)
    : map<string, RuleCount> {
    var rc := if f.rule in rules then rules[f.rule] else RuleCount(f.severity, 0, f.specRef, number, f.message);
    rules[f.rule := if f.rule in seen then rc else rc.(count := rc.count + 1)]
  }

  function RulesOf(findings: seq<Finding>): set<string> {
    set i | 0 <= i < |findings| :: findings[i].rule
  }

  function CountFindings(rules: map<string, RuleCount>, number: nat, findings: seq<Finding>): map<string, RuleCount> {
    if findings == [] then rules
    else
      var n := |findings| - 1;
      CountFinding(CountFindings(rules, number, findings[..n]), RulesOf(findings[..n]), number, findings[n])
  }

  lemma RulesSnoc(findings: seq<Finding>, i: nat)
    requires i < |findings|
    ensures RulesOf(findings[..i + 1]) == RulesOf(findings[..i]) + {findings[i].rule}
  {
    assert forall m | 0 <= m < i :: findings[..i][m] == findings[..i + 1][m];
    assert findings[..i + 1][i] == findings[i];
  }

  predicate HasError(findings: seq<Finding>) {
    exists i :: 0 <= i < |findings| && findings[i].severity == Error
  }

  function CountFrame(t: Tally, e: Entry): Tally {
    var findings := e.frame.findings;
    Tally(
      t.frames + 1,
      t.errorFrames + if HasError(findings) then 1 else 0,
      t.warningFrames + if !HasError(findings) && findings != [] then 1 else 0,
      CountFindings(t.rules, e.number, findings))
  }

  function CountAll(t: Tally, entries: seq<Entry>): Tally {
    if entries == [] then t
    else CountFrame(CountAll(t, entries[..|entries| - 1]), entries[|entries| - 1])
  }

  function TallyOf(entries: seq<Entry>): Tally {
    CountAll(NOTHING, entries)
  }

  predicate IsHeartbeat(e: Entry) {
    e.frame.func == "deviceDiagnosisHeartbeatData" && (e.frame.classifier == "notify" || e.frame.classifier == "reply")
  }

  function HeartbeatTimes(entries: seq<Entry>): seq<real> {
    if entries == [] then []
    else
      var e := entries[|entries| - 1];
      HeartbeatTimes(entries[..|entries| - 1]) + if IsHeartbeat(e) then [e.frame.ts] else []
  }

  // ------------------------------------------------- the cursor over the ring

  /** The retained frames of a log: its last `kept`. */
  datatype Ring = Ring(log: seq<Frame>, kept: nat)

  ghost predicate ValidRing(r: Ring) {
    r.kept <= RING_CAPACITY && r.kept <= |r.log|
  }

  function Entries(r: Ring): seq<Entry>
    requires ValidRing(r)
  {
    Numbered(r.log, |r.log| - r.kept, |r.log|)
  }

  /** How far a reader has come, whether it noticed a loss, and every frame it had the chance to see. */
  datatype Cursor = Cursor(last: nat, overrun: bool, covered: seq<Entry>)

  function NewSince(r: Ring, last: nat): seq<Entry>
    requires ValidRing(r)
  {
    var oldest := |r.log| - r.kept;
    if last >= |r.log| then [] else Numbered(r.log, if last < oldest then oldest else last, |r.log|)
  }

  function Poll(c: Cursor, r: Ring): Cursor
    requires ValidRing(r)
  {
    var latest := |r.log|;
    Cursor(
      if latest > c.last then latest else c.last,
      c.overrun || latest - c.last > RING_CAPACITY,
      c.covered + NewSince(r, c.last))
  }

  /** The query of both readers: the device's own frames after the cursor. */
  function DeviceFrames(after: nat, ski: string): Query {
    Query(after, ski, Some(Recv), false)
  }

  predicate OwnFrame(ski: string, e: Entry) {
    e.frame.ski == ski && e.frame.dir == Recv
  }

  function Own(entries: seq<Entry>, ski: string): seq<Entry> {
    if entries == [] then []
    else
      Own(entries[..|entries| - 1], ski)
      + if OwnFrame(ski, entries[|entries| - 1]) then [entries[|entries| - 1]] else []
  }

  /** A page holds exactly the device's frames the cursor has not passed; the limit never cuts it. */
  lemma {:induction false} PageIsOwnNew(r: Ring, last: nat, ski: string)
    requires ValidRing(r) && ski != ""
    ensures Newest(Select(Entries(r), DeviceFrames(last, ski)), RING_CAPACITY) == Own(NewSince(r, last), ski)
  {
    var from, to := |r.log| - r.kept, |r.log|;
    SelectLength(Numbered(r.log, from, to), DeviceFrames(last, ski));
    SelectOwn(r.log, from, to, last, ski);
    NewestWhole(Select(Numbered(r.log, from, to), DeviceFrames(last, ski)));
  }

  lemma NewestWhole(entries: seq<Entry>)
    requires |entries| <= RING_CAPACITY
    ensures Newest(entries, RING_CAPACITY) == entries
  {
  }

  lemma {:induction false} SelectLength(entries: seq<Entry>, q: Query)
    ensures |Select(entries, q)| <= |entries|
  {
    if entries != [] {
      SelectLength(entries[..|entries| - 1], q);
    }
  }

  lemma {:induction false} SelectPassed(entries: seq<Entry>, q: Query)
    requires forall i | 0 <= i < |entries| :: entries[i].number <= q.after
    ensures Select(entries, q) == []
  {
    if entries != [] {
      SelectPassed(entries[..|entries| - 1], q);
    }
  }

  lemma {:induction false} SelectAhead(passed: seq<Entry>, ahead: seq<Entry>, last: nat, ski: string)
    requires ski != "" && Select(passed, DeviceFrames(last, ski)) == []
    requires forall i | 0 <= i < |ahead| :: ahead[i].number > last
    ensures Select(passed + ahead, DeviceFrames(last, ski)) == Own(ahead, ski)
  {
    if ahead == [] {
      assert passed + ahead == passed;
    } else {
      var n := |ahead| - 1;
      assert (passed + ahead)[..|passed| + n] == passed + ahead[..n];
      SelectAhead(passed, ahead[..n], last, ski);
    }
  }

  lemma {:induction false} SelectOwn(log: seq<Frame>, from: nat, to: nat, last: nat, ski: string)
    requires from <= to <= |log| && ski != ""
    ensures Select(Numbered(log, from, to), DeviceFrames(last, ski)) ==
            if last >= to then [] else Own(Numbered(log, if last < from then from else last, to), ski)
  {
    var low := if last < from then from else if last < to then last else to;
    var passed, ahead := Numbered(log, from, low), Numbered(log, low, to);
    assert Numbered(log, from, to) == passed + ahead;
    SelectPassed(passed, DeviceFrames(last, ski));
    SelectAhead(passed, ahead, last, ski);
    assert low == to ==> ahead == [];
  }

  lemma {:induction false} OwnConcat(a: seq<Entry>, b: seq<Entry>, ski: string)
    ensures Own(a + b, ski) == Own(a, ski) + Own(b, ski)
  {
    if b == [] {
      assert a + b == a;
    } else {
      assert (a + b)[..|a + b| - 1] == a + b[..|b| - 1];
      OwnConcat(a, b[..|b| - 1], ski);
    }
  }

  lemma {:induction false} CountAllConcat(t: Tally, a: seq<Entry>, b: seq<Entry>)
    ensures CountAll(t, a + b) == CountAll(CountAll(t, a), b)
  {
    if b == [] {
      assert a + b == a;
    } else {
      assert (a + b)[..|a + b| - 1] == a + b[..|b| - 1];
      CountAllConcat(t, a, b[..|b| - 1]);
    }
  }

  lemma {:induction false} TallyCovered(covered: seq<Entry>, unseen: seq<Entry>, ski: string)
    ensures TallyOf(Own(covered + unseen, ski)) == CountAll(TallyOf(Own(covered, ski)), Own(unseen, ski))
  {
    OwnConcat(covered, unseen, ski);
    CountAllConcat(NOTHING, Own(covered, ski), Own(unseen, ski));
  }

  lemma {:induction false} TimesConcat(a: seq<Entry>, b: seq<Entry>)
    ensures HeartbeatTimes(a + b) == HeartbeatTimes(a) + HeartbeatTimes(b)
  {
    if b == [] {
      assert a + b == a;
    } else {
      assert (a + b)[..|a + b| - 1] == a + b[..|b| - 1];
      TimesConcat(a, b[..|b| - 1]);
    }
  }

  // ------------------------------------------------- the two readers

  class ConformanceTracker {
    const ski: string
    var last: nat
    var frames: nat
    var errorFrames: nat
    var warning: nat
    var overrun: bool
    var rules: map<string, RuleCount>
    ghost var covered: seq<Entry>

    function Counted(): Tally
      reads this
    {
      Tally(frames, errorFrames, warning, rules)
    }

    ghost function Position(): Cursor
      reads this
    {
      Cursor(last, overrun, covered)
    }

    /** The totals are those of the device's frames among everything the cursor covered. */
    ghost predicate Valid()
      reads this
    {
      Counted() == TallyOf(Own(covered, ski))
    }

    constructor (ski: string, start: nat)
      ensures Valid() && this.ski == ski && Position() == Cursor(start, false, [])
    {
      this.ski, last, frames, errorFrames, warning, overrun, rules, covered := ski, start, 0, 0, 0, false, map[], [];
    }

    /** One sample; `answers` is whether the testbench answered the request. */
    method Collect(store: Store, answers: bool)
      requires Valid() && store.Valid()
      modifies this
      ensures Valid()
      ensures Position() ==
              if ski != "" && answers then Poll(old(Position()), Ring(store.log, |store.ring|)) else old(Position())
    {
      if ski == "" || !answers {
        return;
      }
      var page, latest := store.Recent(DeviceFrames(last, ski), RING_CAPACITY);
      ghost var ring := Ring(store.log, |store.ring|);
      TakePage(ring, page);
      Advance(ring, latest);
    }

    /** Counts a page; the frames it leaves out of those newly covered are not the device's. */
    method TakePage(ghost ring: Ring, page: seq<Entry>)
      requires Valid() && ski != "" && ValidRing(ring)
      requires page == Newest(Select(Entries(ring), DeviceFrames(last, ski)), RING_CAPACITY)
      modifies this`frames, this`errorFrames, this`warning, this`rules
      ensures Counted() == TallyOf(Own(covered + NewSince(ring, last), ski))
    {
      PageIsOwnNew(ring, last, ski);
      TallyCovered(covered, NewSince(ring, last), ski);
      CountPage(page);
    }

    /** The cursor moves to the newest frame, and a gap wider than the ring is noticed. */
    method Advance(ghost ring: Ring, latest: nat)
      requires ValidRing(ring) && latest == |ring.log|
      modifies this`last, this`overrun, this`covered
      ensures Position() == Poll(old(Position()), ring)
    {
      overrun := overrun || latest - last > RING_CAPACITY;
      covered := covered + NewSince(ring, last);
      if latest > last {
        last := latest;
      }
    }

    method CountPage(page: seq<Entry>)
      modifies this`frames, this`errorFrames, this`warning, this`rules
      ensures Counted() == CountAll(old(Counted()), page)
    {
      for k := 0 to |page|
        invariant Counted() == CountAll(old(Counted()), page[..k])
      {
        assert page[..k + 1][..k] == page[..k];
        CountOne(page[k]);
      }
      assert page[..|page|] == page;
    }

    method CountOne(e: Entry)
      modifies this`frames, this`errorFrames, this`warning, this`rules
      ensures Counted() == CountFrame(old(Counted()), e)
    {
      frames := frames + 1;
      var isError := CountRules(e);
      if isError {
        errorFrames := errorFrames + 1;
      } else if |e.frame.findings| > 0 {
        warning := warning + 1;
      }
    }

    method CountRules(e: Entry) returns (isError: bool)
      modifies this`rules
      ensures isError <==> HasError(e.frame.findings)
      ensures rules == CountFindings(old(rules), e.number, e.frame.findings)
    {
      var findings := e.frame.findings;
      isError := false;
      var seen: set<string> := {};
      for i := 0 to |findings|
        invariant isError <==> exists m :: 0 <= m < i && findings[m].severity == Error
        invariant seen == RulesOf(findings[..i])
        invariant rules == CountFindings(old(rules), e.number, findings[..i])
      {
        var f := findings[i];
        assert findings[..i + 1][..i] == findings[..i];
        RulesSnoc(findings, i);
        isError := isError || f.severity == Error;
        if f.rule !in rules {
          rules := rules[f.rule := RuleCount(f.severity, 0, f.specRef, e.number, f.message)];
        }
        if f.rule !in seen {
          rules := rules[f.rule := rules[f.rule].(count := rules[f.rule].count + 1)];
          seen := seen + {f.rule};
        }
      }
      assert findings[..|findings|] == findings;
    }
  }

  class HeartbeatMonitor {
    const ski: string
    const active: bool
    var cursor: nat
    var overrun: bool
    var times: seq<real>
    ghost var covered: seq<Entry>

    ghost function Position(): Cursor
      reads this
    {
      Cursor(cursor, overrun, covered)
    }

    ghost predicate Valid()
      reads this
    {
      ski != "" && times == HeartbeatTimes(Own(covered, ski))
    }

    constructor (ski: string, active: bool, start: nat)
      requires ski != ""
      ensures Valid() && this.ski == ski && this.active == active && Position() == Cursor(start, false, [])
    {
      this.ski, this.active, cursor, overrun, times, covered := ski, active, start, false, [], [];
    }

    method Sample(store: Store, answers: bool)
      requires Valid() && store.Valid()
      modifies this
      ensures Valid()
      ensures Position() ==
              if active && answers then Poll(old(Position()), Ring(store.log, |store.ring|)) else old(Position())
    {
      if !active || !answers {
        return;
      }
      var page, latest := store.Recent(DeviceFrames(cursor, ski), RING_CAPACITY);
      ghost var ring := Ring(store.log, |store.ring|);
      ghost var unseen := NewSince(ring, cursor);
      PageIsOwnNew(ring, cursor, ski);
      KeepTimes(page);
      TimesConcat(Own(covered, ski), page);
      OwnConcat(covered, unseen, ski);
      Advance(ring, latest);
    }

    /** The cursor moves to the newest frame, and a gap wider than the ring is noticed. */
    method Advance(ghost ring: Ring, latest: nat)
      requires ValidRing(ring) && latest == |ring.log|
      modifies this`cursor, this`overrun, this`covered
      ensures Position() == Poll(old(Position()), ring)
    {
      overrun := overrun || latest - cursor > RING_CAPACITY;
      covered := covered + NewSince(ring, cursor);
      if latest > cursor {
        cursor := latest;
      }
    }

    method KeepTimes(page: seq<Entry>)
      modifies this`times
      ensures times == old(times) + HeartbeatTimes(page)
    {
      for k := 0 to |page|
        invariant times == old(times) + HeartbeatTimes(page[..k])
      {
        assert page[..k + 1][..k] == page[..k];
        if IsHeartbeat(page[k]) {
          times := times + [page[k].frame.ts];
        }
      }
      assert page[..|page|] == page;
    }
  }

  // ------------------------------------------------- every interleaving

  datatype Event = Add(frame: Frame) | Sample | Unanswered | Clear

  datatype Run = Run(ring: Ring, cursor: Cursor)

  ghost function Next(s: Run, e: Event): (t: Run)
    requires ValidRing(s.ring)
    ensures ValidRing(t.ring) && |s.ring.log| <= |t.ring.log|
  {
    match e
    case Add(frame) =>
      s.(ring := Ring(s.ring.log + [frame], if s.ring.kept < RING_CAPACITY then s.ring.kept + 1 else RING_CAPACITY))
    case Sample => s.(cursor := Poll(s.cursor, s.ring))
    case Unanswered => s
    case Clear => s.(ring := Ring(s.ring.log, 0))
  }

  ghost function RunOf(s: Run, events: seq<Event>): (t: Run)
    requires ValidRing(s.ring)
    ensures ValidRing(t.ring) && |s.ring.log| <= |t.ring.log|
  {
    if events == [] then s else Next(RunOf(s, events[..|events| - 1]), events[|events| - 1])
  }

  /**
   A reader created at frame `start`: whatever came later is retained, up to the ring's capacity. The
   store may have been cleared before.
   */
  ghost predicate Begins(s: Run, start: nat) {
    && start <= |s.ring.log|
    && (|s.ring.log| - s.ring.kept <= start || s.ring.kept == RING_CAPACITY)
    && s.cursor == Cursor(start, false, [])
  }

  /** Since the last sample the store was cleared while the reader had not had everything. */
  ghost predicate ClearedUnread(s: Run, events: seq<Event>)
    requires ValidRing(s.ring)
  {
    if events == [] then false
    else
      var front := events[..|events| - 1];
      match events[|events| - 1]
      case Clear => ClearedUnread(s, front) || RunOf(s, front).cursor.last < |RunOf(s, front).ring.log|
      case Sample => false
      case _ => ClearedUnread(s, front)
  }

  /** Some sample came too late for frames that had been cleared. */
  ghost predicate ClearLost(s: Run, events: seq<Event>)
    requires ValidRing(s.ring)
  {
    exists k :: 0 <= k < |events| && events[k].Sample? && ClearedUnread(s, events[..k])
  }

  /** With clears: what left the ring unread was pushed out by newer frames, unless it was cleared. */
  ghost predicate Unread(t: Run, cleared: bool) {
    var oldest := |t.ring.log| - t.ring.kept;
    && t.cursor.last <= |t.ring.log|
    && (cleared ==> oldest > t.cursor.last)
    && (!cleared ==> oldest <= t.cursor.last || oldest <= |t.ring.log| - RING_CAPACITY)
  }

  ghost predicate Complete(t: Run, start: nat) {
    start <= t.cursor.last <= |t.ring.log| && t.cursor.covered == Numbered(t.ring.log, start, t.cursor.last)
  }

  /** Frames are missing from what the reader covered. */
  ghost predicate Missed(t: Run, start: nat) {
    start <= t.cursor.last <= |t.ring.log| && |t.cursor.covered| < t.cursor.last - start
  }

  lemma SampleCompletes(t: Run, cleared: bool, start: nat)
    requires ValidRing(t.ring) && Unread(t, cleared)
    ensures
      var after := Next(t, Sample);
      && Unread(after, false)
      && (Complete(t, start) && !cleared && |t.ring.log| - t.cursor.last <= RING_CAPACITY ==> Complete(after, start))
      && (Complete(t, start) && (cleared || |t.ring.log| - t.cursor.last > RING_CAPACITY) ==> Missed(after, start))
      && (Missed(t, start) ==> Missed(after, start))
  {
    var log, last := t.ring.log, t.cursor.last;
    assert |NewSince(t.ring, last)| <= |log| - last;
    assert start <= last ==> Numbered(log, start, last) + Numbered(log, last, |log|) == Numbered(log, start, |log|);
  }

  lemma AddKeeps(t: Run, frame: Frame, start: nat)
    requires ValidRing(t.ring) && t.cursor.last <= |t.ring.log|
    ensures Complete(t, start) ==> Complete(Next(t, Add(frame)), start)
    ensures Missed(t, start) ==> Missed(Next(t, Add(frame)), start)
  {
    assert start <= t.cursor.last ==>
      Numbered(t.ring.log + [frame], start, t.cursor.last) == Numbered(t.ring.log, start, t.cursor.last);
  }

  lemma {:induction false} ClearInvariant(s: Run, events: seq<Event>, start: nat)
    requires ValidRing(s.ring) && Begins(s, start)
    ensures
      var t := RunOf(s, events);
      && Unread(t, ClearedUnread(s, events))
      && (if t.cursor.overrun || ClearLost(s, events) then Missed(t, start) else Complete(t, start))
  {
    if events != [] {
      var n := |events| - 1;
      var front := events[..n];
      ClearInvariant(s, front, start);
      ClearLostNext(s, events);
      match events[n]
      case Add(frame) => AddKeeps(RunOf(s, front), frame, start);
      case Sample => SampleCompletes(RunOf(s, front), ClearedUnread(s, front), start);
      case _ =>
    }
  }

  lemma {:induction false} ClearLostNext(s: Run, events: seq<Event>)
    requires ValidRing(s.ring) && events != []
    ensures
      var n := |events| - 1;
      ClearLost(s, events) <==> ClearLost(s, events[..n]) || (events[n].Sample? && ClearedUnread(s, events[..n]))
  {
    var n := |events| - 1;
    assert forall k | 0 <= k < n :: events[..n][k] == events[k] && events[..n][..k] == events[..k];
  }

  /**
   With clears among the events as well, the reader had every frame exactly once if and only if the
   flag is down and no sample came after a clear that took unread frames away.
   */
  lemma {:induction false} ExactlyOnceDespiteClear(s: Run, events: seq<Event>, start: nat)
    requires ValidRing(s.ring) && Begins(s, start)
    ensures
      var t := RunOf(s, events);
      && start <= t.cursor.last <= |t.ring.log|
      && (t.cursor.covered == Numbered(t.ring.log, start, t.cursor.last) <==>
        !t.cursor.overrun && !ClearLost(s, events))
  {
    ClearInvariant(s, events, start);
  }

  predicate NoClear(events: seq<Event>) {
    forall i | 0 <= i < |events| :: !events[i].Clear?
  }

  lemma {:induction false} NothingCleared(s: Run, events: seq<Event>)
    requires ValidRing(s.ring) && NoClear(events)
    ensures !ClearedUnread(s, events) && !ClearLost(s, events)
  {
    if events != [] {
      NothingCleared(s, events[..|events| - 1]);
      ClearLostNext(s, events);
    }
  }

  /**
   In every interleaving of frames and samples, the overrun flag is down exactly when the reader
   had every single frame since its start; a raised flag means some frame left the ring unread.
   */
  lemma {:induction false} ExactlyOnce(s: Run, events: seq<Event>, start: nat)
    requires ValidRing(s.ring) && Begins(s, start) && NoClear(events)
    ensures
      var t := RunOf(s, events);
      && start <= t.cursor.last <= |t.ring.log|
      && (!t.cursor.overrun <==> t.cursor.covered == Numbered(t.ring.log, start, t.cursor.last))
      && (t.cursor.overrun ==> |t.cursor.covered| < t.cursor.last - start)
  {
    ClearInvariant(s, events, start);
    NothingCleared(s, events);
  }

  /** A final answered sample brings the cursor to the newest frame, also after clears. */
  lemma {:induction false} FinalSample(s: Run, events: seq<Event>, start: nat, ski: string)
    requires ValidRing(s.ring) && Begins(s, start)
    ensures
      var t := RunOf(s, events + [Sample]);
      && t.cursor.last == |t.ring.log|
      && (!t.cursor.overrun && !ClearLost(s, events + [Sample]) ==>
           && TallyOf(Own(t.cursor.covered, ski)) == TallyOf(Own(Numbered(t.ring.log, start, |t.ring.log|), ski))
           && HeartbeatTimes(Own(t.cursor.covered, ski)) ==
             HeartbeatTimes(Own(Numbered(t.ring.log, start, |t.ring.log|), ski)))
  {
    assert (events + [Sample])[..|events|] == events;
    ClearInvariant(s, events, start);
    ClearInvariant(s, events + [Sample], start);
  }

  /** Clearing the store between two samples hides frames without raising the flag. */
  lemma ClearHidesFrames(frame: Frame)
    ensures
      var t := RunOf(Run(Ring([], 0), Cursor(0, false, [])), [Add(frame), Clear, Sample]);
      !t.cursor.overrun && t.cursor.last == 1 && t.cursor.covered == []
  {
    var s := Run(Ring([], 0), Cursor(0, false, []));
    var events := [Add(frame), Clear, Sample];
    assert events[..2] == [Add(frame), Clear] && events[..2][..1] == [Add(frame)] && events[..1][..0] == [];
    assert RunOf(s, events[..1]) == Next(s, Add(frame));
    assert RunOf(s, events[..2]) == Next(RunOf(s, events[..1]), Clear);
  }

  // ------------------------------------------------- what the counts mean

  /** In how many of the frames a rule was broken at least once. */
  function FramesWith(entries: seq<Entry>, rule: string): nat {
    if entries == [] then 0
    else
      FramesWith(entries[..|entries| - 1], rule)
      + if rule in RulesOf(entries[|entries| - 1].frame.findings) then 1 else 0
  }

  lemma {:induction false} CountFindingsOnce(
    rules: map<string, RuleCount>, number: nat, findings: seq<Finding>, rule: string)
    ensures
      var after := CountFindings(rules, number, findings);
      var hit := rule in RulesOf(findings);
      && (rule in after <==> rule in rules || hit)
      && (rule in after ==> 
           after[rule].count == (if rule in rules then rules[rule].count else 0) + if hit then 1 else 0)
  {
    if findings != [] {
      var n := |findings| - 1;
      CountFindingsOnce(rules, number, findings[..n], rule);
      RulesSnoc(findings, n);
      assert findings[..n + 1] == findings;
    }
  }

  /** A rule's count is the number of frames that break it, however often each frame does. */
  lemma {:induction false} RuleCountsFrames(entries: seq<Entry>, rule: string)
    ensures
      var rules := TallyOf(entries).rules;
      (if rule in rules then rules[rule].count else 0) == FramesWith(entries, rule)
  {
    if entries != [] {
      var n := |entries| - 1;
      RuleCountsFrames(entries[..n], rule);
      CountFindingsOnce(TallyOf(entries[..n]).rules, entries[n].number, entries[n].frame.findings, rule);
    }
  }
}
