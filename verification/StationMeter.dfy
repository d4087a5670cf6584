/**
 internal/simulator/simulator.go: what the simulated station publishes, without a vehicle.

 A report computes the power under the lock and publishes it after releasing the lock. The start, the
 updates, the expiries and the clock all report, so reports overlap and may be published in any order.
 */
module StationMeter {
  import opened Options
  import opened StationLimits

  /** The baseline, or the limit when that is lower. */
  function Capped(baselineW: real, limit: Option<real>): real {
    match limit
    case Some(l) => if l < baselineW then l else baselineW
    case None => baselineW
  }

  /** `owed` reports have not computed their power, those in `computed` have not published it. */
  datatype Metered =
    Metered(limits: Limits, owed: nat, computed: map<nat, real>, reports: nat, published: Option<real>)

  /** A report follows an update, an expiry, and a clock tick that changes the failsafe state. */
  predicate Owes(s: Limits, e: Event) {
    || Applies(s, e) || Commits(s, e)
    || (e.Clock? && Silent(s.guard.seen, s.guard.timeout, e.now) != s.guard.failsafe)
  }

  function StepMetered(baselineW: real, m: Metered, e: Event): Metered {
    match e
    case Compute =>
      if m.owed == 0 then m
      else m.(owed := m.owed - 1, reports := m.reports + 1,
              computed := m.computed[m.reports := Capped(baselineW, EffectiveLimit(m.limits))])
    case Publish(k) =>
      if k !in m.computed then m else m.(computed := m.computed - {k}, published := Some(m.computed[k]))
    case _ => m.(limits := Step(m.limits, e), owed := m.owed + if Owes(m.limits, e) then 1 else 0)
  }

  /** The start itself has a report to make. */
  function MeteredRun(baselineW: real, h: seq<Event>): Metered {
    if h == [] then Metered(INITIAL, 1, map[], 0, None)
    else StepMetered(baselineW, MeteredRun(baselineW, h[..|h| - 1]), h[|h| - 1])
  }

  lemma {:induction false} MeteredLimits(baselineW: real, h: seq<Event>)
    ensures MeteredRun(baselineW, h).limits == RunOf(h)
  {
    if h != [] {
      MeteredLimits(baselineW, h[..|h| - 1]);
    }
  }

  // ------------------------------------------------- which report was published

  predicate Computes(m: Metered, e: Event) {
    e.Compute? && m.owed > 0
  }

  predicate Publishes(m: Metered, e: Event) {
    e.Publish? && e.report in m.computed
  }

  /** How many events it took until report k was computed. */
  function ComputedAt(baselineW: real, h: seq<Event>, k: nat): (r: nat)
    ensures r <= |h|
  {
    if h == [] then 0
    else
      var before := h[..|h| - 1];
      var m := MeteredRun(baselineW, before);
      if Computes(m, h[|h| - 1]) && m.reports == k then |h| else ComputedAt(baselineW, before, k)
  }

  /** How many events it took until the report published last was computed. */
  function PublishedFrom(baselineW: real, h: seq<Event>): (r: nat)
    ensures r <= |h|
  {
    if h == [] then 0
    else
      var before, e := h[..|h| - 1], h[|h| - 1];
      if Publishes(MeteredRun(baselineW, before), e) then ComputedAt(baselineW, before, e.report)
      else PublishedFrom(baselineW, before)
  }

  lemma MeterStep(baselineW: real, m: Metered, e: Event)
    ensures
      var t := StepMetered(baselineW, m, e);
      && t.published == (if Publishes(m, e) then Some(m.computed[e.report]) else m.published)
      && (Computes(m, e) ==> t.limits == m.limits)
      && (forall k | k in t.computed ::
           if Computes(m, e) && k == m.reports then t.computed[k] == Capped(baselineW, EffectiveLimit(m.limits))
           else k in m.computed && t.computed[k] == m.computed[k])
  {
  }

  lemma {:induction false} ComputedIs(baselineW: real, h: seq<Event>, k: nat)
    requires k in MeteredRun(baselineW, h).computed
    ensures
      MeteredRun(baselineW, h).computed[k] ==
      Capped(baselineW, EffectiveLimit(RunOf(h[..ComputedAt(baselineW, h, k)])))
  {
    var before, e := h[..|h| - 1], h[|h| - 1];
    var m := MeteredRun(baselineW, before);
    MeterStep(baselineW, m, e);
    if Computes(m, e) && m.reports == k {
      MeteredLimits(baselineW, before);
      MeteredLimits(baselineW, h);
      assert h[..|h|] == h;
    } else {
      ComputedIs(baselineW, before, k);
      assert before[..ComputedAt(baselineW, before, k)] == h[..ComputedAt(baselineW, before, k)];
    }
  }

  /** In every run the published power is the baseline capped by the limit its report was computed under. */
  lemma {:induction false} PublishedIs(baselineW: real, h: seq<Event>)
    requires MeteredRun(baselineW, h).published.Some?
    ensures
      MeteredRun(baselineW, h).published.value ==
      Capped(baselineW, EffectiveLimit(RunOf(h[..PublishedFrom(baselineW, h)])))
  {
    var before, e := h[..|h| - 1], h[|h| - 1];
    MeterStep(baselineW, MeteredRun(baselineW, before), e);
    assert before[..PublishedFrom(baselineW, h)] == h[..PublishedFrom(baselineW, h)];
    if Publishes(MeteredRun(baselineW, before), e) {
      ComputedIs(baselineW, before, e.report);
    } else {
      PublishedIs(baselineW, before);
    }
  }

  // ------------------------------------------------- what happened since it was computed

  /** The limit was applied or cleared, or the failsafe state changed, after the first r events. */
  predicate ChangedSince(h: seq<Event>, r: nat) {
    |h| > r && (Owes(RunOf(h[..|h| - 1]), h[|h| - 1]) || ChangedSince(h[..|h| - 1], r))
  }

  /** Another report was computed after the first r events. */
  predicate ComputedSince(baselineW: real, h: seq<Event>, r: nat) {
    && |h| > r
    && (Computes(MeteredRun(baselineW, h[..|h| - 1]), h[|h| - 1]) || ComputedSince(baselineW, h[..|h| - 1], r))
  }

  /** Nothing the effective limit depends on differs, other than the failsafe limit itself. */
  predicate SameRegime(s: Limits, t: Limits) {
    s.guard.failsafe == t.guard.failsafe && s.held == t.held && s.active == t.active
  }

  lemma RegimeStep(s: Limits, e: Event)
    requires !Owes(s, e)
    ensures SameRegime(s, Step(s, e))
  {
    OnlyGuardEvents(s, e);
    HeldStep(s, e);
    ActiveStep(s, e);
  }

  lemma {:induction false} RegimeSince(h: seq<Event>, r: nat)
    requires r <= |h| && !ChangedSince(h, r)
    ensures SameRegime(RunOf(h[..r]), RunOf(h))
    decreases |h|
  {
    if r == |h| {
      assert h[..r] == h;
    } else {
      RegimeSince(h[..|h| - 1], r);
      assert h[..|h| - 1][..r] == h[..r];
      RegimeStep(RunOf(h[..|h| - 1]), h[|h| - 1]);
    }
  }

  /** After a change a report is due until one is computed. */
  lemma {:induction false} ChangeIsReported(baselineW: real, h: seq<Event>, r: nat)
    requires ChangedSince(h, r) && !ComputedSince(baselineW, h, r)
    ensures MeteredRun(baselineW, h).owed > 0
  {
    var before, e := h[..|h| - 1], h[|h| - 1];
    MeteredLimits(baselineW, before);
    if !Owes(RunOf(before), e) {
      ChangeIsReported(baselineW, before, r);
    }
  }

  /** Once no report is due or under way, one has been published. */
  lemma {:induction false} StartIsReported(baselineW: real, h: seq<Event>)
    ensures
      var m := MeteredRun(baselineW, h);
      m.owed > 0 || m.computed != map[] || m.published.Some?
  {
    if h != [] {
      StartIsReported(baselineW, h[..|h| - 1]);
      StartStep(baselineW, MeteredRun(baselineW, h[..|h| - 1]), h[|h| - 1]);
    }
  }

  lemma StartStep(baselineW: real, m: Metered, e: Event)
    requires m.owed > 0 || m.computed != map[] || m.published.Some?
    ensures
      var t := StepMetered(baselineW, m, e);
      t.owed > 0 || t.computed != map[] || t.published.Some?
  {
    if Computes(m, e) {
      assert m.reports in StepMetered(baselineW, m, e).computed;
    } else if e.Publish? && e.report !in m.computed {
      assert StepMetered(baselineW, m, e) == m;
    }
  }

  // ------------------------------------------------- exactly when the limit is respected

  /** The limit is no lower than it was when the report published last was computed. */
  predicate NotLowered(baselineW: real, h: seq<Event>, limit: real) {
    var computed := h[..PublishedFrom(baselineW, h)];
    if ChangedSince(h, PublishedFrom(baselineW, h))
    then EffectiveLimit(RunOf(computed)).Some? && EffectiveLimit(RunOf(computed)).value <= limit
    else !InFailsafe(h) || FailsafeLimit(computed) <= FailsafeLimit(h)
  }

  /**
   Exactly when the published power respects the limit, at any moment of any run: if the baseline does, or
   the limit was not lowered since the report published last was computed. If no limit was applied or
   cleared since then and the failsafe state is the same, only the failsafe limit can have been lowered;
   otherwise there must have been a limit then, and one no higher.
   */
  lemma {:induction false} PublishedWithinLimit(baselineW: real, h: seq<Event>, limit: real)
    requires MeteredRun(baselineW, h).published.Some? && EffectiveLimit(RunOf(h)) == Some(limit)
    ensures MeteredRun(baselineW, h).published.value <= limit <==> baselineW <= limit || NotLowered(baselineW, h, limit)
  {
    var r := PublishedFrom(baselineW, h);
    PublishedIs(baselineW, h);
    GuardReflectsHistory(h);
    GuardReflectsHistory(h[..r]);
    if !ChangedSince(h, r) {
      RegimeSince(h, r);
    }
  }

  /** The report published last is also the one computed last: no older one has overtaken it. */
  predicate InOrder(baselineW: real, h: seq<Event>) {
    !ComputedSince(baselineW, h, PublishedFrom(baselineW, h))
  }

  /**
   With no report due, and the report computed last published last, the published power respects the limit
   unless the station is in failsafe state and the failsafe limit has been lowered, below the baseline,
   since that report was computed.
   */
  lemma {:induction false} WithinLimitInOrder(baselineW: real, h: seq<Event>, limit: real)
    requires MeteredRun(baselineW, h).published.Some? && EffectiveLimit(RunOf(h)) == Some(limit)
    requires MeteredRun(baselineW, h).owed == 0 && InOrder(baselineW, h)
    ensures
      MeteredRun(baselineW, h).published.value <= limit <==>
      || baselineW <= limit
      || !InFailsafe(h)
      || FailsafeLimit(h[..PublishedFrom(baselineW, h)]) <= FailsafeLimit(h)
  {
    var r := PublishedFrom(baselineW, h);
    PublishedWithinLimit(baselineW, h, limit);
    if ChangedSince(h, r) {
      ChangeIsReported(baselineW, h, r);
    }
  }

  /** Under the same conditions a failsafe limit that is never lowered while in force is respected. */
  lemma {:induction false} SteadyFailsafeRespected(baselineW: real, h: seq<Event>, limit: real)
    requires MeteredRun(baselineW, h).published.Some? && EffectiveLimit(RunOf(h)) == Some(limit)
    requires MeteredRun(baselineW, h).owed == 0 && InOrder(baselineW, h)
    requires forall k | PublishedFrom(baselineW, h) <= k < |h| && h[k].FailsafeRead? ::
      h[k].failsafeW >= FailsafeLimit(h[..PublishedFrom(baselineW, h)])
    ensures MeteredRun(baselineW, h).published.value <= limit
  {
    FailsafeSince(h, PublishedFrom(baselineW, h));
    WithinLimitInOrder(baselineW, h, limit);
  }

  /** The failsafe limit is still that of position r, or one read since. */
  lemma {:induction false} FailsafeSince(h: seq<Event>, r: nat)
    requires r <= |h|
    ensures
      || FailsafeLimit(h) == FailsafeLimit(h[..r])
      || exists k :: r <= k < |h| && h[k].FailsafeRead? && h[k].failsafeW == FailsafeLimit(h)
    decreases |h|
  {
    if r == |h| {
      assert h[..r] == h;
    } else if !h[|h| - 1].FailsafeRead? {
      var before := h[..|h| - 1];
      FailsafeSince(before, r);
      assert before[..r] == h[..r];
      if k :| r <= k < |before| && before[k].FailsafeRead? && before[k].failsafeW == FailsafeLimit(before) {
        assert h[k] == before[k];
      }
    }
  }

  // ------------------------------------------------- one report at a time

  /** A report is computed only when the one before it is published. */
  predicate OneReportAtATime(baselineW: real, h: seq<Event>) {
    if h == [] then true
    else
      var m := MeteredRun(baselineW, h[..|h| - 1]);
      OneReportAtATime(baselineW, h[..|h| - 1]) && (Computes(m, h[|h| - 1]) ==> m.computed == map[])
  }

  lemma {:induction false} ComputedLast(baselineW: real, h: seq<Event>, k: nat)
    requires OneReportAtATime(baselineW, h) && k in MeteredRun(baselineW, h).computed
    ensures !ComputedSince(baselineW, h, ComputedAt(baselineW, h, k))
  {
    var before, e := h[..|h| - 1], h[|h| - 1];
    var m := MeteredRun(baselineW, before);
    MeterStep(baselineW, m, e);
    if !(Computes(m, e) && m.reports == k) {
      ComputedLast(baselineW, before, k);
    }
  }

  /** Reports that do not overlap are published in the order they are computed. */
  lemma {:induction false} OneReportAtATimeInOrder(baselineW: real, h: seq<Event>)
    requires OneReportAtATime(baselineW, h)
    requires MeteredRun(baselineW, h).computed == map[] && MeteredRun(baselineW, h).published.Some?
    ensures InOrder(baselineW, h)
  {
    var before, e := h[..|h| - 1], h[|h| - 1];
    var m := MeteredRun(baselineW, before);
    MeterStep(baselineW, m, e);
    assert Computes(m, e) ==> m.reports in MeteredRun(baselineW, h).computed;
    if Publishes(m, e) {
      ComputedLast(baselineW, before, e.report);
    } else {
      OneReportAtATimeInOrder(baselineW, before);
    }
  }

  /**
   When only one update or expiry and only one report is under way at a time, and none is any more, what is
   published is the baseline capped by the limit the history calls for, in failsafe state by the failsafe
   limit as it was when the report was computed.
   */
  lemma {:induction false} PublishedAsExpected(baselineW: real, h: seq<Event>)
    requires OneAtATime(h) && OneReportAtATime(baselineW, h) && AtRest(MeteredRun(baselineW, h))
    ensures
      MeteredRun(baselineW, h).published ==
      Some(Capped(baselineW, if InFailsafe(h) then Some(FailsafeLimit(h[..PublishedFrom(baselineW, h)]))
        else ExpectedLimit(h)))
  {
    var r := PublishedFrom(baselineW, h);
    MeteredLimits(baselineW, h);
    StartIsReported(baselineW, h);
    OneReportAtATimeInOrder(baselineW, h);
    PublishedIs(baselineW, h);
    if ChangedSince(h, r) {
      ChangeIsReported(baselineW, h, r);
    }
    RegimeSince(h, r);
    GuardReflectsHistory(h);
    GuardReflectsHistory(h[..r]);
    OneAtATimeUndisturbed(h);
    EffectiveReflectsHistory(h);
  }

  /** Nothing is due or under way: no update, no expiry and no report. */
  predicate AtRest(m: Metered) {
    Quiet(m.limits) && m.owed == 0 && m.computed == map[]
  }

  // ------------------------------------------------- the failing inputs

  lemma {:induction false} MeteredSnoc(baselineW: real, h: seq<Event>, e: Event)
    ensures MeteredRun(baselineW, h + [e]) == StepMetered(baselineW, MeteredRun(baselineW, h), e)
  {
    assert (h + [e])[..|h|] == h;
  }

  /** A report as a whole. */
  function ThenReport(h: seq<Event>, k: nat): seq<Event> {
    h + [Compute] + [Publish(k)]
  }

  lemma {:induction false} Reported(baselineW: real, h: seq<Event>)
    requires MeteredRun(baselineW, h).owed > 0 && MeteredRun(baselineW, h).reports !in MeteredRun(baselineW, h).computed
    ensures
      var m := MeteredRun(baselineW, h);
      MeteredRun(baselineW, ThenReport(h, m.reports)) ==
      m.(owed := m.owed - 1, reports := m.reports + 1, published := Some(Capped(baselineW, EffectiveLimit(m.limits))))
  {
    var m := MeteredRun(baselineW, h);
    MeteredSnoc(baselineW, h, Compute);
    MeteredSnoc(baselineW, h + [Compute], Publish(m.reports));
    assert m.computed[m.reports := Capped(baselineW, EffectiveLimit(m.limits))] - {m.reports} == m.computed;
  }

  lemma {:induction false} UpdateMetered(baselineW: real, h: seq<Event>, n: nat)
    requires n in RunOf(h).due && n !in RunOf(h).copies
    ensures
      var m := MeteredRun(baselineW, h);
      MeteredRun(baselineW, ThenUpdate(h, n)) == m.(limits := Refreshed(m.limits, n), owed := m.owed + 1)
  {
    MeteredSnoc(baselineW, h, UpdateRead(n, false));
    MeteredSnoc(baselineW, h + [UpdateRead(n, false)], UpdateApply(n));
    MeteredLimits(baselineW, h);
    UpdateSteps(RunOf(h), n);
  }

  lemma {:induction false} ExpiryMetered(baselineW: real, h: seq<Event>, t: nat)
    requires t in RunOf(h).checked && t !in RunOf(h).copied && t !in RunOf(h).wrote
    ensures
      var m := MeteredRun(baselineW, h);
      MeteredRun(baselineW, ThenExpire(h, t)) == m.(limits := Cleared(m.limits, t), owed := m.owed + 1)
  {
    MeteredSnoc(baselineW, h, ExpireRead(t));
    MeteredSnoc(baselineW, h + [ExpireRead(t)], ExpireWrite(t));
    MeteredSnoc(baselineW, h + [ExpireRead(t)] + [ExpireWrite(t)], ExpireCommit(t));
    MeteredLimits(baselineW, h);
    ExpiryOwes(baselineW, MeteredRun(baselineW, h), t);
  }

  lemma ExpiryOwes(baselineW: real, m: Metered, t: nat)
    requires t in m.limits.checked && t !in m.limits.copied && t !in m.limits.wrote
    ensures
      StepMetered(baselineW, StepMetered(baselineW, StepMetered(baselineW, m, ExpireRead(t)), ExpireWrite(t)),
                  ExpireCommit(t)) ==
      m.(limits := Cleared(m.limits, t), owed := m.owed + 1)
  {
    ExpirySteps(m.limits, t);
  }

  /** The guard is silent, the failsafe limit is lowered, and no tick publishes it. */
  lemma {:induction false} LoweredFailsafeUnpublished(baselineW: real, first: real, second: real)
    requires second < first <= baselineW
    ensures
      var silent := ThenReport([], 0) + [Heartbeat(0.0, None)] + [FailsafeRead(first)] + [Clock(121.0)];
      var m := MeteredRun(baselineW, ThenReport(silent, 1) + [FailsafeRead(second)] + [Clock(122.0)]);
      AtRest(m) && EffectiveLimit(m.limits) == Some(second) && m.published == Some(first)
  {
    var start := ThenReport([], 0);
    var seen := start + [Heartbeat(0.0, None)];
    var silent := seen + [FailsafeRead(first)] + [Clock(121.0)];
    Reported(baselineW, []);
    MeteredSnoc(baselineW, start, Heartbeat(0.0, None));
    MeteredSnoc(baselineW, seen, FailsafeRead(first));
    MeteredSnoc(baselineW, seen + [FailsafeRead(first)], Clock(121.0));
    Reported(baselineW, silent);
    MeteredSnoc(baselineW, ThenReport(silent, 1), FailsafeRead(second));
    MeteredSnoc(baselineW, ThenReport(silent, 1) + [FailsafeRead(second)], Clock(122.0));
  }

  /** The first limit has expired, and every report but the expiry's is made. */
  function FirstExpired(first: LimitWrite, second: LimitWrite): seq<Event> {
    ThenExpire(ThenReport(ThenReport(FirstInForce(first, second), 0), 1) + [ExpireCheck(1)], 1)
  }

  lemma {:induction false} FirstInForceMetered(baselineW: real, first: LimitWrite, second: LimitWrite)
    requires Successive(first, second)
    ensures
      MeteredRun(baselineW, FirstInForce(first, second)) ==
      Metered(Refreshed(OneStored(first, second), 1), 2, map[], 0, None)
  {
    FirstIsStored(first, second);
    var start := [Heartbeat(0.0, None)];
    MeteredSnoc(baselineW, [], Heartbeat(0.0, None));
    assert [] + start == start;
    MeteredSnoc(baselineW, start, Ask([first, second]));
    MeteredSnoc(baselineW, Asked(first, second), Store(first));
    MeteredLimits(baselineW, FirstStored(first, second));
    UpdateMetered(baselineW, FirstStored(first, second), 1);
  }

  lemma {:induction false} FirstExpiredMetered(baselineW: real, first: LimitWrite, second: LimitWrite)
    requires Successive(first, second)
    ensures
      var m := MeteredRun(baselineW, FirstExpired(first, second));
      && m.limits == Cleared(Refreshed(OneStored(first, second), 1).(running := {}, checked := {1}), 1)
      && m.owed == 1 && m.computed == map[] && m.reports == 2
  {
    var h := FirstInForce(first, second);
    FirstInForceMetered(baselineW, first, second);
    Reported(baselineW, h);
    Reported(baselineW, ThenReport(h, 0));
    var reported := ThenReport(ThenReport(h, 0), 1);
    MeteredSnoc(baselineW, reported, ExpireCheck(1));
    MeteredLimits(baselineW, reported + [ExpireCheck(1)]);
    ExpiryMetered(baselineW, reported + [ExpireCheck(1)], 1);
  }

  /** The expiry's report computes the baseline; the second limit is applied and reported meanwhile. */
  function Overtaking(first: LimitWrite, second: LimitWrite): seq<Event> {
    ThenReport(ThenUpdate(FirstExpired(first, second) + [Compute] + [Store(second)], 2), 3)
  }

  /** The expiry's report is published last, and the baseline stays published under the second limit. */
  lemma {:induction false} StaleReportStays(baselineW: real, first: LimitWrite, second: LimitWrite)
    requires Successive(first, second) && second.value < baselineW
    ensures
      var before := MeteredRun(baselineW, Overtaking(first, second));
      var m := MeteredRun(baselineW, Overtaking(first, second) + [Publish(2)]);
      && before.published == Some(second.value)
      && AtRest(m) && !m.limits.guard.failsafe
      && EffectiveLimit(m.limits) == Some(second.value) && m.published == Some(baselineW)
  {
    var h := FirstExpired(first, second);
    FirstExpiredMetered(baselineW, first, second);
    MeteredSnoc(baselineW, h, Compute);
    MeteredSnoc(baselineW, h + [Compute], Store(second));
    var stored := h + [Compute] + [Store(second)];
    MeteredLimits(baselineW, stored);
    UpdateMetered(baselineW, stored, 2);
    Reported(baselineW, ThenUpdate(stored, 2));
    MeteredSnoc(baselineW, Overtaking(first, second), Publish(2));
  }
}
