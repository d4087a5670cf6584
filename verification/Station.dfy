/**
 internal/simulator/simulator.go: the simulated station itself. Its methods are the critical sections of
 its handlers; they take the station from one state of StationLimits and StationMeter to the next.
 */
module Station {
  import opened Options
  import opened StationLimits
  import opened StationMeter
  import opened Vehicle

  // ------------------------------------------------- published power with a vehicle

  /** stationLimitPerPhaseA: 0 stands for no limit. */
  function LimitPerPhase(s: Limits, cfg: Config): real
    requires ValidConfig(cfg)
  {
    match EffectiveLimit(s)
    case Some(limit) => PhaseShare(cfg, limit)
    case None => 0.0
  }

  /**
   After a clock tick with a vehicle, in any run in which the failsafe limits read are not negative, the
   metered power stays within the limit sampled at that tick exactly when the limit is positive or every
   phase is idle anyway.
   */
  lemma {:induction false} TickRespectsLimit(
    h: seq<Event>, cfg: Config, v: Vehicle.State, now: real, later: real, limit: real)
    requires Valid(cfg, v) && EffectiveLimit(RunOf(h)) == Some(limit)
    requires forall k | 0 <= k < |h| && h[k].FailsafeRead? :: h[k].failsafeW >= 0.0
    ensures
      var ticked := Tick(cfg, v, LimitPerPhase(RunOf(h), cfg), now);
      StationPower(cfg, ticked, later) <= limit <==> limit > 0.0 || AllIdle(cfg, ticked, later)
  {
    LimitsNeverNegative(h);
    LimitRespectedExactly(cfg, Tick(cfg, v, LimitPerPhase(RunOf(h), cfg), now), later, limit);
  }

  /** What one second of the clock does to the vehicle. */
  function VehicleTick(cfg: Config, v: Vehicle.State, obliged: seq<Option<WrittenLimit>>,
                       recommended: seq<Option<WrittenLimit>>, share: real, now: real): Vehicle.State
    requires Valid(cfg, v) && |obliged| == |recommended| == Measured(cfg)
  {
    var picked := v.(obligations := PickedUp(cfg, v.obligations, obliged),
                     recommendations := PickedUp(cfg, v.recommendations, recommended));
    Tick(cfg, picked, share, now)
  }

  /** The failsafe limit was read, if it could be. */
  function FailsafeWasRead(baselineW: real, m: Metered, readW: Option<real>): Metered {
    if readW.Some? then StepMetered(baselineW, m, FailsafeRead(readW.value)) else m
  }

  function ReportMade(baselineW: real, m: Metered): Metered {
    StepMetered(baselineW, StepMetered(baselineW, m, Compute), Publish(m.reports))
  }

  lemma {:induction false} GrantedSnoc(pending: seq<LimitWrite>, i: nat, guarded: bool)
    requires i < |pending|
    ensures Granted(pending[..i + 1], guarded) ==
      Granted(pending[..i], guarded) + if guarded && pending[i].value >= 0.0 then multiset{pending[i]} else multiset{}
    ensures Decisions(pending[..i + 1], guarded) ==
      Decisions(pending[..i], guarded) + [guarded && pending[i].value >= 0.0]
  {
    assert pending[..i + 1][..i] == pending[..i];
  }

  // ------------------------------------------------- the object

  class Device {
    const baselineW: real
    const ev: EvSim?
    /** The published limit data, which the stack keeps. */
    var data: LimitWrite
    var limitW: real
    var limitActive: bool
    var limitGen: nat
    var guardSeen: Option<real>
    var guardTimeout: real
    var failsafe: bool
    var failsafeW: real
    var published: Option<real>
    /** The state of the run so far, with what is to come, under way, or held by a goroutine. */
    ghost var meter: Metered

    ghost function View(): Limits
      reads this
    {
      meter.limits
    }

    /** The fields are those of the run's state; with a vehicle the published power is the vehicle's. */
    ghost predicate Valid()
      reads this
    {
      var s := meter.limits;
      && data == s.data.limit
      && limitW == s.held.limit.value && limitActive == s.active && limitGen == s.generation
      && Guard(guardSeen, guardTimeout, failsafe, failsafeW) == s.guard
      && (ev == null ==> published == meter.published)
    }

    constructor (baselineW: real, ev: EvSim?)
      ensures this.baselineW == baselineW && this.ev == ev
      ensures Valid() && meter == MeteredRun(baselineW, [])
    {
      this.baselineW, this.ev, published := baselineW, ev, None;
      data, limitW, limitActive, limitGen, failsafe, failsafeW := NO_LIMIT, 0.0, false, 0, false, 0.0;
      guardSeen, guardTimeout := None, DEFAULT_GUARD_TIMEOUT;
      meter := MeteredRun(baselineW, []);
    }

    /** The decision on all pending limit writes; those granted join the approved ones. */
    method ApproveLimits(pending: seq<LimitWrite>) returns (granted: seq<bool>)
      requires Valid()
      modifies this`meter
      ensures granted == Decisions(pending, Guarded(guardSeen, failsafe))
      ensures Valid() && meter == StepMetered(baselineW, old(meter), Ask(pending))
    {
      var noGuard := guardSeen == None || failsafe;
      ghost var grants;
      granted, grants := Decide(pending, noGuard);
      meter := meter.(limits := View().(approved := View().approved + grants));
    }

    static method Decide(pending: seq<LimitWrite>, noGuard: bool)
      returns (granted: seq<bool>, ghost grants: multiset<LimitWrite>)
      ensures granted == Decisions(pending, !noGuard) && grants == Granted(pending, !noGuard)
    {
      granted, grants := [], multiset{};
      for i := 0 to |pending|
        invariant granted == Decisions(pending[..i], !noGuard) && grants == Granted(pending[..i], !noGuard)
      {
        GrantedSnoc(pending, i, !noGuard);
        var refused := pending[i].value < 0.0 || noGuard;
        granted := granted + [!refused];
        if !refused {
          grants := grants + multiset{pending[i]};
        }
      }
      assert pending[..|pending|] == pending;
    }

    /** The stack stores an approved write and hands its update to a goroutine of its own. */
    method StoreApproved(w: LimitWrite)
      requires Valid() && w in View().approved
      modifies this
      ensures Valid() && meter == StepMetered(baselineW, old(meter), Store(w))
    {
      data := w;
      meter := StepMetered(baselineW, meter, Store(w));
    }

    /** The update reads the published data, whose time may be over, or ends when it cannot. */
    method UpdateLimitRead(ghost n: nat, readable: bool, over: bool) returns (copy: Option<LimitWrite>)
      requires Valid() && n in View().due
      modifies this`meter
      ensures copy == if readable then Some(Current(old(View().data), over).limit) else None
      ensures
        && Valid()
        && meter == StepMetered(baselineW, old(meter), if readable then UpdateRead(n, over) else UpdateFail(n))
      ensures readable ==> n in View().copies && View().copies[n].limit == copy.value
    {
      if !readable {
        copy := None;
      } else if over && data.duration > 0.0 {
        copy := Some(data.(active := false, duration := 0.0));
      } else {
        copy := Some(data);
      }
      meter := StepMetered(baselineW, meter, if readable then UpdateRead(n, over) else UpdateFail(n));
    }

    /** It then installs what it read, under the lock; a report is due after it. */
    method UpdateLimitApply(ghost n: nat, copy: LimitWrite)
      requires Valid() && n in View().copies && View().copies[n].limit == copy
      modifies this
      ensures Valid() && meter == StepMetered(baselineW, old(meter), UpdateApply(n))
    {
      limitW := copy.value;
      limitActive := copy.active;
      limitGen := limitGen + 1;
      meter := StepMetered(baselineW, meter, UpdateApply(n));
    }

    method ExpireLimitCheck(gen: nat) returns (stale: bool)
      requires Valid() && gen in View().running
      modifies this`meter
      ensures stale == (gen != limitGen) && (!stale ==> gen in View().checked)
      ensures Valid() && meter == StepMetered(baselineW, old(meter), ExpireCheck(gen))
    {
      stale := gen != limitGen;
      meter := StepMetered(baselineW, meter, ExpireCheck(gen));
    }

    method ExpireLimitRead(gen: nat, readable: bool) returns (copy: Option<LimitWrite>)
      requires Valid() && gen in View().checked
      modifies this`meter
      ensures copy == if readable then Some(data) else None
      ensures
        Valid() && meter == StepMetered(baselineW, old(meter), if readable then ExpireRead(gen) else ExpireFail(gen))
      ensures readable ==> gen in View().copied && View().copied[gen].limit == data
    {
      copy := if readable then Some(data) else None;
      meter := StepMetered(baselineW, meter, if readable then ExpireRead(gen) else ExpireFail(gen));
    }

    /** What it has read is written back inactive and without a duration, unless the stack refuses it. */
    method ExpireLimitWrite(gen: nat, copy: LimitWrite, writable: bool)
      requires Valid() && gen in View().copied && View().copied[gen].limit == copy
      modifies this
      ensures
        Valid() && meter == StepMetered(baselineW, old(meter), if writable then ExpireWrite(gen) else ExpireFail(gen))
    {
      if writable {
        data := copy.(active := false, duration := 0.0);
      }
      meter := StepMetered(baselineW, meter, if writable then ExpireWrite(gen) else ExpireFail(gen));
    }

    method ExpireLimitCommit(gen: nat)
      requires Valid() && gen in View().wrote
      modifies this
      ensures Valid() && meter == StepMetered(baselineW, old(meter), ExpireCommit(gen))
    {
      limitActive := false;
      meter := StepMetered(baselineW, meter, ExpireCommit(gen));
    }

    method GuardHeartbeat(now: real, timeout: Option<real>)
      requires Valid()
      modifies this
      ensures Valid() && meter == StepMetered(baselineW, old(meter), Heartbeat(now, timeout))
    {
      guardSeen := Some(now);
      if timeout.Some? && timeout.value > 0.0 {
        guardTimeout := timeout.value;
      }
      meter := StepMetered(baselineW, meter, Heartbeat(now, timeout));
    }

    /** First the failsafe limit is refreshed, when it can be read, then the failsafe state. */
    method UpdateFailsafe(now: real, readW: Option<real>) returns (changed: bool)
      requires Valid()
      modifies this
      ensures
        var read := FailsafeWasRead(baselineW, old(meter), readW);
        && Valid() && meter == StepMetered(baselineW, read, Clock(now))
        && changed == Owes(read.limits, Clock(now))
    {
      if readW.Some? {
        failsafeW := readW.value;
      }
      meter := FailsafeWasRead(baselineW, meter, readW);
      var silent := guardSeen.Some? && now - guardSeen.value > 2.0 * guardTimeout;
      changed := silent != failsafe;
      if changed {
        failsafe := silent;
      }
      meter := StepMetered(baselineW, meter, Clock(now));
    }

    method EffectiveLimitLocked() returns (limit: real, active: bool)
      requires Valid()
      ensures EffectiveLimit(View()) == if active then Some(limit) else None
    {
      limit, active := limitW, limitActive;
      if failsafe {
        limit, active := failsafeW, true;
      }
    }

    /** The first half of a report, under the lock. */
    method ComputePower() returns (power: real, ghost report: nat)
      requires Valid()
      modifies this`meter
      ensures power == Capped(baselineW, EffectiveLimit(View())) && report == old(meter.reports)
      ensures Valid() && meter == StepMetered(baselineW, old(meter), Compute)
    {
      power, report := baselineW, meter.reports;
      var limit, active := EffectiveLimitLocked();
      if active && limit < power {
        power := limit;
      }
      meter := StepMetered(baselineW, meter, Compute);
    }

    /** The second half, without it: with a vehicle its currents are metered, otherwise the computed power. */
    method PublishPower(power: real, ghost report: nat, now: real)
      requires Valid()
      requires
        if ev == null then report in meter.computed && meter.computed[report] == power
        else Vehicle.Valid(ev.cfg, ev.View())
      modifies this
      ensures Valid() && meter == StepMetered(baselineW, old(meter), Publish(report)) && View() == old(View())
      ensures published == Some(if ev == null then power else StationPower(ev.cfg, ev.View(), now))
    {
      if ev != null {
        var metered := ev.MeterPower(now);
        published := Some(metered);
      } else {
        published := Some(power);
      }
      meter := StepMetered(baselineW, meter, Publish(report));
    }

    /** A report with nothing in between. */
    method ReportPower(now: real)
      requires Valid() && if ev == null then meter.owed > 0 else Vehicle.Valid(ev.cfg, ev.View())
      modifies this
      ensures Valid() && meter == ReportMade(baselineW, old(meter)) && View() == old(View())
      ensures
        published ==
        Some(if ev == null then Capped(baselineW, EffectiveLimit(View())) else StationPower(ev.cfg, ev.View(), now))
    {
      ghost var report;
      var power;
      power, report := ComputePower();
      PublishPower(power, report, now);
    }

    method StationLimitPerPhaseA() returns (share: real)
      requires Valid() && ev != null && ValidConfig(ev.cfg)
      ensures share == LimitPerPhase(View(), ev.cfg)
    {
      share := 0.0;
      var limit, active := EffectiveLimitLocked();
      if active {
        share := limit / (ev.cfg.phases as real) / NOMINAL_V;
      }
    }

    /**
     One second of the clock, with nothing in between. With a vehicle plugged in it picks up what a CEM has
     written, ticks under the station's limit of that moment and is metered; without one only a change of the
     failsafe state is reported.
     */
    method RunTick(now: real, later: real, readW: Option<real>,
                   obliged: seq<Option<WrittenLimit>>, recommended: seq<Option<WrittenLimit>>)
      requires Valid()
      requires ev != null ==> Vehicle.Valid(ev.cfg, ev.View()) && |obliged| == |recommended| == Measured(ev.cfg)
      modifies this, if ev == null then {} else {ev}
      ensures
        var read := FailsafeWasRead(baselineW, old(meter), readW);
        var clocked := StepMetered(baselineW, read, Clock(now));
        && Valid() && View() == clocked.limits
        && (ev == null ==>
             meter == if Owes(read.limits, Clock(now)) then ReportMade(baselineW, clocked) else clocked)
      ensures ev != null ==>
        && Vehicle.Valid(ev.cfg, old(ev.View())) && Vehicle.Valid(ev.cfg, ev.View())
        && ev.View() == VehicleTick(ev.cfg, old(ev.View()), obliged, recommended, LimitPerPhase(View(), ev.cfg), now)
        && published == Some(StationPower(ev.cfg, ev.View(), later))
    {
      var changed := UpdateFailsafe(now, readW);
      if ev != null {
        TickVehicle(now, obliged, recommended);
        ReportPower(later);
      } else if changed {
        ReportPower(later);
      }
    }

    method TickVehicle(now: real, obliged: seq<Option<WrittenLimit>>, recommended: seq<Option<WrittenLimit>>)
      requires Valid() && ev != null && Vehicle.Valid(ev.cfg, ev.View())
      requires |obliged| == |recommended| == Measured(ev.cfg)
      modifies ev
      ensures Vehicle.Valid(ev.cfg, ev.View())
      ensures ev.View() == VehicleTick(ev.cfg, old(ev.View()), obliged, recommended, LimitPerPhase(View(), ev.cfg), now)
    {
      ev.ApplyWrittenLimits(obliged, recommended);
      var share := StationLimitPerPhaseA();
      TickKeepsValid(ev.cfg, ev.View(), share, now);
      var powerW := ev.AdvanceTick(share, now);
    }
  }
}
