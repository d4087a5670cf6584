/**
 internal/simulator/ev.go: the simulated vehicle. Currents in A, energy in Wh, times in seconds,
 all as exact reals.
 */
module Vehicle {
  import opened Options

  const GUARD_TIMEOUT: real := 4.0
  const NOMINAL_V: real := 230.0

  datatype Config = Config(maxA: real, minA: real, batteryKWh: real, socStart: real, phases: nat, combined: bool,
    speedup: real)

  /** What evDefaults guarantees. */
  predicate ValidConfig(c: Config) {
    c.maxA > 0.0 && c.minA > 0.0 && c.batteryKWh > 0.0 && 1 <= c.phases <= 3 && c.speedup > 0.0
  }

  function Measured(c: Config): nat {
    if c.combined then 1 else c.phases
  }

  function PhasesPerMeasurement(c: Config): real {
    if c.combined then c.phases as real else 1.0
  }

  /** One limit per measured phase. */
  datatype LimitSet = LimitSet(on: seq<bool>, valueA: seq<real>)

  predicate ValidSet(s: LimitSet, c: Config) {
    |s.on| == |s.valueA| == Measured(c)
  }

  datatype State = State(
    obligations: LimitSet, recommendations: LimitSet, finished: bool, stationA: real,
    guardSeen: Option<real>, guardFailed: bool, soc: real, energyWh: real, lastTick: real)

  predicate Valid(c: Config, s: State) {
    ValidConfig(c) && ValidSet(s.obligations, c) && ValidSet(s.recommendations, c)
  }

  /** The guard announced a failure, or its heartbeat was seen once and then stayed away too long. */
  predicate GuardMissing(s: State, now: real) {
    s.guardFailed || (s.guardSeen.Some? && now - s.guardSeen.value > GUARD_TIMEOUT)
  }

  /** What a CEM has written for one phase; without a value the maximum current is meant. */
  datatype WrittenLimit = WrittenLimit(active: bool, value: Option<real>)

  /** The set after reading back what was written; a phase that cannot be read keeps its limit. */
  function PickedUp(cfg: Config, l: LimitSet, written: seq<Option<WrittenLimit>>): LimitSet
    requires ValidSet(l, cfg) && |written| == Measured(cfg)
  {
    LimitSet(
      seq(Measured(cfg), i requires 0 <= i < Measured(cfg) =>
        if written[i].Some? then written[i].value.active else l.on[i]),
      seq(Measured(cfg), i requires 0 <= i < Measured(cfg) =>
        if written[i].None? then l.valueA[i]
        else if written[i].value.value.Some? then written[i].value.value.value
        else cfg.maxA))
  }

  /** Each phase takes over what was written for it, the maximum if that has no value, or keeps its limit. */
  lemma PickedUpExactly(cfg: Config, l: LimitSet, written: seq<Option<WrittenLimit>>, i: nat)
    requires ValidSet(l, cfg) && |written| == Measured(cfg) && i < Measured(cfg)
    ensures
      var picked := PickedUp(cfg, l, written);
      && ValidSet(picked, cfg)
      && match written[i]
         case None => picked.on[i] == l.on[i] && picked.valueA[i] == l.valueA[i]
         case Some(WrittenLimit(active, None)) => picked.on[i] == active && picked.valueA[i] == cfg.maxA
         case Some(WrittenLimit(active, Some(value))) => picked.on[i] == active && picked.valueA[i] == value
  {
  }

  // ------------------------------------------------- what a phase may draw

  /** The guard has announced no failure and was heard in the last four seconds, or never. */
  predicate Trusted(s: State, now: real) {
    !s.guardFailed && match s.guardSeen { case None => true case Some(seen) => now <= seen + 4.0 }
  }

  /** c respects every limit in force for phase i. */
  predicate WithinCeilings(cfg: Config, s: State, stationA: real, now: real, i: nat, c: real)
    requires Valid(cfg, s) && i < Measured(cfg)
  {
    && c <= cfg.maxA
    && (Trusted(s, now) && s.recommendations.on[i] ==> c <= s.recommendations.valueA[i])
    && (s.obligations.on[i] ==> c <= s.obligations.valueA[i])
    && (stationA > 0.0 ==> c <= stationA)
    && (!Trusted(s, now) ==> c <= cfg.minA)
  }

  /** A vehicle pauses, or charges with at least its minimum and within every limit. */
  predicate Admissible(cfg: Config, s: State, stationA: real, now: real, i: nat, c: real)
    requires Valid(cfg, s) && i < Measured(cfg)
  {
    c == 0.0 || (!s.finished && cfg.minA <= c && WithinCeilings(cfg, s, stationA, now, i, c))
  }

  function CapA(l: LimitSet, i: nat, want: real): real
    requires i < |l.on| == |l.valueA|
  {
    if l.on[i] && l.valueA[i] < want then l.valueA[i] else want
  }

  function CurrentA(cfg: Config, s: State, stationA: real, now: real, i: nat): real
    requires Valid(cfg, s) && i < Measured(cfg)
  {
    if s.finished then 0.0
    else
      var safe := GuardMissing(s, now);
      var recommended := if safe then cfg.maxA else CapA(s.recommendations, i, cfg.maxA);
      var obliged := CapA(s.obligations, i, recommended);
      var shared := if stationA > 0.0 && stationA < obliged then stationA else obliged;
      var held := if safe && shared > cfg.minA then cfg.minA else shared;
      if held < cfg.minA then 0.0 else held
  }

  function ChargingCurrents(cfg: Config, s: State, stationA: real, now: real): seq<real>
    requires Valid(cfg, s)
  {
    seq(Measured(cfg), i requires 0 <= i < Measured(cfg) => CurrentA(cfg, s, stationA, now, i))
  }

  /** The vehicle draws exactly the largest current that is admissible. */
  lemma DrawsLargestAdmissible(cfg: Config, s: State, stationA: real, now: real, i: nat, other: real)
    requires Valid(cfg, s) && i < Measured(cfg)
    ensures Admissible(cfg, s, stationA, now, i, CurrentA(cfg, s, stationA, now, i))
    ensures Admissible(cfg, s, stationA, now, i, other) ==> other <= CurrentA(cfg, s, stationA, now, i)
  {}

  /** Each phase is paused or within [Min, Max], and paused or at Min while the guard is not trusted. */
  lemma CurrentRange(cfg: Config, s: State, stationA: real, now: real, i: nat)
    requires Valid(cfg, s) && i < Measured(cfg)
    ensures
      var c := CurrentA(cfg, s, stationA, now, i);
      && (c == 0.0 || cfg.minA <= c <= cfg.maxA)
      && (!Trusted(s, now) ==> c == 0.0 || c == cfg.minA)
      && (stationA > 0.0 ==> c <= stationA)
  {}

  // ------------------------------------------------- what the station meters

  /** The current on every connected phase; a combined measurement flows on all of them. */
  function PhaseCurrents(cfg: Config, s: State, now: real): seq<real>
    requires Valid(cfg, s)
  {
    var currents := ChargingCurrents(cfg, s, s.stationA, now);
    if cfg.combined then seq(cfg.phases, i requires 0 <= i < cfg.phases => currents[0]) else currents
  }

  function Sum(values: seq<real>): real {
    if values == [] then 0.0 else Sum(values[..|values| - 1]) + values[|values| - 1]
  }

  function StationPower(cfg: Config, s: State, now: real): real
    requires Valid(cfg, s)
  {
    Sum(PhaseCurrents(cfg, s, now)) * NOMINAL_V
  }

  /** The vehicle's own power: each measured current on the phases it stands for. */
  function VehiclePower(cfg: Config, currents: seq<real>): real {
    Sum(currents) * NOMINAL_V * PhasesPerMeasurement(cfg)
  }

  lemma {:induction false} SumBound(values: seq<real>, low: real, high: real)
    requires forall i | 0 <= i < |values| :: low <= values[i] <= high
    ensures (|values| as real) * low <= Sum(values) <= (|values| as real) * high
  {
    if values != [] {
      var n := |values| - 1;
      SumBound(values[..n], low, high);
      assert (|values| as real) * low == (n as real) * low + low;
      assert (|values| as real) * high == (n as real) * high + high;
    }
  }

  lemma {:induction false} SumSame(values: seq<real>, value: real)
    requires forall i | 0 <= i < |values| :: values[i] == value
    ensures Sum(values) == (|values| as real) * value
  {
    SumBound(values, value, value);
  }

  /** What the station meters is what the vehicle reports, also through the combined-phase fan-out. */
  lemma StationMetersVehicle(cfg: Config, s: State, now: real)
    requires Valid(cfg, s)
    ensures StationPower(cfg, s, now) == VehiclePower(cfg, ChargingCurrents(cfg, s, s.stationA, now))
  {
    var currents := ChargingCurrents(cfg, s, s.stationA, now);
    if cfg.combined {
      SumSame(currents, currents[0]);
      SumSame(PhaseCurrents(cfg, s, now), currents[0]);
      assert |PhaseCurrents(cfg, s, now)| == cfg.phases && |currents| == 1;
    }
  }

  function PhaseShare(cfg: Config, limitW: real): real
    requires ValidConfig(cfg)
  {
    limitW / (cfg.phases as real) / NOMINAL_V
  }

  lemma PhaseCurrentRange(cfg: Config, s: State, now: real, i: nat)
    requires Valid(cfg, s) && i < |PhaseCurrents(cfg, s, now)|
    ensures |PhaseCurrents(cfg, s, now)| == cfg.phases
    ensures 0.0 <= PhaseCurrents(cfg, s, now)[i]
    ensures s.stationA > 0.0 ==> PhaseCurrents(cfg, s, now)[i] <= s.stationA
  {
    CurrentRange(cfg, s, s.stationA, now, if cfg.combined then 0 else i);
  }

  /** A positive station limit, split over the phases, bounds the metered power. */
  lemma LimitRespected(cfg: Config, s: State, now: real, limitW: real)
    requires Valid(cfg, s) && limitW > 0.0 && s.stationA == PhaseShare(cfg, limitW)
    ensures 0.0 <= StationPower(cfg, s, now) <= limitW
  {
    var currents := PhaseCurrents(cfg, s, now);
    SharePositive(cfg, limitW);
    forall i | 0 <= i < |currents| ensures 0.0 <= currents[i] <= s.stationA {
      PhaseCurrentRange(cfg, s, now, i);
    }
    assert |currents| == cfg.phases;
    SumBound(currents, 0.0, s.stationA);
  }

  lemma SharePositive(cfg: Config, limitW: real)
    requires ValidConfig(cfg)
    ensures (cfg.phases as real) * PhaseShare(cfg, limitW) * NOMINAL_V == limitW
    ensures PhaseShare(cfg, limitW) > 0.0 <==> limitW > 0.0
  {
    if cfg.phases == 1 {
    } else if cfg.phases == 2 {
    } else {
      assert cfg.phases == 3;
    }
  }

  /** Whatever the station says, this phase draws nothing: full, or held below the minimum current. */
  predicate Idle(cfg: Config, s: State, now: real, i: nat)
    requires Valid(cfg, s) && i < Measured(cfg)
  {
    || s.finished
    || cfg.maxA < cfg.minA
    || (s.obligations.on[i] && s.obligations.valueA[i] < cfg.minA)
    || (Trusted(s, now) && s.recommendations.on[i] && s.recommendations.valueA[i] < cfg.minA)
  }

  predicate AllIdle(cfg: Config, s: State, now: real)
    requires Valid(cfg, s)
  {
    forall i | 0 <= i < Measured(cfg) :: Idle(cfg, s, now, i)
  }

  /** Without a station limit the metered power is zero exactly when every phase is idle. */
  lemma IdleExactly(cfg: Config, s: State, now: real)
    requires Valid(cfg, s) && s.stationA <= 0.0
    ensures 0.0 <= StationPower(cfg, s, now)
    ensures StationPower(cfg, s, now) == 0.0 <==> AllIdle(cfg, s, now)
  {
    var currents := PhaseCurrents(cfg, s, now);
    forall i | 0 <= i < |currents| ensures 0.0 <= currents[i] {
      PhaseCurrentRange(cfg, s, now, i);
    }
    ZeroSum(currents);
    forall i | 0 <= i < Measured(cfg) ensures CurrentA(cfg, s, s.stationA, now, i) == 0.0 <==> Idle(cfg, s, now, i) {
    }
    if cfg.combined {
      assert currents[0] == CurrentA(cfg, s, s.stationA, now, 0);
      assert forall i | 0 <= i < |currents| :: currents[i] == currents[0];
    } else {
      assert forall i | 0 <= i < |currents| :: currents[i] == CurrentA(cfg, s, s.stationA, now, i);
    }
  }

  lemma {:induction false} ZeroSum(values: seq<real>)
    requires forall i | 0 <= i < |values| :: 0.0 <= values[i]
    ensures 0.0 <= Sum(values)
    ensures Sum(values) == 0.0 <==> forall i | 0 <= i < |values| :: values[i] == 0.0
  {
    if values != [] {
      ZeroSum(values[..|values| - 1]);
    }
  }

  /**
   A limit of zero (or less) is not passed on: the vehicle charges as if there were none. So the
   metered power stays within the limit exactly when the limit is positive, or is zero while every
   phase is idle anyway: the battery full, or a current written below the minimum.
   */
  lemma LimitRespectedExactly(cfg: Config, s: State, now: real, limitW: real)
    requires Valid(cfg, s) && s.stationA == PhaseShare(cfg, limitW)
    ensures StationPower(cfg, s, now) <= limitW <==> limitW > 0.0 || (limitW == 0.0 && AllIdle(cfg, s, now))
  {
    SharePositive(cfg, limitW);
    if limitW > 0.0 {
      LimitRespected(cfg, s, now, limitW);
    } else {
      IdleExactly(cfg, s, now);
    }
  }

  /** A vehicle nobody else curtails ignores a station limit of 0 W altogether. */
  lemma ZeroLimitIgnored(cfg: Config, s: State, now: real)
    requires Valid(cfg, s) && cfg.minA <= cfg.maxA && !s.finished && Trusted(s, now)
    requires forall i | 0 <= i < Measured(cfg) :: !s.obligations.on[i] && !s.recommendations.on[i]
    requires s.stationA == PhaseShare(cfg, 0.0)
    ensures StationPower(cfg, s, now) == (cfg.phases as real) * cfg.maxA * NOMINAL_V > 0.0
  {
    SharePositive(cfg, 0.0);
    SumSame(PhaseCurrents(cfg, s, now), cfg.maxA);
    assert (cfg.phases as real) * cfg.maxA > 0.0;
  }

  // ------------------------------------------------- the battery

  function DeltaWh(cfg: Config, powerW: real, elapsed: real): real {
    powerW * (elapsed * cfg.speedup) / 3600.0
  }

  function Charged(cfg: Config, s: State, deltaWh: real): State
    requires ValidConfig(cfg)
  {
    var soc := s.soc + deltaWh / (cfg.batteryKWh * 1000.0) * 100.0;
    s.(energyWh := s.energyWh + deltaWh, soc := if soc >= 100.0 then 100.0 else soc,
       finished := s.finished || soc >= 100.0)
  }

  function Tick(cfg: Config, s: State, stationA: real, now: real): State
    requires Valid(cfg, s)
  {
    var elapsed := now - s.lastTick;
    var t := s.(lastTick := now, stationA := stationA);
    var powerW := VehiclePower(cfg, ChargingCurrents(cfg, t, stationA, now));
    if elapsed > 0.0 && powerW > 0.0 then Charged(cfg, t, DeltaWh(cfg, powerW, elapsed)) else t
  }

  function Charge(cfg: Config, energyWh: real): real
    requires ValidConfig(cfg)
  {
    energyWh / (10.0 * cfg.batteryKWh)
  }

  /** The state of charge is the start plus the energy charged; charging caps it at 100 percent. */
  ghost predicate BatteryOk(cfg: Config, s: State) {
    && ValidConfig(cfg)
    && s.energyWh >= 0.0
    && (if s.finished then s.energyWh > 0.0 && s.soc == 100.0 && cfg.socStart + Charge(cfg, s.energyWh) >= 100.0
        else s.soc == cfg.socStart + Charge(cfg, s.energyWh) && (s.energyWh > 0.0 ==> s.soc < 100.0))
  }

  lemma ChargeAdds(cfg: Config, energyWh: real, delta: real)
    requires ValidConfig(cfg)
    ensures Charge(cfg, energyWh + delta) == Charge(cfg, energyWh) + delta / (cfg.batteryKWh * 1000.0) * 100.0
  {
    var k := cfg.batteryKWh;
    var unit := 1.0 / (10.0 * k);
    assert delta / (k * 1000.0) * 100.0 == delta * unit by {
      assert (k * 1000.0) == 100.0 * (10.0 * k);
      Quotient(delta, 10.0 * k);
    }
    assert energyWh / (10.0 * k) == energyWh * unit;
    assert (energyWh + delta) / (10.0 * k) == (energyWh + delta) * unit;
  }

  lemma Quotient(delta: real, d: real)
    requires d > 0.0
    ensures delta / (100.0 * d) * 100.0 == delta * (1.0 / d)
  {
    assert delta / (100.0 * d) * (100.0 * d) == delta;
    assert delta * (1.0 / d) * d == delta;
    var x, y := delta / (100.0 * d) * 100.0, delta * (1.0 / d);
    assert x * d == y * d;
    assert (x - y) * d == 0.0;
  }

  lemma TickKeepsBattery(cfg: Config, s: State, stationA: real, now: real)
    requires Valid(cfg, s) && BatteryOk(cfg, s)
    ensures
      var t := Tick(cfg, s, stationA, now);
      && Valid(cfg, t) && BatteryOk(cfg, t)
      && (t.soc >= s.soc || s.soc > 100.0) && t.energyWh >= s.energyWh
      && (s.finished ==> t.finished && t.energyWh == s.energyWh)
  {
    var t := s.(lastTick := now, stationA := stationA);
    var currents := ChargingCurrents(cfg, t, stationA, now);
    var elapsed, powerW := now - s.lastTick, VehiclePower(cfg, currents);
    if s.finished {
      SumSame(currents, 0.0);
    } else if elapsed > 0.0 && powerW > 0.0 {
      var delta := DeltaWh(cfg, powerW, elapsed);
      DeltaPositive(cfg, powerW, elapsed);
      ChargeAdds(cfg, s.energyWh, delta);
      ChargePositive(cfg, delta);
    }
  }

  /** A tick adds the energy of the currents drawn at that moment over the time since the last one, sped up. */
  lemma TickAddsEnergy(cfg: Config, s: State, stationA: real, now: real)
    requires Valid(cfg, s)
    ensures
      var t := Tick(cfg, s, stationA, now);
      var power := PowerOf(cfg, ChargingCurrents(cfg, s, stationA, now));
      && t.lastTick == now && t.stationA == stationA
      && (if now > s.lastTick && power > 0.0
          then EnergyOf(t.energyWh - s.energyWh, power, now - s.lastTick, cfg.speedup)
          else t.energyWh == s.energyWh)
  {
    var currents := ChargingCurrents(cfg, s, stationA, now);
    assert ChargingCurrents(cfg, s.(lastTick := now, stationA := stationA), stationA, now) == currents;
    PowerExactly(cfg, currents);
    DeltaExactly(cfg, VehiclePower(cfg, currents), now - s.lastTick);
    EnergyDifference(s.energyWh, DeltaWh(cfg, VehiclePower(cfg, currents), now - s.lastTick));
  }

  /** 230 V on each phase a current stands for: all of them when they are measured as one. */
  function PowerOf(cfg: Config, currents: seq<real>): real {
    if cfg.combined then (cfg.phases as real) * (230.0 * Sum(currents)) else 230.0 * Sum(currents)
  }

  /** So many watt-hours are this power over these seconds, sped up. */
  predicate EnergyOf(wattHours: real, power: real, seconds: real, speedup: real) {
    wattHours * 3600.0 == power * (seconds * speedup)
  }

  lemma PowerExactly(cfg: Config, currents: seq<real>)
    ensures VehiclePower(cfg, currents) == PowerOf(cfg, currents)
  {
  }

  lemma DeltaExactly(cfg: Config, power: real, seconds: real)
    ensures EnergyOf(DeltaWh(cfg, power, seconds), power, seconds, cfg.speedup)
  {
  }

  lemma EnergyDifference(before: real, delta: real)
    ensures before + delta - before == delta
  {
  }

  lemma TickKeepsValid(cfg: Config, s: State, stationA: real, now: real)
    requires Valid(cfg, s)
    ensures Valid(cfg, Tick(cfg, s, stationA, now))
  {
  }

  lemma DeltaPositive(cfg: Config, powerW: real, elapsed: real)
    requires ValidConfig(cfg) && powerW > 0.0 && elapsed > 0.0
    ensures DeltaWh(cfg, powerW, elapsed) > 0.0
  {
    assert elapsed * cfg.speedup > 0.0;
  }

  lemma ChargePositive(cfg: Config, delta: real)
    requires ValidConfig(cfg) && delta > 0.0
    ensures delta / (cfg.batteryKWh * 1000.0) * 100.0 > 0.0
  {
    assert cfg.batteryKWh * 1000.0 > 0.0;
  }

  /** One round of the clock: whatever the limits and the guard have become, then a tick. */
  datatype Round = Round(
    obligations: LimitSet, recommendations: LimitSet, guardSeen: Option<real>, guardFailed: bool,
    stationA: real, now: real)

  function Rounds(cfg: Config, s: State, rounds: seq<Round>): State
    requires Valid(cfg, s) && ValidRounds(cfg, rounds)
    ensures Valid(cfg, Rounds(cfg, s, rounds))
  {
    if rounds == [] then s
    else
      var r := rounds[|rounds| - 1];
      var before := Rounds(cfg, s, rounds[..|rounds| - 1]);
      Tick(cfg, Entering(before, r), r.stationA, r.now)
  }

  /** The state a round's tick starts from. */
  function Entering(s: State, r: Round): State {
    s.(obligations := r.obligations, recommendations := r.recommendations,
       guardSeen := r.guardSeen, guardFailed := r.guardFailed)
  }

  /** Time passed since the last tick, and the vehicle draws power in this round. */
  predicate Draws(cfg: Config, s: State, r: Round)
    requires Valid(cfg, s) && ValidSet(r.obligations, cfg) && ValidSet(r.recommendations, cfg)
  {
    r.now > s.lastTick && VehiclePower(cfg, ChargingCurrents(cfg, Entering(s, r), r.stationA, r.now)) > 0.0
  }

  predicate ValidRounds(cfg: Config, rounds: seq<Round>) {
    forall i | 0 <= i < |rounds| :: ValidSet(rounds[i].obligations, cfg) && ValidSet(rounds[i].recommendations, cfg)
  }

  /** In some round the vehicle drew power for some time. */
  predicate Charging(cfg: Config, s: State, rounds: seq<Round>)
    requires Valid(cfg, s) && ValidRounds(cfg, rounds)
  {
    if rounds == [] then false
    else
      var n := |rounds| - 1;
      Charging(cfg, s, rounds[..n]) || Draws(cfg, Rounds(cfg, s, rounds[..n]), rounds[n])
  }

  /**
   Over any session the battery reads min(100, start + energy / (10 * capacity)), unless it starts
   above 100 percent, which nothing refuses, and no round has drawn power yet.
   */
  lemma {:induction false} BatteryOverSession(cfg: Config, s: State, rounds: seq<Round>)
    requires Valid(cfg, s) && s.soc == cfg.socStart && s.energyWh == 0.0 && !s.finished && ValidRounds(cfg, rounds)
    ensures
      var t := Rounds(cfg, s, rounds);
      var level := cfg.socStart + Charge(cfg, t.energyWh);
      && BatteryOk(cfg, t)
      && ((t.soc == if level < 100.0 then level else 100.0) <==> cfg.socStart <= 100.0 || Charging(cfg, s, rounds))
  {
    BatteryKept(cfg, s, rounds);
    BatteryLevel(cfg, Rounds(cfg, s, rounds));
  }

  /** What the battery reads is the capped level, unless it starts above it and took no energy. */
  lemma BatteryLevel(cfg: Config, t: State)
    requires BatteryOk(cfg, t)
    ensures
      var level := cfg.socStart + Charge(cfg, t.energyWh);
      (t.soc == if level < 100.0 then level else 100.0) <==> cfg.socStart <= 100.0 || t.energyWh > 0.0
  {
    assert t.energyWh == 0.0 ==> Charge(cfg, t.energyWh) == 0.0;
  }

  lemma {:induction false} BatteryKept(cfg: Config, s: State, rounds: seq<Round>)
    requires Valid(cfg, s) && s.soc == cfg.socStart && s.energyWh == 0.0 && !s.finished && ValidRounds(cfg, rounds)
    ensures BatteryOk(cfg, Rounds(cfg, s, rounds))
    ensures Rounds(cfg, s, rounds).energyWh > 0.0 <==> Charging(cfg, s, rounds)
  {
    if rounds != [] {
      var r := rounds[|rounds| - 1];
      var before := Rounds(cfg, s, rounds[..|rounds| - 1]);
      BatteryKept(cfg, s, rounds[..|rounds| - 1]);
      TickKeepsBattery(cfg, Entering(before, r), r.stationA, r.now);
      TickCharges(cfg, before, r);
    }
  }

  /** A round adds energy exactly when it draws. */
  lemma TickCharges(cfg: Config, s: State, r: Round)
    requires Valid(cfg, s) && ValidSet(r.obligations, cfg) && ValidSet(r.recommendations, cfg)
    ensures Tick(cfg, Entering(s, r), r.stationA, r.now).energyWh > s.energyWh <==> Draws(cfg, s, r)
    ensures !Draws(cfg, s, r) ==> Tick(cfg, Entering(s, r), r.stationA, r.now).energyWh == s.energyWh
  {
    var t := Entering(s, r);
    var ticked := t.(lastTick := r.now, stationA := r.stationA);
    assert ChargingCurrents(cfg, ticked, r.stationA, r.now) == ChargingCurrents(cfg, t, r.stationA, r.now);
    if Draws(cfg, s, r) {
      DeltaPositive(cfg, VehiclePower(cfg, ChargingCurrents(cfg, t, r.stationA, r.now)), r.now - s.lastTick);
    }
  }

  // ------------------------------------------------- the object

  class EvSim {
    const cfg: Config
    var obligations: LimitSet
    var recommendations: LimitSet
    var finished: bool
    var stationA: real
    var guardSeen: Option<real>
    var guardFailed: bool
    var soc: real
    var energyWh: real
    var lastTick: real

    function View(): State
      reads this
    {
      State(obligations, recommendations, finished, stationA, guardSeen, guardFailed, soc, energyWh, lastTick)
    }

    constructor (cfg: Config, now: real)
      requires ValidConfig(cfg)
      ensures this.cfg == cfg && Valid(cfg, View())
      ensures soc == cfg.socStart && energyWh == 0.0 && !finished && BatteryOk(cfg, View())
    {
      this.cfg := cfg;
      obligations := LimitSet(seq(Measured(cfg), _ => false), seq(Measured(cfg), _ => 0.0));
      recommendations := LimitSet(seq(Measured(cfg), _ => false), seq(Measured(cfg), _ => 0.0));
      finished, stationA, guardSeen, guardFailed := false, 0.0, None, false;
      soc, energyWh, lastTick := cfg.socStart, 0.0, now;
    }

    method ApplyWrittenLimits(obliged: seq<Option<WrittenLimit>>, recommended: seq<Option<WrittenLimit>>)
      requires Valid(cfg, View()) && |obliged| == |recommended| == Measured(cfg)
      modifies this`obligations, this`recommendations
      ensures obligations == PickedUp(cfg, old(obligations), obliged)
      ensures recommendations == PickedUp(cfg, old(recommendations), recommended)
      ensures Valid(cfg, View())
    {
      obligations := PickUp(obligations, obliged);
      recommendations := PickUp(recommendations, recommended);
    }

    method PickUp(l: LimitSet, written: seq<Option<WrittenLimit>>) returns (r: LimitSet)
      requires ValidSet(l, cfg) && |written| == Measured(cfg)
      ensures r == PickedUp(cfg, l, written)
    {
      r := l;
      for i := 0 to |written|
        invariant |r.on| == |r.valueA| == |written|
        invariant forall k | 0 <= k < i ::
            r.on[k] == PickedUp(cfg, l, written).on[k] && r.valueA[k] == PickedUp(cfg, l, written).valueA[k]
        invariant forall k | i <= k < |written| :: r.on[k] == l.on[k] && r.valueA[k] == l.valueA[k]
      {
        if written[i].Some? {
          var value := cfg.maxA;
          if written[i].value.value.Some? {
            value := written[i].value.value.value;
          }
          r := LimitSet(r.on[i := written[i].value.active], r.valueA[i := value]);
        }
      }
      assert r.on == PickedUp(cfg, l, written).on && r.valueA == PickedUp(cfg, l, written).valueA;
    }

    method ChargingCurrentA(stationLimitA: real, now: real) returns (out: seq<real>)
      requires Valid(cfg, View())
      ensures out == ChargingCurrents(cfg, View(), stationLimitA, now)
    {
      out := [];
      var safe := GuardMissing(View(), now);
      for i := 0 to |obligations.on|
        invariant |out| == i
        invariant forall k | 0 <= k < i :: out[k] == CurrentA(cfg, View(), stationLimitA, now, k)
      {
        if finished {
          out := out + [0.0];
          continue;
        }
        var want := cfg.maxA;
        if !safe {
          want := CapA(recommendations, i, want);
        }
        want := CapA(obligations, i, want);
        if stationLimitA > 0.0 && stationLimitA < want {
          want := stationLimitA;
        }
        if safe && want > cfg.minA {
          want := cfg.minA;
        }
        if want < cfg.minA {
          want := 0.0;
        }
        out := out + [want];
      }
    }

    method AdvanceTick(stationLimitA: real, now: real) returns (powerW: real)
      requires Valid(cfg, View())
      modifies this
      ensures View() == Tick(cfg, old(View()), stationLimitA, now)
      ensures powerW == if finished then 0.0 else VehiclePower(cfg, ChargingCurrents(cfg, View(), stationLimitA, now))
    {
      var elapsed := now - lastTick;
      lastTick := now;
      stationA := stationLimitA;
      ghost var t := View();
      var currents := ChargingCurrentA(stationLimitA, now);
      powerW := AddUp(currents);
      if finished {
        SumSame(currents, 0.0);
      }
      if elapsed > 0.0 && powerW > 0.0 {
        AddCharge(DeltaWh(cfg, powerW, elapsed));
        if finished {
          powerW := 0.0;
        }
      }
      if !finished {
        assert ChargingCurrents(cfg, View(), stationLimitA, now) == currents;
      }
    }

    /** Currents and the sum over the connected phases that reportPower publishes. */
    method MeterPower(now: real) returns (total: real)
      requires Valid(cfg, View())
      ensures total == StationPower(cfg, View(), now)
    {
      var currents := ChargingCurrentA(stationA, now);
      if cfg.combined {
        currents := seq(cfg.phases, i requires 0 <= i < cfg.phases => currents[0]);
      }
      assert currents == PhaseCurrents(cfg, View(), now);
      total := 0.0;
      for i := 0 to |currents|
        invariant total == Sum(currents[..i]) * NOMINAL_V
      {
        assert currents[..i + 1][..i] == currents[..i];
        total := total + currents[i] * NOMINAL_V;
      }
      assert currents[..|currents|] == currents;
    }

    method AddCharge(deltaWh: real)
      requires ValidConfig(cfg) && !finished
      modifies this`energyWh, this`soc, this`finished
      ensures View() == Charged(cfg, old(View()), deltaWh)
    {
      energyWh := energyWh + deltaWh;
      soc := soc + deltaWh / (cfg.batteryKWh * 1000.0) * 100.0;
      if soc >= 100.0 {
        soc := 100.0;
        finished := true;
      }
    }

    method AddUp(currents: seq<real>) returns (powerW: real)
      requires ValidConfig(cfg)
      ensures powerW == VehiclePower(cfg, currents)
    {
      powerW := 0.0;
      for i := 0 to |currents|
        invariant powerW == VehiclePower(cfg, currents[..i])
      {
        assert currents[..i + 1][..i] == currents[..i];
        powerW := powerW + currents[i] * NOMINAL_V * PhasesPerMeasurement(cfg);
      }
      assert currents[..|currents|] == currents;
    }
  }
}
