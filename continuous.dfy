/**
 * `handleFanSpeed` of the PWM controller: the duty cycle for a temperature
 * reading, given the previous duty cycle, and whether a new duty cycle is sent
 * to the fan.
 */
module ContinuousControl {
  import opened Wrappers
  import opened Rounding
  import opened FanConfig

  /** The exception the ramp can raise: a float division by zero. */
  datatype StepError = ZeroDivisionError

  /** What one call produces: the new speed (`None` only if it was `None` before) and whether `fan.start` ran. */
  datatype Tick = Tick(speed: Option<int>, emitted: bool)

  /** Duty-cycle percent gained per degree above `MIN_TEMP`. */
  function Gain(c: Settings): (g: real)
    requires c.maxTemp != c.minTemp
    ensures g * (c.maxTemp - c.minTemp) as real == (c.fanHigh - c.fanLow) as real
  {
    (c.fanHigh - c.fanLow) as real / (c.maxTemp - c.minTemp) as real
  }

  /** Degrees above `MIN_TEMP`, rounded, and saturated at 100. */
  function Percent(c: Settings, temperature: real): (p: int)
    ensures p <= 100
    ensures temperature > c.minTemp as real ==> p >= 0
    ensures p < 100 ==> IsRounding(temperature - c.minTemp as real, p)
    ensures p == 100 <==> temperature - c.minTemp as real >= 99.5
  {
    var above := Round(temperature - c.minTemp as real);
    if above < 100 then above else 100
  }

  /** The speed on the ramp above `MIN_TEMP`, before rounding. */
  function RampValue(c: Settings, temperature: real): real
    requires c.maxTemp != c.minTemp
  {
    c.fanLow as real + Percent(c, temperature) as real * Gain(c)
  }

  /** The speed on the ramp above `MIN_TEMP`. */
  function RampSpeed(c: Settings, temperature: real): (speed: int)
    requires c.maxTemp != c.minTemp
    ensures IsRounding(RampValue(c, temperature), speed)
  {
    Round(RampValue(c, temperature))
  }

  function Emit(oldSpeed: Option<int>, speed: Option<int>): Tick
  {
    Tick(speed, speed != oldSpeed)
  }

  /**
   * One call of `handleFanSpeed(fan, old_speed, temperature)`. Above
   * `MIN_TEMP` the speed follows the ramp, below `OFF_TEMP` it is `FAN_OFF`,
   * and in between it holds. The division in the ramp fails when
   * `MAX_TEMP == MIN_TEMP`.
   */
  function HandleFanSpeed(c: Settings, oldSpeed: Option<int>, temperature: real): (r: Result<Tick, StepError>)
    ensures r.Err? <==> temperature > c.minTemp as real && c.maxTemp == c.minTemp
    ensures r.Ok? ==> (r.value.emitted <==> r.value.speed != oldSpeed)
    ensures r.Ok? && r.value.emitted ==> r.value.speed.Some?
    ensures r.Ok? && r.value.speed.None? ==> oldSpeed.None?
  {
    if temperature > c.minTemp as real then
      if c.maxTemp == c.minTemp then Err(ZeroDivisionError)
      else Ok(Emit(oldSpeed, Some(RampSpeed(c, temperature))))
    else if temperature < c.offTemp as real then
      Ok(Emit(oldSpeed, Some(c.fanOff)))
    else
      Ok(Emit(oldSpeed, oldSpeed))
  }

  /** Below `OFF_TEMP` (and not above `MIN_TEMP`) the fan is set to `FAN_OFF`, whatever it was. */
  lemma OffZone(c: Settings, oldSpeed: Option<int>, temperature: real)
    requires temperature < c.offTemp as real && temperature <= c.minTemp as real
    ensures HandleFanSpeed(c, oldSpeed, temperature).Ok?
    ensures HandleFanSpeed(c, oldSpeed, temperature).value.speed == Some(c.fanOff)
  {
  }

  /** In the dead band from `OFF_TEMP` to `MIN_TEMP` the speed holds and nothing is sent. */
  lemma DeadBand(c: Settings, oldSpeed: Option<int>, temperature: real)
    requires c.offTemp as real <= temperature <= c.minTemp as real
    ensures HandleFanSpeed(c, oldSpeed, temperature) == Ok(Tick(oldSpeed, false))
  {
  }

  /**
   * With a rising ramp, the speed above `MIN_TEMP` lies between `FAN_LOW` and
   * the speed at 100 degrees above `MIN_TEMP`; it is not bounded by `FAN_HIGH`.
   */
  lemma RampBounds(c: Settings, temperature: real)
    requires c.minTemp < c.maxTemp && c.fanLow <= c.fanHigh
    requires temperature > c.minTemp as real
    ensures c.fanLow <= RampSpeed(c, temperature) <= Round(c.fanLow as real + 100.0 * Gain(c))
  {
    RampValueBounds(c, temperature);
    RoundInt(c.fanLow);
    RoundMonotone(c.fanLow as real, RampValue(c, temperature));
    RoundMonotone(RampValue(c, temperature), c.fanLow as real + 100.0 * Gain(c));
  }

  lemma RampValueBounds(c: Settings, temperature: real)
    requires c.minTemp < c.maxTemp && c.fanLow <= c.fanHigh
    requires temperature > c.minTemp as real
    ensures c.fanLow as real <= RampValue(c, temperature) <= c.fanLow as real + 100.0 * Gain(c)
  {
    var p, g := Percent(c, temperature), Gain(c);
    assert RampValue(c, temperature) == c.fanLow as real + p as real * g;
    assert 0.0 <= p as real * g by {
      ScaledMonotone(c, 0, p);
      assert (0 as real) * g == 0.0;
    }
    assert p as real * g <= 100.0 * g by {
      ScaledMonotone(c, p, 100);
      assert (100 as real) * g == 100.0 * g;
    }
    assert c.fanLow as real <= c.fanLow as real + p as real * g <= c.fanLow as real + 100.0 * g;
  }

  /** A ramp that rises from `FAN_LOW` to `FAN_HIGH` has a non-negative gain. */
  lemma GainNonNegative(c: Settings)
    requires c.minTemp < c.maxTemp && c.fanLow <= c.fanHigh
    ensures Gain(c) >= 0.0
  {
    var n, d := (c.fanHigh - c.fanLow) as real, (c.maxTemp - c.minTemp) as real;
    assert Gain(c) * d == n;
  }

  lemma ScaleMonotone(a: real, b: real, g: real)
    requires a <= b && 0.0 <= g
    ensures a * g <= b * g
  {
    assert b * g - a * g == (b - a) * g;
  }

  /** With a rising ramp, a hotter reading above `MIN_TEMP` never gives a lower speed. */
  lemma RampMonotone(c: Settings, t1: real, t2: real)
    requires c.minTemp < c.maxTemp && c.fanLow <= c.fanHigh
    requires c.minTemp as real < t1 <= t2
    ensures RampSpeed(c, t1) <= RampSpeed(c, t2)
  {
    RampValueMonotone(c, t1, t2);
    RoundMonotone(RampValue(c, t1), RampValue(c, t2));
  }

  lemma RampValueMonotone(c: Settings, t1: real, t2: real)
    requires c.minTemp < c.maxTemp && c.fanLow <= c.fanHigh
    requires t1 <= t2
    ensures RampValue(c, t1) <= RampValue(c, t2)
  {
    PercentMonotone(c, t1, t2);
    ScaledMonotone(c, Percent(c, t1), Percent(c, t2));
  }

  /** On a rising ramp, more degrees above `MIN_TEMP` never add less speed. */
  lemma ScaledMonotone(c: Settings, p1: int, p2: int)
    requires c.minTemp < c.maxTemp && c.fanLow <= c.fanHigh
    requires p1 <= p2
    ensures p1 as real * Gain(c) <= p2 as real * Gain(c)
  {
    GainNonNegative(c);
    ScaleMonotone(p1 as real, p2 as real, Gain(c));
  }

  lemma PercentMonotone(c: Settings, t1: real, t2: real)
    requires t1 <= t2
    ensures Percent(c, t1) <= Percent(c, t2)
  {
    RoundMonotone(t1 - c.minTemp as real, t2 - c.minTemp as real);
  }

  /** Just above `MIN_TEMP`, up to half a degree, the speed is exactly `FAN_LOW`. */
  lemma RampStart(c: Settings, temperature: real)
    requires c.maxTemp != c.minTemp
    requires c.minTemp as real < temperature <= c.minTemp as real + 0.5
    ensures RampSpeed(c, temperature) == c.fanLow
  {
    RoundSmall(temperature - c.minTemp as real);
    RoundInt(c.fanLow);
  }

  /** At `MAX_TEMP` the speed is exactly `FAN_HIGH`, when the ramp is at most 100 degrees wide. */
  lemma RampEnd(c: Settings)
    requires c.minTemp < c.maxTemp <= c.minTemp + 100
    ensures RampSpeed(c, c.maxTemp as real) == c.fanHigh
  {
    var w := c.maxTemp - c.minTemp;
    assert c.maxTemp as real - c.minTemp as real == w as real;
    RoundInt(w);
    assert Percent(c, c.maxTemp as real) == w;
    assert w as real * Gain(c) == (c.fanHigh - c.fanLow) as real;
    assert RampValue(c, c.maxTemp as real) == c.fanHigh as real;
    RoundInt(c.fanHigh);
  }

  /** The output is not clamped: with the default settings a reading of 80 °C asks for 140 percent. */
  lemma DefaultsAt80()
    ensures HandleFanSpeed(Defaults, None, 80.0) == Ok(Tick(Some(140), true))
  {
    RoundInt(35);
    assert Percent(Defaults, 80.0) == 35;
    assert Gain(Defaults) == 3.96;
    assert RampSpeed(Defaults, 80.0) == Round(139.6);
  }

  /** Above `MIN_TEMP`, with a ramp of non-zero width, the controller asks for the ramp speed. */
  lemma HandleOnRamp(c: Settings, oldSpeed: Option<int>, temperature: real)
    requires temperature > c.minTemp as real && c.maxTemp != c.minTemp
    ensures HandleFanSpeed(c, oldSpeed, temperature) == Ok(Emit(oldSpeed, Some(RampSpeed(c, temperature))))
  {
  }

  /** On a rising ramp, a hotter reading above `MIN_TEMP` never makes `handleFanSpeed` choose a lower speed. */
  lemma HandleMonotone(c: Settings, o1: Option<int>, o2: Option<int>, t1: real, t2: real)
    requires c.minTemp < c.maxTemp && c.fanLow <= c.fanHigh
    requires c.minTemp as real < t1 <= t2
    ensures HandleFanSpeed(c, o1, t1).value.speed.value <= HandleFanSpeed(c, o2, t2).value.speed.value
  {
    RampMonotone(c, t1, t2);
  }

  /** The default settings make a rising ramp 25 degrees wide, so it ends at `FAN_HIGH` at `MAX_TEMP`. */
  lemma DefaultsRamp()
    ensures Defaults.offTemp <= Defaults.minTemp < Defaults.maxTemp <= Defaults.minTemp + 100
    ensures Defaults.fanLow <= Defaults.fanHigh
    ensures HandleFanSpeed(Defaults, None, Defaults.maxTemp as real) == Ok(Tick(Some(Defaults.fanHigh), true))
  {
    RampEnd(Defaults);
  }

  /** Once a reading has been handled, handling it again from the returned speed changes and sends nothing. */
  lemma Settled(c: Settings, oldSpeed: Option<int>, temperature: real)
    requires HandleFanSpeed(c, oldSpeed, temperature).Ok?
    ensures var speed := HandleFanSpeed(c, oldSpeed, temperature).value.speed;
      HandleFanSpeed(c, speed, temperature) == Ok(Tick(speed, false))
  {
  }

  /**
   * On the first tick, from `speed = None`, a command is sent exactly when the
   * reading is outside the dead band; inside it the state stays `None`.
   */
  lemma FirstTick(c: Settings, temperature: real)
    requires HandleFanSpeed(c, None, temperature).Ok?
    ensures var tick := HandleFanSpeed(c, None, temperature).value;
      && (tick.emitted <==> temperature > c.minTemp as real || temperature < c.offTemp as real)
      && (!tick.emitted ==> tick.speed == None)
  {
  }

  /** The state after a run of ticks and the duty cycles passed to `fan.start`, in order. */
  datatype Trace = Trace(speed: Option<int>, commands: seq<int>)

  /** The sampling loop of `main` over a finite list of readings; an exception ends it. */
  function Run(c: Settings, speed: Option<int>, temperatures: seq<real>): (r: Result<Trace, StepError>)
    ensures r.Ok? ==> |r.value.commands| <= |temperatures|
    ensures r.Ok? && r.value.commands == [] ==> r.value.speed == speed
    decreases |temperatures|
  {
    if temperatures == [] then Ok(Trace(speed, []))
    else match HandleFanSpeed(c, speed, temperatures[0])
      case Err(e) => Err(e)
      case Ok(tick) =>
        match Run(c, tick.speed, temperatures[1..])
        case Err(e) => Err(e)
        case Ok(rest) =>
          var sent := if tick.emitted then [tick.speed.value] else [];
          Ok(Trace(rest.speed, sent + rest.commands))
  }

  /** A steady reading, after its first tick, sends no further command however long it lasts. */
  lemma {:induction false} RunSteady(c: Settings, oldSpeed: Option<int>, temperature: real, temperatures: seq<real>)
    requires HandleFanSpeed(c, oldSpeed, temperature).Ok?
    requires forall i :: 0 <= i < |temperatures| ==> temperatures[i] == temperature
    ensures var speed := HandleFanSpeed(c, oldSpeed, temperature).value.speed;
      Run(c, speed, temperatures) == Ok(Trace(speed, []))
    decreases |temperatures|
  {
    var speed := HandleFanSpeed(c, oldSpeed, temperature).value.speed;
    Settled(c, oldSpeed, temperature);
    if temperatures != [] {
      var rest := temperatures[1..];
      RunSteady(c, oldSpeed, temperature, rest);
      assert HandleFanSpeed(c, speed, temperatures[0]) == Ok(Tick(speed, false));
      var none: seq<int> := [];
      assert none + [] == [];
      assert Run(c, speed, temperatures) == Ok(Trace(speed, none + []));
    }
  }

  /**
   * The fan always runs at the speed the controller holds: the final speed is the
   * last duty cycle sent (or the initial one if none was sent), and every
   * command differs from the speed in force before it.
   */
  lemma {:induction false} RunCommandsTrackSpeed(c: Settings, speed: Option<int>, temperatures: seq<real>)
    requires Run(c, speed, temperatures).Ok?
    ensures var tr := Run(c, speed, temperatures).value;
      && tr.speed == (if tr.commands == [] then speed else Some(tr.commands[|tr.commands| - 1]))
      && (tr.commands != [] && speed.Some? ==> tr.commands[0] != speed.value)
      && (forall i :: 0 <= i < |tr.commands| - 1 ==> tr.commands[i] != tr.commands[i + 1])
    decreases |temperatures|
  {
    if temperatures != [] {
      var tick := HandleFanSpeed(c, speed, temperatures[0]).value;
      RunCommandsTrackSpeed(c, tick.speed, temperatures[1..]);
    }
  }
}
