/**
 * The staged controller: each stage has a pin, an on-threshold and an
 * off-threshold; the level is the number of the stage whose pin is high, and
 * `handleFanSpeed` moves it with hysteresis.
 */
module DiscreteControl {

  /** The stage tables `FAN_PINS`, `ON_TEMP` and `OFF_TEMP`, index by index. */
  datatype Stages = Stages(pins: seq<int>, onTemp: seq<int>, offTemp: seq<int>)
  {
    /** The three tables describe the same stages. */
    predicate WellFormed()
    {
      |onTemp| == |pins| && |offTemp| == |pins|
    }
  }

  /** The tables as the source configures them: one stage on BCM pin 18, on above 43 °C, off below 40 °C. */
  const Single: Stages := Stages([18], [43], [40])

  /**
   * `next((i for i, t in enumerate(ts) if t > temp), none)`, searching from
   * index `from`: the first index whose threshold exceeds the reading, or
   * `none` when there is no such index.
   */
  function FirstAboveFrom(ts: seq<int>, temp: real, none: nat, from: nat): (i: nat)
    requires from <= |ts|
    ensures || (from <= i < |ts| && ts[i] as real > temp
                && forall j :: from <= j < i ==> ts[j] as real <= temp)
            || (i == none && forall j :: from <= j < |ts| ==> ts[j] as real <= temp)
    decreases |ts| - from
  {
    if from == |ts| then none
    else if ts[from] as real > temp then from
    else FirstAboveFrom(ts, temp, none, from + 1)
  }

  function FirstAbove(ts: seq<int>, temp: real, none: nat): nat
  {
    FirstAboveFrom(ts, temp, none, 0)
  }

  /** `on`: the lowest level not yet triggered by the reading. */
  function On(st: Stages, temp: real): (on: nat)
    ensures || (on < |st.onTemp| && st.onTemp[on] as real > temp
                && forall j :: 0 <= j < on ==> st.onTemp[j] as real <= temp)
            || (on == |st.pins| && forall j :: 0 <= j < |st.onTemp| ==> st.onTemp[j] as real <= temp)
  {
    FirstAbove(st.onTemp, temp, |st.pins|)
  }

  /** `off`: the lowest level the reading no longer sustains. */
  function Off(st: Stages, temp: real): (off: nat)
    ensures || (off < |st.offTemp| && st.offTemp[off] as real > temp
                && forall j :: 0 <= j < off ==> st.offTemp[j] as real <= temp)
            || (off == |st.pins| && forall j :: 0 <= j < |st.offTemp| ==> st.offTemp[j] as real <= temp)
  {
    FirstAbove(st.offTemp, temp, |st.pins|)
  }

  /** The level `handleFanSpeed(cur_level, temp)` returns. */
  function NextLevel(st: Stages, cur: int, temp: real): (next: int)
    ensures next > cur ==> next == On(st, temp)
    ensures next < cur ==> next == Off(st, temp) && On(st, temp) <= cur
    ensures next == cur ==> On(st, temp) <= cur <= Off(st, temp)
  {
    var on := On(st, temp);
    var off := Off(st, temp);
    if on > cur then on
    else if off < cur then off
    else cur
  }

  /** `on` and `off` are levels: between 0 and the number of stages. */
  lemma OnOffRange(st: Stages, temp: real)
    requires st.WellFormed()
    ensures On(st, temp) <= |st.pins| && Off(st, temp) <= |st.pins|
  {
  }

  /** A level between 0 and the number of stages stays in that range. */
  lemma NextLevelRange(st: Stages, cur: int, temp: real)
    requires st.WellFormed() && 0 <= cur <= |st.pins|
    ensures 0 <= NextLevel(st, cur, temp) <= |st.pins|
  {
    OnOffRange(st, temp);
  }

  /**
   * The level rises exactly when `on` is above it, and then to `on`;
   * otherwise it falls to `off` or holds, whichever is lower.
   */
  lemma NextLevelMoves(st: Stages, cur: int, temp: real)
    ensures NextLevel(st, cur, temp) > cur <==> On(st, temp) > cur
    ensures NextLevel(st, cur, temp) > cur ==> NextLevel(st, cur, temp) == On(st, temp)
    ensures NextLevel(st, cur, temp) <= cur ==>
      NextLevel(st, cur, temp) == (if Off(st, temp) < cur then Off(st, temp) else cur)
  {
  }

  /** Every stage switches off no higher than it switches on. */
  predicate Hysteretic(st: Stages)
    requires st.WellFormed()
  {
    forall i :: 0 <= i < |st.pins| ==> st.offTemp[i] <= st.onTemp[i]
  }

  /** With hysteretic stages, `on` never exceeds `off`. */
  lemma OnAtMostOff(st: Stages, temp: real)
    requires st.WellFormed() && Hysteretic(st)
    ensures On(st, temp) <= Off(st, temp)
  {
  }

  /** With hysteretic stages, handling the same reading again from the returned level changes nothing. */
  lemma NextLevelSettles(st: Stages, cur: int, temp: real)
    requires st.WellFormed() && Hysteretic(st)
    ensures NextLevel(st, NextLevel(st, cur, temp), temp) == NextLevel(st, cur, temp)
  {
    OnAtMostOff(st, temp);
  }

  /**
   * With hysteretic stages, when the reading has reached the on-threshold of
   * each of the first `k` stages, the new level is at least `k`.
   */
  lemma NextLevelReaches(st: Stages, cur: int, temp: real, k: nat)
    requires st.WellFormed() && Hysteretic(st)
    requires k <= |st.pins|
    requires forall j :: 0 <= j < k ==> st.onTemp[j] as real <= temp
    ensures NextLevel(st, cur, temp) >= k
  {
    OnAtMostOff(st, temp);
  }

  /**
   * With off-thresholds that rise from stage to stage, a level that is on
   * stays on (or rises) while the reading has not dropped below the
   * off-threshold of its stage.
   */
  lemma NextLevelHolds(st: Stages, cur: int, temp: real)
    requires st.WellFormed()
    requires forall i, j :: 0 <= i <= j < |st.pins| ==> st.offTemp[i] <= st.offTemp[j]
    requires 1 <= cur <= |st.pins| && st.offTemp[cur - 1] as real <= temp
    ensures NextLevel(st, cur, temp) >= cur
  {
  }

  /** Below the first stage's off-threshold (and its on-threshold) every level drops to 0. */
  lemma NextLevelAllOff(st: Stages, cur: int, temp: real)
    requires st.WellFormed() && |st.pins| > 0 && 0 <= cur
    requires temp < st.offTemp[0] as real && temp < st.onTemp[0] as real
    ensures NextLevel(st, cur, temp) == 0
  {
  }

  /**
   * The configured single stage: on at 43 °C and above (the test is strict),
   * held in the band from 40 °C to 43 °C, off below 40 °C.
   */
  lemma SingleStageTrace()
    ensures NextLevel(Single, 0, 44.0) == 1
    ensures NextLevel(Single, 0, 43.0) == 1
    ensures NextLevel(Single, 0, 41.0) == 0
    ensures NextLevel(Single, 1, 41.0) == 1
    ensures NextLevel(Single, 1, 40.0) == 1
    ensures NextLevel(Single, 1, 39.0) == 0
  {
  }

  /** Pins where only the one for `level` is high: stage `level - 1`, or none at level 0. */
  function OneHot(n: nat, level: int): seq<bool>
  {
    seq(n, i => i == level - 1)
  }

  /**
   * The pin writes of one call: when the level changes, the old level's pin
   * goes low and the new level's pin goes high; no other pin is written.
   */
  function Switched(s: seq<bool>, cur: int, next: int): (r: seq<bool>)
    requires 0 <= cur <= |s| && 0 <= next <= |s|
    ensures |r| == |s|
    ensures cur == next ==> r == s
    ensures forall i :: 0 <= i < |s| && i != cur - 1 && i != next - 1 ==> r[i] == s[i]
    ensures cur != next && cur != 0 ==> !r[cur - 1]
    ensures cur != next && next != 0 ==> r[next - 1]
  {
    if cur == next then s
    else
      var lowered := if cur != 0 then s[cur - 1 := false] else s;
      if next != 0 then lowered[next - 1 := true] else lowered
  }

  /** Switching from one level to another keeps exactly the new level's pin high. */
  lemma SwitchedOneHot(n: nat, cur: int, next: int)
    requires 0 <= cur <= n && 0 <= next <= n
    ensures Switched(OneHot(n, cur), cur, next) == OneHot(n, next)
  {
    var r := Switched(OneHot(n, cur), cur, next);
    assert forall i :: 0 <= i < n ==> r[i] == OneHot(n, next)[i];
  }

  /**
   * `handleFanSpeed(cur_level, temp)` with the pins as an array indexed by
   * stage (`true` for high): the new level, and the pins written in place.
   */
  method HandleFanSpeed(st: Stages, pins: array<bool>, cur: int, temp: real) returns (next: int)
    requires st.WellFormed() && pins.Length == |st.pins| && 0 <= cur <= |st.pins|
    modifies pins
    ensures next == NextLevel(st, cur, temp) && 0 <= next <= |st.pins|
    ensures pins[..] == Switched(old(pins[..]), cur, next)
  {
    NextLevelRange(st, cur, temp);
    var on := FirstAbove(st.onTemp, temp, |st.pins|);
    var off := FirstAbove(st.offTemp, temp, |st.pins|);
    if on > cur {
      next := on;
    } else {
      next := if off < cur then off else cur;
    }
    if cur != next {
      if cur != 0 {
        pins[cur - 1] := false;
      }
      if next != 0 {
        pins[next - 1] := true;
      }
    }
  }

  /** The level after handling each reading in turn. */
  function FinalLevel(st: Stages, level: int, temps: seq<real>): int
  {
    if temps == [] then level
    else NextLevel(st, FinalLevel(st, level, temps[..|temps| - 1]), temps[|temps| - 1])
  }

  /**
   * The sampling loop of `main` over a finite list of readings: all pins are
   * set up low at level 0, then each reading is handled in turn. Afterwards
   * exactly the pin of the final level is high, and all pins are low at level 0.
   */
  method Run(st: Stages, temps: seq<real>) returns (level: int, pins: array<bool>)
    requires st.WellFormed()
    ensures level == FinalLevel(st, 0, temps) && 0 <= level <= |st.pins|
    ensures pins.Length == |st.pins|
    ensures forall i :: 0 <= i < pins.Length ==> (pins[i] <==> i == level - 1)
  {
    pins := new bool[|st.pins|](_ => false);
    level := 0;
    assert pins[..] == OneHot(|st.pins|, 0);
    for k := 0 to |temps|
      invariant pins.Length == |st.pins|
      invariant 0 <= level <= |st.pins|
      invariant level == FinalLevel(st, 0, temps[..k])
      invariant pins[..] == OneHot(|st.pins|, level)
    {
      assert temps[..k + 1][..k] == temps[..k];
      SwitchedOneHot(|st.pins|, level, NextLevel(st, level, temps[k]));
      NextLevelRange(st, level, temps[k]);
      level := HandleFanSpeed(st, pins, level, temps[k]);
    }
    assert temps[..|temps|] == temps;
    assert forall i :: 0 <= i < pins.Length ==> pins[i] == pins[..][i];
  }
}
