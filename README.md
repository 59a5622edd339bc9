# PiFanControl in Dafny

A model of the two fan controllers of PiFanControl, a Raspberry Pi cooling-fan
daemon, and of the settings loader they share.

- **Continuous controller** (`fan_control.py`). `handleFanSpeed` maps a CPU
  temperature and the previous PWM duty cycle to a new duty cycle. It works in
  three zones:
  - above `MIN_TEMP`, a linear ramp from `FAN_LOW` towards `FAN_HIGH`, whose
    input (degrees above `MIN_TEMP`) is capped at 100;
  - below `OFF_TEMP`, `FAN_OFF`;
  - in between, the previous value is held (the hysteresis dead band).

  `fan.start` is called only when the value changes. The model is
  `ContinuousControl.HandleFanSpeed`, a function. It takes the settings as a
  `Settings` record and the previous speed as `Option<int>` (`main` starts from
  `None`). It returns the new speed and an `emitted` flag in place of the
  `fan.start` call. Temperatures are exact `real`s. Python's `round` is
  `Rounding.Round`, round-half-to-even over the reals.
- **Settings loader** (`config.load`). Ten upper-case integer settings, each
  with a default. They are overwritten in place from the `(key, value)` pairs
  of the `[fan_control]` section of a configuration file:
  - keys are upper-cased before matching;
  - unknown names and non-integer values are skipped;
  - a missing file or section changes nothing.

  The model is the class `FanConfig.Config`. Its fields are the settings, and
  its `Load` method loops over the pairs. `Load` is specified by the function
  `LoadResult`, and the lemmas about `LoadResult` state the overwrite
  semantics. Python's `int()` is `PyText.ParseInt`, a signed-decimal parser
  that accepts surrounding white space and underscores between digits. It is
  paired with a printer, `PyText.Show`, and a round-trip proof.
- **Staged controller** (`fan_control_discrete.py`). Each stage has a pin, an
  on-threshold and an off-threshold. `handleFanSpeed` works in three steps:
  - it finds `on`, the first stage whose on-threshold exceeds the reading;
  - it finds `off`, the first stage whose off-threshold does;
  - it raises the level to `on`, or lowers it to `off`, with hysteresis.

  It then drives the old level's pin low and the new level's pin high. The
  choice of level is the pure function `DiscreteControl.NextLevel`. The pin
  writes are the method `DiscreteControl.HandleFanSpeed`, which updates an
  `array<bool>` indexed by stage in place. `DiscreteControl.Run` models the
  sampling loop of `main` over a finite list of readings. It proves that
  exactly one pin, the current level's, is high at any time, and none at
  level 0.

Three behaviours of the code worth stating explicitly:
- `load` performs no cross-field validation. A `MIN_TEMP` at or above
  `MAX_TEMP` is stored as given (`FanConfig.LoadNoValidation`).
- The continuous ramp has no output clamp. With the default settings, 80 °C
  gives a duty cycle of 140 (`ContinuousControl.DefaultsAt80`). The constant
  `FAN_MAX` is loaded but never used.
- The stage pins are one-hot, not cumulative. A jump of several levels in one
  tick therefore leaves no stale pin behind (`DiscreteControl.Run`).

## Model

| member | source | states |
|---|---|---|
| `Rounding.Round` | fan_control.py:61-62 | the result is within one half of the argument, and on a tie it is even: Python 3's `round` |
| `PyText.Upper` | fan_control.py:37 | same length; each lower-case ASCII letter becomes its capital; every other character is kept |
| `PyText.UpperIdempotent` | fan_control.py:37 | upper-casing an upper-cased name changes nothing |
| `PyText.ParseInt` | fan_control.py:42 | an accepted value, once stripped of white space, is an optional sign followed by digits and underscores and ends in a digit, with every underscore between two digits (so `"1__0"`, `"-_1"` and `"_1"` are refused); a negative result comes only from a leading `-` |
| `PyText.ParseShow` | fan_control.py:42 | `int(str(n)) == n` for every integer: the parser reads back each integer in the decimal form `str` prints |
| `PyText.ParseUnderscore` | fan_control.py:42 | `int("1_000")` is 1000: underscores between digits are accepted |
| `PyText.TrimStart` | fan_control.py:42 | the result is a suffix of the text, everything dropped is white space, and it does not start with white space |
| `PyText.TrimEnd` | fan_control.py:42 | the result is a prefix of the text, everything dropped is white space, and it does not end with white space |
| `PyText.StripPadded` | fan_control.py:42 | white space of any length on either side of text with none at its ends is removed, and nothing else |
| `PyText.TrimStartPrefix` | fan_control.py:42 | leading white space before text that does not start with it is exactly what is removed at the front |
| `PyText.TrimEndSuffix` | fan_control.py:42 | trailing white space after text that does not end with it is exactly what is removed at the back |
| `PyText.ParseDigits` | fan_control.py:42 | a digit group (digits, single underscores between digits) is read as the number it denotes |
| `PyText.ParseSignedDigits` | fan_control.py:42 | a `-` or `+` before a digit group gives that number negated or as it is |
| `PyText.SignedStripped` | fan_control.py:42 | on text already stripped, a `-` or `+` before a digit group gives that number negated or as it is |
| `PyText.ParsePadded` | fan_control.py:42 | any white space before and after a digit group, on either side or both, does not change the number read |
| `PyText.ParseSignedPadded` | fan_control.py:42 | a signed digit group with any white space before and after it, as in `"  -5 "`, is read as the signed number |
| `PyText.ParseRejectsForeign` | fan_control.py:41-46 | a value holding any character other than white space, a digit, `_`, `+` or `-` (`"4.5"`, `"0x10"`, `"on"`) is not an integer, so `load` skips it |
| `PyText.ParseRejectsBlank` | fan_control.py:41-46 | an empty or all-white-space value is not an integer, so `load` skips it |
| `FanConfig.NamesUpper` | fan_control.py:35-38 | every setting name is its own upper-case form, so a key in any letter case reaches it |
| `FanConfig.Settings.With` | fan_control.py:47 | `setattr` changes the named setting to the new value and leaves every other setting as it was |
| `FanConfig.Config.constructor` | fan_control.py:10-21 | a fresh `config` holds the default values (pin 18, wait 1 s, 25 Hz, 40/45/70 °C, speeds 1/100/0/100) |
| `FanConfig.Config.SetAttr` | fan_control.py:47 | the fields afterwards are the old snapshot with only the named setting replaced |
| `FanConfig.Config.Load` | fan_control.py:23-47 | after the loop the fields equal `LoadResult` of the old fields and the file: a partial overwrite in section order |
| `FanConfig.ApplyItem` | fan_control.py:37-47 | after one pair, a setting has the pair's integer value when the pair's upper-cased key names it and the value parses, and its prior value otherwise |
| `FanConfig.ApplyItems` | fan_control.py:36-47 | after the loop over a section's pairs, no value is invented: each setting keeps its prior value or has the value some pair sets it to |
| `FanConfig.LoadResult` | fan_control.py:23-47 | after `load`, each setting keeps its prior value or has the value some pair of the `[fan_control]` section sets it to |
| `FanConfig.ApplyItemsKeeps` | fan_control.py:36-47 | a setting that no pair of the section sets (an unknown key, a non-integer value, another name) keeps its prior value |
| `FanConfig.ApplyItemsLastWins` | fan_control.py:36-47 | a setting ends with the value of the last pair whose upper-cased key names it and whose value is an integer |
| `FanConfig.ApplyItemsSkips` | fan_control.py:38-46 | a section whose pairs are all unknown names or non-integers leaves every setting unchanged |
| `FanConfig.LoadMissing` | fan_control.py:25-34 | a missing file, or a file without `[fan_control]`, leaves every setting unchanged |
| `FanConfig.LoadSingle` | fan_control.py:36-47 | a section with a single pair applies exactly that pair |
| `FanConfig.LoadNoValidation` | fan_control.py:35-47 | a lower-case `min_temp` with any integer value is stored as given, even at or above `MAX_TEMP`, and nothing else changes |
| `ContinuousControl.Gain` | fan_control.py:60 | the gain times the ramp width (`MAX_TEMP - MIN_TEMP`) is the speed rise (`FAN_HIGH - FAN_LOW`) |
| `ContinuousControl.Percent` | fan_control.py:61 | the ramp input is `min(100, round(T - MIN_TEMP))`: below 100 it is the half-to-even rounding of the degrees above `MIN_TEMP`, and it is 100 exactly when those degrees are at least 99.5; non-negative above `MIN_TEMP` |
| `ContinuousControl.RampSpeed` | fan_control.py:62 | the ramp speed is `round(FAN_LOW + percent * gain)`: the nearest integer, ties to the even one |
| `ContinuousControl.HandleFanSpeed` | fan_control.py:58-74 | it fails (division by zero) exactly when the reading is above `MIN_TEMP` and `MAX_TEMP == MIN_TEMP`; otherwise a command is emitted iff the new speed differs from the old; an emitted speed is a number; `None` survives only from `None` |
| `ContinuousControl.OffZone` | fan_control.py:59-65 | not above `MIN_TEMP` and below `OFF_TEMP`, the speed is `FAN_OFF` whatever it was |
| `ContinuousControl.DeadBand` | fan_control.py:67-70 | from `OFF_TEMP` to `MIN_TEMP` the old speed is returned and nothing is sent |
| `ContinuousControl.HandleOnRamp` | fan_control.py:59-62 | above `MIN_TEMP`, with `MAX_TEMP != MIN_TEMP`, `handleFanSpeed` asks for the ramp speed, sending it iff it differs from the old one |
| `ContinuousControl.HandleMonotone` | fan_control.py:59-62 | on a rising ramp, whatever the previous speeds, a hotter reading above `MIN_TEMP` never makes `handleFanSpeed` choose a lower speed |
| `ContinuousControl.GainNonNegative` | fan_control.py:60 | with `FAN_HIGH >= FAN_LOW` and `MAX_TEMP > MIN_TEMP` the gain is not negative |
| `ContinuousControl.RampBounds` | fan_control.py:59-62 | on a rising ramp the speed lies between `FAN_LOW` and `round(FAN_LOW + 100 * gain)`, not bounded by `FAN_HIGH` |
| `ContinuousControl.RampMonotone` | fan_control.py:59-62 | on a rising ramp, a hotter reading above `MIN_TEMP` never gives a lower speed |
| `ContinuousControl.RampStart` | fan_control.py:61-62 | for readings in (`MIN_TEMP`, `MIN_TEMP + 0.5`] the speed is exactly `FAN_LOW` |
| `ContinuousControl.RampEnd` | fan_control.py:60-62 | at `MAX_TEMP` the speed is exactly `FAN_HIGH` when `MIN_TEMP < MAX_TEMP <= MIN_TEMP + 100` |
| `ContinuousControl.DefaultsRamp` | fan_control.py:15-19 | the defaults satisfy `OFF_TEMP <= MIN_TEMP < MAX_TEMP <= MIN_TEMP + 100` and `FAN_LOW <= FAN_HIGH`, and from `None` a reading of `MAX_TEMP` sends exactly `FAN_HIGH` |
| `ContinuousControl.DefaultsAt80` | fan_control.py:15-19 | with the defaults, 80 °C from `None` sends a duty cycle of 140: the output is not clamped |
| `ContinuousControl.Settled` | fan_control.py:70-74 | handling the same reading again from the returned speed returns that speed and sends nothing |
| `ContinuousControl.FirstTick` | fan_control.py:86 | from the initial `None` a command is sent iff the reading is outside the dead band; inside it the state stays `None` |
| `ContinuousControl.Run` | fan_control.py:86-89 | over a run, at most one command is sent per reading, and a run that sends nothing ends in the state it started in |
| `ContinuousControl.RunSteady` | fan_control.py:86-89 | in the sampling loop, a steady reading sends no command after its first tick, however many ticks follow |
| `ContinuousControl.RunCommandsTrackSpeed` | fan_control.py:70-74 | over any run, the state is the last duty cycle sent (or the initial state if none was sent), and each command differs from the speed in force before it |
| `DiscreteControl.FirstAboveFrom` | fan_control_discrete.py:22-23 | the least index whose threshold exceeds the reading, with all earlier thresholds at or below it; or the default when there is none |
| `DiscreteControl.On` | fan_control_discrete.py:22 | `on` is the first stage whose on-threshold exceeds the reading, all earlier ones being at or below it, or the number of stages when there is none |
| `DiscreteControl.Off` | fan_control_discrete.py:23 | `off` is the first stage whose off-threshold exceeds the reading, all earlier ones being at or below it, or the number of stages when there is none |
| `DiscreteControl.NextLevel` | fan_control_discrete.py:22-27 | a rise goes to exactly `on`; a fall goes to exactly `off`, and only when `on` is not above the level; a hold means `on <= cur_level <= off` |
| `DiscreteControl.OnOffRange` | fan_control_discrete.py:22-23 | `on` and `off` are between 0 and the number of stages |
| `DiscreteControl.NextLevelRange` | fan_control_discrete.py:22-27 | a level in 0..N stays in 0..N |
| `DiscreteControl.NextLevelMoves` | fan_control_discrete.py:24-27 | the level rises iff `on` is above it, and then to exactly `on`; otherwise it becomes `min(off, cur_level)` |
| `DiscreteControl.OnAtMostOff` | fan_control_discrete.py:22-23 | when every off-threshold is at most its on-threshold, `on <= off` |
| `DiscreteControl.NextLevelSettles` | fan_control_discrete.py:22-27 | with such thresholds, handling the same reading again from the returned level returns the same level |
| `DiscreteControl.NextLevelReaches` | fan_control_discrete.py:22-27 | with such thresholds, a reading at or above the on-thresholds of the first k stages gives a level of at least k |
| `DiscreteControl.NextLevelHolds` | fan_control_discrete.py:23-27 | with rising off-thresholds, a level stays on while the reading is not below its stage's off-threshold |
| `DiscreteControl.NextLevelAllOff` | fan_control_discrete.py:22-27 | below the first stage's off- and on-thresholds every level drops to 0 |
| `DiscreteControl.SingleStageTrace` | fan_control_discrete.py:9-10 | with ON=43 and OFF=40, level 0 rises to 1 at 44 and at 43, and stays 0 at 41; level 1 stays 1 at 41 and at 40, and drops to 0 at 39 |
| `DiscreteControl.Switched` | fan_control_discrete.py:29-33 | when the level changes, the old level's pin goes low and the new level's pin goes high; no other pin is touched; nothing is touched when the level is unchanged |
| `DiscreteControl.SwitchedOneHot` | fan_control_discrete.py:29-33 | switching pins that are one-hot for the old level gives pins that are one-hot for the new level |
| `DiscreteControl.HandleFanSpeed` | fan_control_discrete.py:21-36 | returns `NextLevel` (in 0..N) and writes the pin array in place exactly as `Switched` describes |
| `DiscreteControl.Run` | fan_control_discrete.py:44-51 | starting from all pins low at level 0, after any readings the level is the fold of `NextLevel`, and exactly the pin at `level - 1` is high (none at level 0) |

## Left out

- GPIO setup, the PWM object, `fan.start`, `GPIO.output` and `GPIO.cleanup` come from a hardware library. They appear only as the `emitted` flag, the list of sent duty cycles, and the pin array.
- `getCpuTemperature` reads a sensor file. The temperature is a parameter.
- The SIGTERM handler and the SIGUSR1 hot reload are asynchronous. `ContinuousControl.Run` keeps one settings snapshot for the whole run, so a reload between ticks is not modelled.
- The `while True` / `time.sleep` loop is modelled as a pass over a finite list of readings (`ContinuousControl.Run`, `DiscreteControl.Run`).
- ConfigParser's INI syntax and its file reading are not modelled. A file is a map from section names to ordered `(key, value)` pairs, as `section.items()` yields them, with default-section entries already merged in. A file that exists but fails to parse is not modelled.
- `print` log lines and warnings.
- IEEE-754 floats: temperatures and the ramp use exact reals. Where float rounding error would move a value across a rounding tie, Python can give a different speed.
- `PyText.Upper`: only ASCII letters are upper-cased. Python's Unicode case mapping is not modelled. For example, a dotless `ı` that upper-cases to `I` is not modelled.
- `PyText.ParseInt`: only ASCII digits and the ASCII white space `int()` skips (tab, line feed, vertical tab, form feed, carriage return, space) are accepted. Python's `int()` also accepts other Unicode digits and spaces. Python 3.11 and later refuse a value of more than 4300 digits, which `load` would then skip; the model reads it.
- `DiscreteControl.HandleFanSpeed`: requires the current level to be in 0..N, which `main` guarantees by starting at 0 and passing back each returned level. Python's negative-index wrap-around and `IndexError` for other levels are not modelled.
- `DiscreteControl.Stages.WellFormed`: requires the three stage tables to have the same length, as the module's constants do. With a shorter `ON_TEMP` or `OFF_TEMP`, no index past its end could ever be found, while the default stays the number of pins. A longer one would make the pin index fail.
- `ContinuousControl.Run`: an exception ends the run with the error alone. The commands already sent before it are not kept in the result.
- `float(...)` in the gain raises `OverflowError` for integer settings beyond the range of a double. The model divides exact reals and never fails there.
- RPi.GPIO's `PWM.start` rejects duty cycles outside 0 to 100, so a ramp speed above 100 (the 140 of `ContinuousControl.DefaultsAt80`) would stop the daemon on real hardware. The hardware library is outside the model.
