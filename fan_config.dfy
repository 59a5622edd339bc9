/**
 * The `config` class of the continuous controller: ten upper-case integer
 * settings with defaults, and `load`, which overwrites some of them from the
 * `[fan_control]` section of a configuration file.
 */
module FanConfig {
  import opened Wrappers
  import opened PyText

  /** The names `load` accepts: the class attributes that start with an upper-case letter. */
  const Names: set<string> := {
    "FAN_PIN", "WAIT_TIME", "PWM_FREQ", "OFF_TEMP", "MIN_TEMP",
    "MAX_TEMP", "FAN_LOW", "FAN_HIGH", "FAN_OFF", "FAN_MAX"
  }

  /** The name of the section `load` reads. */
  const SectionName: string := "fan_control"

  /** A snapshot of every setting. Temperatures are in °C, speeds in percent. */
  datatype Settings = Settings(
    fanPin: int,   // BCM pin driving the PWM fan
    waitTime: int, // seconds between two samples
    pwmFreq: int,  // PWM frequency in Hz
    offTemp: int,  // below this the fan stops
    minTemp: int,  // above this the fan runs on the ramp
    maxTemp: int,  // the ramp reaches fanHigh here
    fanLow: int,
    fanHigh: int,
    fanOff: int,
    fanMax: int)
  {
    /** `getattr(config, name)`. */
    function Get(name: string): int
      requires name in Names
    {
      if name == "FAN_PIN" then fanPin
      else if name == "WAIT_TIME" then waitTime
      else if name == "PWM_FREQ" then pwmFreq
      else if name == "OFF_TEMP" then offTemp
      else if name == "MIN_TEMP" then minTemp
      else if name == "MAX_TEMP" then maxTemp
      else if name == "FAN_LOW" then fanLow
      else if name == "FAN_HIGH" then fanHigh
      else if name == "FAN_OFF" then fanOff
      else fanMax
    }

    /** The settings after `setattr(config, name, v)`: that one setting changes, no other. */
    function With(name: string, v: int): (r: Settings)
      requires name in Names
      ensures r.Get(name) == v
      ensures forall n :: n in Names && n != name ==> r.Get(n) == Get(n)
    {
      if name == "FAN_PIN" then this.(fanPin := v)
      else if name == "WAIT_TIME" then this.(waitTime := v)
      else if name == "PWM_FREQ" then this.(pwmFreq := v)
      else if name == "OFF_TEMP" then this.(offTemp := v)
      else if name == "MIN_TEMP" then this.(minTemp := v)
      else if name == "MAX_TEMP" then this.(maxTemp := v)
      else if name == "FAN_LOW" then this.(fanLow := v)
      else if name == "FAN_HIGH" then this.(fanHigh := v)
      else if name == "FAN_OFF" then this.(fanOff := v)
      else this.(fanMax := v)
    }
  }

  /** The class attributes as the source initialises them. */
  const Defaults: Settings := Settings(18, 1, 25, 40, 45, 70, 1, 100, 0, 100)

  /** Two snapshots that agree on every name are the same snapshot. */
  lemma SettingsByName(a: Settings, b: Settings)
    requires forall n :: n in Names ==> a.Get(n) == b.Get(n)
    ensures a == b
  {
    assert a.Get("FAN_PIN") == b.Get("FAN_PIN");
    assert a.Get("WAIT_TIME") == b.Get("WAIT_TIME");
    assert a.Get("PWM_FREQ") == b.Get("PWM_FREQ");
    assert a.Get("OFF_TEMP") == b.Get("OFF_TEMP");
    assert a.Get("MIN_TEMP") == b.Get("MIN_TEMP");
    assert a.Get("MAX_TEMP") == b.Get("MAX_TEMP");
    assert a.Get("FAN_LOW") == b.Get("FAN_LOW");
    assert a.Get("FAN_HIGH") == b.Get("FAN_HIGH");
    assert a.Get("FAN_OFF") == b.Get("FAN_OFF");
    assert a.Get("FAN_MAX") == b.Get("FAN_MAX");
  }

  /** One `(name, value)` pair of a section, as `section.items()` yields it. */
  type Item = (string, string)

  /** A configuration file that exists: its sections by name, each an ordered list of items. */
  type IniFile = map<string, seq<Item>>

  /** Whether the pair sets setting `n`: its key upper-cases to `n` and its value is an integer. */
  predicate Sets(item: Item, n: string)
  {
    Upper(item.0) == n && ParseInt(item.1).Some?
  }

  /** One iteration of the loop in `load`: unknown names and non-integers are skipped. */
  function ApplyItem(s: Settings, item: Item): (r: Settings)
    ensures forall n {:trigger r.Get(n)} :: n in Names ==>
      r.Get(n) == if Sets(item, n) then ParseInt(item.1).value else s.Get(n)
  {
    var name := Upper(item.0);
    if name !in Names then s
    else match ParseInt(item.1)
      case None => s
      case Some(v) => s.With(name, v)
  }

  /**
   * The settings after the loop has consumed `items` in order. No value is
   * invented: each setting keeps its prior value or takes one a pair sets it to.
   */
  function ApplyItems(s: Settings, items: seq<Item>): (r: Settings)
    ensures forall n {:trigger Kept(s, r, n)} :: n in Names ==> Kept(s, r, n) || SetByPair(r, items, n)
  {
    if items == [] then s
    else
      var prefix := items[..|items| - 1];
      var prev := ApplyItems(s, prefix);
      assert forall i :: 0 <= i < |prefix| ==> prefix[i] == items[i];
      assert forall n | n in Names :: Kept(s, prev, n) || SetByPair(prev, prefix, n);
      ApplyItem(prev, items[|items| - 1])
  }

  /** Setting `n` has the same value in both snapshots. */
  predicate Kept(s: Settings, r: Settings, n: string)
    requires n in Names
  {
    r.Get(n) == s.Get(n)
  }

  /** Some pair of `items` sets `n` to the value it has in `r`. */
  predicate SetByPair(r: Settings, items: seq<Item>, n: string)
    requires n in Names
  {
    exists i :: 0 <= i < |items| && Sets(items[i], n) && r.Get(n) == ParseInt(items[i].1).value
  }

  /**
   * The settings after `load`; `None` stands for a file that does not exist.
   * Each setting keeps its prior value or takes one a pair of the section sets it to.
   */
  function LoadResult(s: Settings, file: Option<IniFile>): (r: Settings)
    ensures forall n {:trigger Kept(s, r, n)} :: n in Names ==>
      Kept(s, r, n) || (file.Some? && SectionName in file.value && SetByPair(r, file.value[SectionName], n))
  {
    match file
    case None => s
    case Some(sections) =>
      if SectionName in sections then ApplyItems(s, sections[SectionName]) else s
  }

  /** A setting that no pair of the section sets keeps its prior value. */
  lemma {:induction false} ApplyItemsKeeps(s: Settings, items: seq<Item>, n: string)
    requires n in Names
    requires forall i :: 0 <= i < |items| ==> !Sets(items[i], n)
    ensures ApplyItems(s, items).Get(n) == s.Get(n)
  {
    if items != [] {
      var prefix := items[..|items| - 1];
      ApplyItemsKeeps(s, prefix, n);
    }
  }

  /** A setting takes the value of the last pair that sets it. */
  lemma {:induction false} ApplyItemsLastWins(s: Settings, items: seq<Item>, n: string, k: nat)
    requires n in Names
    requires k < |items| && Sets(items[k], n)
    requires forall i :: k < i < |items| ==> !Sets(items[i], n)
    ensures ApplyItems(s, items).Get(n) == ParseInt(items[k].1).value
  {
    var prefix := items[..|items| - 1];
    if k < |items| - 1 {
      ApplyItemsLastWins(s, prefix, n, k);
    }
  }

  /** Pairs that set nothing (an unknown name, a non-integer value) leave every setting as it was. */
  lemma {:induction false} ApplyItemsSkips(s: Settings, items: seq<Item>)
    requires forall i, n :: 0 <= i < |items| && n in Names ==> !Sets(items[i], n)
    ensures ApplyItems(s, items) == s
  {
    forall n | n in Names
      ensures ApplyItems(s, items).Get(n) == s.Get(n)
    {
      ApplyItemsKeeps(s, items, n);
    }
    SettingsByName(ApplyItems(s, items), s);
  }

  /** Every setting name is upper-case, so `load` reaches it whatever the case of the key. */
  lemma NamesUpper()
    ensures forall n :: n in Names ==> Upper(n) == n
  {
  }

  /** A missing file, or a file without the section, changes nothing. */
  lemma LoadMissing(s: Settings, file: Option<IniFile>)
    requires file.None? || SectionName !in file.value
    ensures LoadResult(s, file) == s
  {
  }

  /**
   * Keys are matched after upper-casing, and no consistency between settings is
   * demanded: a lower-case `min_temp` is taken whatever its value, even one at
   * or above `MAX_TEMP`, and nothing else changes.
   */
  lemma LoadNoValidation(s: Settings, v: int)
    ensures LoadResult(s, Some(map[SectionName := [("min_temp", Show(v))]])) == s.(minTemp := v)
  {
    var item := ("min_temp", Show(v));
    LoadSingle(s, item);
    assert ApplyItem(s, item) == s.(minTemp := v) by {
      assert Upper(item.0) == "MIN_TEMP" by { }
      ParseShow(v);
    }
  }

  /** A section of one pair applies that pair. */
  lemma LoadSingle(s: Settings, item: Item)
    ensures LoadResult(s, Some(map[SectionName := [item]])) == ApplyItem(s, item)
  {
    var items := [item];
    assert items[..0] == [];
    assert ApplyItems(s, items) == ApplyItem(ApplyItems(s, []), item);
    assert ApplyItems(s, []) == s;
  }

  /** The `config` class: its attributes are fields, and `load` overwrites them in place. */
  class Config {
    var fanPin: int
    var waitTime: int
    var pwmFreq: int
    var offTemp: int
    var minTemp: int
    var maxTemp: int
    var fanLow: int
    var fanHigh: int
    var fanOff: int
    var fanMax: int

    /** The current values of all attributes. */
    function Snapshot(): Settings
      reads this
    {
      Settings(fanPin, waitTime, pwmFreq, offTemp, minTemp, maxTemp, fanLow, fanHigh, fanOff, fanMax)
    }

    constructor ()
      ensures Snapshot() == Defaults
    {
      fanPin, waitTime, pwmFreq := 18, 1, 25;
      offTemp, minTemp, maxTemp := 40, 45, 70;
      fanLow, fanHigh, fanOff, fanMax := 1, 100, 0, 100;
    }

    /** `setattr(config, name, v)`. */
    method SetAttr(name: string, v: int)
      requires name in Names
      modifies this
      ensures Snapshot() == old(Snapshot()).With(name, v)
    {
      if name == "FAN_PIN" { fanPin := v; }
      else if name == "WAIT_TIME" { waitTime := v; }
      else if name == "PWM_FREQ" { pwmFreq := v; }
      else if name == "OFF_TEMP" { offTemp := v; }
      else if name == "MIN_TEMP" { minTemp := v; }
      else if name == "MAX_TEMP" { maxTemp := v; }
      else if name == "FAN_LOW" { fanLow := v; }
      else if name == "FAN_HIGH" { fanHigh := v; }
      else if name == "FAN_OFF" { fanOff := v; }
      else { fanMax := v; }
    }

    /**
     * `config.load`: a missing file or section leaves the attributes alone;
     * otherwise each pair of the section, in order, overwrites the attribute it
     * names when that name is known and the value is an integer.
     */
    method Load(file: Option<IniFile>)
      modifies this
      ensures Snapshot() == LoadResult(old(Snapshot()), file)
    {
      if file.None? {
        return;
      }
      if SectionName !in file.value {
        return;
      }
      var items := file.value[SectionName];
      for i := 0 to |items|
        invariant Snapshot() == ApplyItems(old(Snapshot()), items[..i])
      {
        var (key, value) := items[i];
        var name := Upper(key);
        assert items[..i + 1][..i] == items[..i];
        if name !in Names {
          continue;
        }
        var parsed := ParseInt(value);
        if parsed.None? {
          continue;
        }
        SetAttr(name, parsed.value);
      }
      assert items[..|items|] == items;
    }
  }
}
