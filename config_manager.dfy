/** `src/headsetcontrol_tray/config_manager.py`: `ConfigManager`, the settings dictionary
    and the table of named software EQ curves, each written back to its JSON file after
    every change. The curve table is a Python dict, so it remembers insertion order; it is
    modelled as a sequence of (name, values) pairs with distinct names. */
module ConfigManager {
  import opened Prelude
  import opened AppConfig

  /** A JSON value as `json.load` produces it (objects are not used as setting values). */
  datatype Value =
    | IntValue(i: int)
    | BoolValue(b: bool)
    | RealValue(r: real)
    | StrValue(s: string)
    | NullValue
    | ListValue(items: seq<Value>)

  /** `isinstance(v, int)`: true for ints and, since `bool` subclasses `int`, for bools. */
  predicate IsInt(v: Value) {
    v.IntValue? || v.BoolValue?
  }

  const NumEqBands: nat := 10

  /** The check of `save_custom_eq_curve`: a list of exactly ten ints. */
  predicate IsEqCurve(values: Value) {
    values.ListValue? && |values.items| == NumEqBands &&
    forall i :: 0 <= i < |values.items| ==> IsInt(values.items[i])
  }

  type CurveTable = seq<(string, seq<Value>)>

  /** The names of a table, in insertion order (`list(d)`). */
  function Names(t: CurveTable): (names: seq<string>)
    ensures |names| == |t|
    ensures forall i :: 0 <= i < |t| ==> names[i] == t[i].0
  {
    seq(|t|, i requires 0 <= i < |t| => t[i].0)
  }

  /** A dict never holds a key twice. */
  predicate UniqueNames(t: CurveTable) {
    forall i, j :: 0 <= i < j < |t| ==> t[i].0 != t[j].0
  }

  /** `d.get(name)`. */
  function Lookup(t: CurveTable, name: string): (r: Option<seq<Value>>)
    ensures r.Some? <==> name in Names(t)
    decreases |t|
  {
    if t == [] then None
    else if t[0].0 == name then Some(t[0].1)
    else
      assert Names(t) == [t[0].0] + Names(t[1..]);
      Lookup(t[1..], name)
  }

  /** `d[name] = values`: an existing entry keeps its place, a new one goes last. */
  function Assign(t: CurveTable, name: string, values: seq<Value>): (r: CurveTable)
    decreases |t|
  {
    if t == [] then [(name, values)]
    else if t[0].0 == name then [(name, values)] + t[1..]
    else [t[0]] + Assign(t[1..], name, values)
  }

  /** `del d[name]` when present; nothing otherwise. */
  function Remove(t: CurveTable, name: string): (r: CurveTable)
    ensures |r| <= |t|
    decreases |t|
  {
    if t == [] then []
    else if t[0].0 == name then Remove(t[1..], name)
    else [t[0]] + Remove(t[1..], name)
  }

  /** After an assignment the name holds the new values and every other name what it
      held before. */
  lemma {:induction false} AssignLookup(t: CurveTable, name: string, values: seq<Value>, other: string)
    ensures Lookup(Assign(t, name, values), name) == Some(values)
    ensures other != name ==> Lookup(Assign(t, name, values), other) == Lookup(t, other)
    decreases |t|
  {
    if t != [] && t[0].0 != name {
      AssignLookup(t[1..], name, values, other);
    }
  }

  /** Overwriting keeps the order of the names; a new name is appended. */
  lemma {:induction false} AssignNames(t: CurveTable, name: string, values: seq<Value>)
    ensures name in Names(t) ==> Names(Assign(t, name, values)) == Names(t)
    ensures name !in Names(t) ==> Names(Assign(t, name, values)) == Names(t) + [name]
    decreases |t|
  {
    if t != [] {
      NamesCons(t);
      var r := Assign(t, name, values);
      NamesCons(r);
      if t[0].0 != name {
        AssignNames(t[1..], name, values);
        assert r[0] == t[0] && r[1..] == Assign(t[1..], name, values);
        assert name in Names(t) <==> name in Names(t[1..]);
      } else {
        assert r[1..] == t[1..];
      }
    }
  }

  /** The names of a non-empty table: the first name, then the rest. */
  lemma NamesCons(t: CurveTable)
    requires t != []
    ensures Names(t) == [t[0].0] + Names(t[1..])
  {
  }

  lemma AssignUnique(t: CurveTable, name: string, values: seq<Value>)
    requires UniqueNames(t)
    ensures UniqueNames(Assign(t, name, values))
  {
    AssignNames(t, name, values);
    var r := Assign(t, name, values);
    forall i, j | 0 <= i < j < |r| ensures r[i].0 != r[j].0 {
      assert Names(r)[i] == r[i].0 && Names(r)[j] == r[j].0;
      if name !in Names(t) && j == |t| {
        assert Names(t)[i] == t[i].0;
      } else {
        assert Names(t)[i] == t[i].0 && Names(t)[j] == t[j].0;
      }
    }
  }

  /** After a removal the name is gone and every other name holds what it held. */
  lemma {:induction false} RemoveLookup(t: CurveTable, name: string, other: string)
    ensures Lookup(Remove(t, name), name).None?
    ensures other != name ==> Lookup(Remove(t, name), other) == Lookup(t, other)
    decreases |t|
  {
    if t != [] {
      RemoveLookup(t[1..], name, other);
    }
  }

  /** Removing an absent name changes nothing. */
  lemma {:induction false} RemoveAbsent(t: CurveTable, name: string)
    requires name !in Names(t)
    ensures Remove(t, name) == t
    decreases |t|
  {
    if t != [] {
      assert Names(t) == [t[0].0] + Names(t[1..]);
      RemoveAbsent(t[1..], name);
    }
  }

  /** Removal keeps the other entries in their order: it is a subsequence of the table,
      so the names stay distinct. */
  lemma {:induction false} RemoveKeepsOrder(t: CurveTable, name: string)
    ensures forall i :: 0 <= i < |Remove(t, name)| ==> Remove(t, name)[i] in t && Remove(t, name)[i].0 != name
    ensures UniqueNames(t) ==> UniqueNames(Remove(t, name))
    decreases |t|
  {
    if t != [] {
      RemoveKeepsOrder(t[1..], name);
      var rest := Remove(t[1..], name);
      if UniqueNames(t) {
        assert UniqueNames(t[1..]);
        if t[0].0 != name {
          forall j | 0 <= j < |rest| ensures t[0].0 != rest[j].0 {
            var k :| 0 <= k < |t[1..]| && t[1..][k] == rest[j];
            assert t[1 + k] == rest[j];
          }
        }
      }
    }
  }

  /** `DEFAULT_EQ_CURVES` as JSON values. */
  function DefaultCurves(): (t: CurveTable)
    ensures |t| == |DefaultEqCurves|
  {
    seq(|DefaultEqCurves|, i requires 0 <= i < |DefaultEqCurves| =>
      (DefaultEqCurves[i].0, seq(|DefaultEqCurves[i].1|, j requires 0 <= j < |DefaultEqCurves[i].1| =>
        IntValue(DefaultEqCurves[i].1[j]))))
  }

  /** The defaults have distinct names, begin with "Flat", and are all valid curves. */
  lemma DefaultCurvesShape()
    ensures UniqueNames(DefaultCurves())
    ensures Names(DefaultCurves()) == ["Flat", "Bass Boost", "Treble Boost", "Vocal Clarity", "Focus (FPS)"]
    ensures forall i :: 0 <= i < |DefaultCurves()| ==> IsEqCurve(ListValue(DefaultCurves()[i].1))
  {
    var t := DefaultCurves();
    assert Names(t) == ["Flat", "Bass Boost", "Treble Boost", "Vocal Clarity", "Focus (FPS)"];
  }

  /** `d.get(key, default)` on the settings. */
  function Get(settings: map<string, Value>, key: string, default: Value): (v: Value)
    ensures key in settings ==> v == settings[key]
    ensures key !in settings ==> v == default
  {
    if key in settings then settings[key] else default
  }

  /** `name in d` for a stored setting: only a string can name a curve. */
  predicate NamesCurve(name: Value, t: CurveTable) {
    name.StrValue? && name.s in Names(t)
  }

  /** `get_last_custom_eq_curve_name`: the stored name (default "Flat") if it names a
      curve; else "Flat" if that is a curve; else the first curve; else the stored name.
      The first test, `name not in` the curve dictionary, hashes the stored value, so a
      stored list raises `TypeError` (None here), even when there are no curves. */
  function LastCustomEqCurveName(settings: map<string, Value>, t: CurveTable): (name: Option<Value>)
  {
    var stored := Get(settings, "last_custom_eq_curve_name", StrValue(DefaultCustomEqCurveName));
    if stored.ListValue? then None
    else if !NamesCurve(stored, t) && DefaultCustomEqCurveName in Names(t) then Some(StrValue(DefaultCustomEqCurveName))
    else if !NamesCurve(stored, t) && t != [] then Some(StrValue(t[0].0))
    else Some(stored)
  }

  /** The fallback chain, case by case: a stored list raises; otherwise a stored name
      that names a curve wins; then "Flat"; then the first curve in insertion order; with
      no curves at all, the stored value is returned as it is. In particular, whenever
      there is a curve and nothing raises, the answer names one. */
  lemma LastCurveNameFallback(settings: map<string, Value>, t: CurveTable)
    ensures var stored := Get(settings, "last_custom_eq_curve_name", StrValue("Flat"));
      var name := LastCustomEqCurveName(settings, t);
      (name.None? <==> stored.ListValue?) &&
      (NamesCurve(stored, t) ==> name == Some(stored)) &&
      (!stored.ListValue? && !NamesCurve(stored, t) && "Flat" in Names(t) ==> name == Some(StrValue("Flat"))) &&
      (!stored.ListValue? && !NamesCurve(stored, t) && "Flat" !in Names(t) && t != [] ==> name == Some(StrValue(t[0].0))) &&
      (!stored.ListValue? && t == [] ==> name == Some(stored))
    ensures t != [] && LastCustomEqCurveName(settings, t).Some? ==> NamesCurve(LastCustomEqCurveName(settings, t).value, t)
  {
    if t != [] {
      assert Names(t)[0] == t[0].0;
    }
  }

  const LastCurveKey: string := "last_custom_eq_curve_name"
  const ActiveEqTypeKey: string := "active_eq_type"

  class Config {
    var settings: map<string, Value>
    var customEqCurves: CurveTable
    /** Environment: whether writing the JSON files succeeds (an `OSError` is logged and
        otherwise ignored). */
    const writable: bool
    /** What `settings.json` and `custom_eq_curves.json` hold. */
    var settingsFile: map<string, Value>
    var curvesFile: CurveTable
    /** How many times each file was written. */
    var settingsWrites: nat
    var curvesWrites: nat

    ghost predicate Valid()
      reads this
    {
      UniqueNames(customEqCurves)
    }

    /** `ConfigManager()`, given what the two JSON files held (a missing or malformed file
        reads as empty): an empty curve table is replaced by the defaults and written
        once. */
    constructor (loadedSettings: map<string, Value>, loadedCurves: CurveTable, writable: bool)
      requires UniqueNames(loadedCurves)
      ensures settings == loadedSettings && settingsFile == loadedSettings && settingsWrites == 0
      ensures this.writable == writable
      ensures loadedCurves != [] ==>
        customEqCurves == loadedCurves && curvesFile == loadedCurves && curvesWrites == 0
      ensures loadedCurves == [] ==>
        customEqCurves == DefaultCurves() && curvesWrites == 1 &&
        curvesFile == (if writable then DefaultCurves() else [])
      ensures Valid()
    {
      settings := loadedSettings;
      settingsFile := loadedSettings;
      settingsWrites := 0;
      this.writable := writable;
      customEqCurves := loadedCurves;
      curvesFile := loadedCurves;
      curvesWrites := 0;
      new;
      DefaultCurvesShape();
      if customEqCurves == [] {
        customEqCurves := DefaultCurves();
        SaveCurves();
      }
    }

    /** `_save_json_file(CONFIG_FILE, ...)`. */
    method SaveSettings()
      modifies this`settingsFile, this`settingsWrites
      ensures settingsWrites == old(settingsWrites) + 1
      ensures settingsFile == if writable then settings else old(settingsFile)
    {
      if writable {
        settingsFile := settings;
      }
      settingsWrites := settingsWrites + 1;
    }

    /** `_save_json_file(CUSTOM_EQ_CURVES_FILE, ...)`. */
    method SaveCurves()
      modifies this`curvesFile, this`curvesWrites
      ensures curvesWrites == old(curvesWrites) + 1
      ensures curvesFile == if writable then customEqCurves else old(curvesFile)
    {
      if writable {
        curvesFile := customEqCurves;
      }
      curvesWrites := curvesWrites + 1;
    }

    /** `get_setting(key, default)`. */
    function GetSetting(key: string, default: Value): (v: Value)
      reads this
      ensures key in settings ==> v == settings[key]
      ensures key !in settings ==> v == default
    {
      Get(settings, key, default)
    }

    /** `set_setting`: only `key` changes, and the settings are written. */
    method SetSetting(key: string, value: Value)
      modifies this`settings, this`settingsFile, this`settingsWrites
      ensures settings == old(settings)[key := value]
      ensures GetSetting(key, NullValue) == value
      ensures forall k :: k != key ==> GetSetting(k, NullValue) == old(GetSetting(k, NullValue))
      ensures settingsWrites == old(settingsWrites) + 1
      ensures settingsFile == if writable then settings else old(settingsFile)
    {
      settings := settings[key := value];
      SaveSettings();
    }

    /** `get_all_custom_eq_curves`: a copy, so later changes do not reach the caller. */
    function GetAllCustomEqCurves(): (t: CurveTable)
      reads this
      ensures t == customEqCurves
    {
      customEqCurves
    }

    /** `get_custom_eq_curve`. */
    function GetCustomEqCurve(name: string): (values: Option<seq<Value>>)
      reads this
      ensures values.Some? <==> name in Names(customEqCurves)
    {
      Lookup(customEqCurves, name)
    }

    /** `save_custom_eq_curve`: a value that is not a list of ten ints is refused
        (`ValueError`, modelled as false) and nothing changes; otherwise the curve is
        stored under its name and the table is written. */
    method SaveCustomEqCurve(name: string, values: Value) returns (accepted: bool)
      requires Valid()
      modifies this`customEqCurves, this`curvesFile, this`curvesWrites
      ensures accepted <==> IsEqCurve(values)
      ensures !accepted ==> (customEqCurves == old(customEqCurves) && curvesWrites == old(curvesWrites) &&
        curvesFile == old(curvesFile))
      ensures accepted ==> (customEqCurves == Assign(old(customEqCurves), name, values.items) &&
        curvesWrites == old(curvesWrites) + 1 &&
        curvesFile == (if writable then customEqCurves else old(curvesFile)))
      ensures accepted ==> GetCustomEqCurve(name) == Some(values.items)
      ensures forall other :: other != name ==> GetCustomEqCurve(other) == old(GetCustomEqCurve(other))
      ensures Valid()
    {
      if !IsEqCurve(values) {
        return false;
      }
      forall other { AssignLookup(customEqCurves, name, values.items, other); }
      AssignUnique(customEqCurves, name, values.items);
      customEqCurves := Assign(customEqCurves, name, values.items);
      SaveCurves();
      return true;
    }

    /** `delete_custom_eq_curve`: an absent name changes nothing; otherwise the curve is
        removed, the table written, and the last-curve setting reset to "Flat" only if it
        named the deleted curve. */
    method DeleteCustomEqCurve(name: string)
      requires Valid()
      modifies this`customEqCurves, this`curvesFile, this`curvesWrites
      modifies this`settings, this`settingsFile, this`settingsWrites
      ensures name !in Names(old(customEqCurves)) ==>
        customEqCurves == old(customEqCurves) && curvesWrites == old(curvesWrites) &&
        curvesFile == old(curvesFile) &&
        settings == old(settings) && settingsWrites == old(settingsWrites) && settingsFile == old(settingsFile)
      ensures name in Names(old(customEqCurves)) ==>
        customEqCurves == Remove(old(customEqCurves), name) && curvesWrites == old(curvesWrites) + 1 &&
        curvesFile == (if writable then customEqCurves else old(curvesFile))
      ensures GetCustomEqCurve(name).None?
      ensures forall other :: other != name ==> GetCustomEqCurve(other) == old(GetCustomEqCurve(other))
      ensures name in Names(old(customEqCurves)) && old(GetSetting(LastCurveKey, NullValue)) == StrValue(name) ==>
        settings == old(settings)[LastCurveKey := StrValue(DefaultCustomEqCurveName)] &&
        settingsWrites == old(settingsWrites) + 1 &&
        settingsFile == (if writable then settings else old(settingsFile))
      ensures old(GetSetting(LastCurveKey, NullValue)) != StrValue(name) ==>
        settings == old(settings) && settingsWrites == old(settingsWrites) && settingsFile == old(settingsFile)
      ensures Valid()
    {
      RemoveKeepsOrder(customEqCurves, name);
      forall other { RemoveLookup(customEqCurves, name, other); }
      if name !in Names(customEqCurves) {
        return;
      }
      customEqCurves := Remove(customEqCurves, name);
      SaveCurves();
      if GetSetting(LastCurveKey, NullValue) == StrValue(name) {
        SetSetting(LastCurveKey, StrValue(DefaultCustomEqCurveName));
      }
    }

    /** `get_last_sidetone_level`: the stored level, 64 by default. */
    function GetLastSidetoneLevel(): (v: Value)
      reads this
      ensures "sidetone_level" !in settings ==> v == IntValue(64)
      ensures "sidetone_level" in settings ==> v == settings["sidetone_level"]
    {
      GetSetting("sidetone_level", IntValue(DefaultSidetoneLevel))
    }

    /** `set_last_sidetone_level`: stores the level and writes the settings. */
    method SetLastSidetoneLevel(level: int)
      modifies this`settings, this`settingsFile, this`settingsWrites
      ensures settings == old(settings)["sidetone_level" := IntValue(level)]
      ensures settingsWrites == old(settingsWrites) + 1
      ensures settingsFile == if writable then settings else old(settingsFile)
      ensures GetLastSidetoneLevel() == IntValue(level)
    {
      SetSetting("sidetone_level", IntValue(level));
    }

    /** `get_last_inactive_timeout`: the stored minutes, 15 by default. */
    function GetLastInactiveTimeout(): (v: Value)
      reads this
      ensures "inactive_timeout" !in settings ==> v == IntValue(15)
      ensures "inactive_timeout" in settings ==> v == settings["inactive_timeout"]
    {
      GetSetting("inactive_timeout", IntValue(DefaultInactiveTimeout))
    }

    /** `set_last_inactive_timeout`: stores the minutes and writes the settings. */
    method SetLastInactiveTimeout(minutes: int)
      modifies this`settings, this`settingsFile, this`settingsWrites
      ensures settings == old(settings)["inactive_timeout" := IntValue(minutes)]
      ensures settingsWrites == old(settingsWrites) + 1
      ensures settingsFile == if writable then settings else old(settingsFile)
      ensures GetLastInactiveTimeout() == IntValue(minutes)
    {
      SetSetting("inactive_timeout", IntValue(minutes));
    }

    /** `get_last_active_eq_preset_id`: the stored preset, 0 by default. */
    function GetLastActiveEqPresetId(): (v: Value)
      reads this
      ensures "eq_preset_id" !in settings ==> v == IntValue(0)
      ensures "eq_preset_id" in settings ==> v == settings["eq_preset_id"]
    {
      GetSetting("eq_preset_id", IntValue(DefaultEqPresetId))
    }

    /** `set_last_active_eq_preset_id`: stores the preset and makes the hardware EQ the
        active kind; the settings are written twice, once per key. */
    method SetLastActiveEqPresetId(presetId: int)
      modifies this`settings, this`settingsFile, this`settingsWrites
      ensures settings == old(settings)["eq_preset_id" := IntValue(presetId)][ActiveEqTypeKey := StrValue("hardware")]
      ensures settingsFile == if writable then settings else old(settingsFile)
      ensures GetLastActiveEqPresetId() == IntValue(presetId) && GetActiveEqType() == StrValue("hardware")
      ensures settingsWrites == old(settingsWrites) + 2
    {
      SetSetting("eq_preset_id", IntValue(presetId));
      SetSetting(ActiveEqTypeKey, StrValue("hardware"));
    }

    /** `get_last_custom_eq_curve_name`: None where the stored value is a list and the
        membership test raises `TypeError`. */
    function GetLastCustomEqCurveName(): (name: Option<Value>)
      reads this
      ensures name.None? <==> GetSetting(LastCurveKey, StrValue(DefaultCustomEqCurveName)).ListValue?
      ensures customEqCurves != [] && name.Some? ==> NamesCurve(name.value, customEqCurves)
    {
      LastCurveNameFallback(settings, customEqCurves);
      LastCustomEqCurveName(settings, customEqCurves)
    }

    /** `set_last_custom_eq_curve_name`: stores the name and makes the custom EQ the
        active kind. */
    method SetLastCustomEqCurveName(name: string)
      modifies this`settings, this`settingsFile, this`settingsWrites
      ensures settings == old(settings)[LastCurveKey := StrValue(name)][ActiveEqTypeKey := StrValue("custom")]
      ensures settingsFile == if writable then settings else old(settingsFile)
      ensures GetActiveEqType() == StrValue("custom")
      ensures name in Names(customEqCurves) ==> GetLastCustomEqCurveName() == Some(StrValue(name))
      ensures settingsWrites == old(settingsWrites) + 2
    {
      SetSetting(LastCurveKey, StrValue(name));
      SetSetting(ActiveEqTypeKey, StrValue("custom"));
    }

    /** `get_active_eq_type`: "custom" unless set. */
    function GetActiveEqType(): (v: Value)
      reads this
      ensures ActiveEqTypeKey !in settings ==> v == StrValue("custom")
      ensures ActiveEqTypeKey in settings ==> v == settings[ActiveEqTypeKey]
    {
      GetSetting(ActiveEqTypeKey, StrValue("custom"))
    }
  }
}
