/** Configuration defaults, validation and lookups (watflow/config.py).

    The configuration is the mapping `yaml.safe_load` produced from `config.yaml`
    (reading the file and the module-level cache are not modelled). Every check
    that raises `ConfigError` in the source returns `Err` with the same message,
    except that a list or dict quoted in a message renders as "" where Python
    writes its `str()`; and the lookups return `Err` with the message of the
    exception Python raises where the source does not guard a value's type.  The
    one input a lookup rejects that Python accepts is a `dict.update` pair whose key
    is a number, a boolean, a float or null: the model's dictionaries have string
    keys only. */
module Config {
  import opened Wrappers
  import opened Text
  import opened Json
  import Dict

  /** `DEFAULT_PHASE_SETTINGS`. */
  const DefaultPhaseSettings: Fields := [
    ("parallel", Bool(false)),
    ("max_workers", Int(4)),
    ("timeout", Int(120)),
    ("retry", Int(0)),
    ("critical", Bool(true)),
    ("min_success", Int(0))
  ]

  /** The value of each setting in `DEFAULT_PHASE_SETTINGS`. */
  lemma DefaultPhaseSettingsValues()
    ensures Dict.Get(DefaultPhaseSettings, "parallel") == Some(Bool(false))
    ensures Dict.Get(DefaultPhaseSettings, "max_workers") == Some(Int(4))
    ensures Dict.Get(DefaultPhaseSettings, "timeout") == Some(Int(120))
    ensures Dict.Get(DefaultPhaseSettings, "retry") == Some(Int(0))
    ensures Dict.Get(DefaultPhaseSettings, "critical") == Some(Bool(true))
    ensures Dict.Get(DefaultPhaseSettings, "min_success") == Some(Int(0))
  {
    var d := DefaultPhaseSettings;
    DefaultPhaseSettingsDistinct();
    Dict.GetAtDistinct(d, 0);
    Dict.GetAtDistinct(d, 1);
    Dict.GetAtDistinct(d, 2);
    Dict.GetAtDistinct(d, 3);
    Dict.GetAtDistinct(d, 4);
    Dict.GetAtDistinct(d, 5);
  }

  lemma DefaultPhaseSettingsDistinct()
    ensures Dict.Distinct(Dict.Keys(DefaultPhaseSettings))
  {
    assert Dict.Keys(DefaultPhaseSettings) == ["parallel", "max_workers", "timeout", "retry", "critical", "min_success"];
  }

  /** `DEFAULT_CONFIG`. */
  const DefaultConfig: Fields := [
    ("workflow", Object([("name", Str("Unnamed Workflow")), ("description", Str("")), ("version", Str("0.1.0"))])),
    ("defaults", Object(DefaultPhaseSettings)),
    ("phases", List([])),
    ("models", Object([("default", Object([("model", Str("claude-sonnet-4-20250514")), ("temperature", Float("0.3", 1)), ("max_tokens", Int(8000))]))])),
    ("settings", Object([]))
  ]

  // ---------------------------------------------------------------------------
  // _apply_defaults
  // ---------------------------------------------------------------------------

  /** `_apply_defaults(config, defaults)`: a copy of `defaults` in which every key of
      `config` is assigned in order, merging recursively where both values are mappings. */
  function ApplyDefaults(config: Fields, defaults: Fields): (r: Fields)
    ensures Dict.Keys(defaults) <= Dict.Keys(r)
  {
    MergeFrom(Object(config), 0, defaults)
  }

  /** The value `_apply_defaults` stores for a config value `v` when the result so far
      holds `current` under the same key. */
  function Merged(current: Option<Value>, v: Value): Value {
    if current.Some? && current.value.Object? && v.Object? then Object(ApplyDefaults(v.fields, current.value.fields))
    else v
  }

  /** The loop of `_apply_defaults` from the `i`-th config entry on, with `acc` the
      result so far. */
  function MergeFrom(obj: Value, i: nat, acc: Fields): (r: Fields)
    requires obj.Object? && i <= |obj.fields|
    ensures Dict.Keys(acc) <= Dict.Keys(r)
    decreases obj, |obj.fields| - i
  {
    if i == |obj.fields| then acc
    else
      var (k, v) := obj.fields[i];
      var current := Dict.Get(acc, k);
      var merged :=
        if current.Some? && current.value.Object? && v.Object? then Object(MergeFrom(v, 0, current.value.fields))
        else v;
      MergeFrom(obj, i + 1, Dict.Set(acc, k, merged))
  }

  /** Keys of a suffix of a list with distinct keys do not include the keys before it. */
  lemma DistinctSuffix(fs: Fields, i: nat)
    requires Dict.Distinct(Dict.Keys(fs)) && i < |fs|
    ensures fs[i].0 !in Dict.Keys(fs[i + 1..])
    ensures Dict.Distinct(Dict.Keys(fs[i + 1..]))
  {
    var ks := Dict.Keys(fs[i + 1..]);
    forall j | 0 <= j < |ks|
      ensures ks[j] == Dict.Keys(fs)[i + 1 + j]
    {
    }
  }

  /** What the loop of `_apply_defaults` leaves under each key: untouched keys keep the
      value of `acc`; a key of the remaining config entries gets its merged value. */
  lemma {:induction false} MergeFromSpec(obj: Value, i: nat, acc: Fields, k: string)
    requires obj.Object? && i <= |obj.fields|
    requires Dict.Distinct(Dict.Keys(obj.fields[i..]))
    ensures Dict.Get(MergeFrom(obj, i, acc), k) ==
      match Dict.Get(obj.fields[i..], k)
      case None => Dict.Get(acc, k)
      case Some(v) => Some(Merged(Dict.Get(acc, k), v))
    decreases |obj.fields| - i
  {
    if i < |obj.fields| {
      var fs := obj.fields[i..];
      var (ki, vi) := obj.fields[i];
      assert fs[0] == (ki, vi);
      assert fs[1..] == obj.fields[i + 1..];
      DistinctSuffix(fs, 0);
      var merged := Merged(Dict.Get(acc, ki), vi);
      MergeFromSpec(obj, i + 1, Dict.Set(acc, ki, merged), k);
    }
  }

  /** `_apply_defaults` key by key: keys only in the defaults keep their default, keys
      only in the config keep the config value, and a key in both takes the config
      value unless both are mappings, which are merged recursively.  Every key of
      either side is present. */
  lemma ApplyDefaultsSpec(config: Fields, defaults: Fields, k: string)
    requires Dict.Distinct(Dict.Keys(config))
    ensures Dict.Get(ApplyDefaults(config, defaults), k) ==
      match Dict.Get(config, k)
      case None => Dict.Get(defaults, k)
      case Some(v) => Some(Merged(Dict.Get(defaults, k), v))
    ensures k in Dict.Keys(ApplyDefaults(config, defaults)) <==> k in Dict.Keys(config) || k in Dict.Keys(defaults)
  {
    assert Object(config).fields[0..] == config;
    MergeFromSpec(Object(config), 0, defaults, k);
  }

  // ---------------------------------------------------------------------------
  // validate_config and _validate_phase_settings
  // ---------------------------------------------------------------------------

  /** The type rule `_validate_phase_settings` applies to one setting. */
  predicate SettingOk(key: string, v: Value) {
    if key == "max_workers" then v.Int? && v.i >= 1
    else if key == "timeout" then (v.Int? && v.i > 0) || (v.Float? && v.sign > 0)
    else if key == "parallel" || key == "critical" then v.Bool?
    else if key == "min_success" || key == "retry" then v.Int? && v.i >= 0
    else true
  }

  /** The settings `_validate_phase_settings` checks, in the order it checks them. */
  const CheckedSettings: seq<string> := ["max_workers", "timeout", "parallel", "critical", "min_success", "retry"]

  /** Every checked setting that is present has the right type; absent ones are fine. */
  ghost predicate SettingsOk(settings: Fields) {
    forall key :: key in CheckedSettings && key in Dict.Keys(settings) ==> SettingOk(key, Dict.Get(settings, key).value)
  }

  function SettingMessage(key: string, context: string): string {
    var what :=
      if key == "max_workers" then "a positive integer"
      else if key == "timeout" then "a positive number"
      else if key == "parallel" || key == "critical" then "a boolean"
      else "a non-negative integer";
    "'" + context + "." + key + "' must be " + what
  }

  /** Checks the settings from the `j`-th of `CheckedSettings` on. */
  function CheckSettingsFrom(settings: Fields, context: string, j: nat): (r: Result<(), string>)
    requires j <= |CheckedSettings|
    ensures r.Ok? <==> forall n :: j <= n < |CheckedSettings| && CheckedSettings[n] in Dict.Keys(settings) ==>
                                      SettingOk(CheckedSettings[n], Dict.Get(settings, CheckedSettings[n]).value)
    decreases |CheckedSettings| - j
  {
    if j == |CheckedSettings| then Ok(())
    else
      var key := CheckedSettings[j];
      match Dict.Get(settings, key)
      case Some(v) =>
        if !SettingOk(key, v) then Err(SettingMessage(key, context))
        else CheckSettingsFrom(settings, context, j + 1)
      case None => CheckSettingsFrom(settings, context, j + 1)
  }

  /** `_validate_phase_settings(settings, context)`: raises on the first present setting
      of the wrong type (in the order max_workers, timeout, parallel, critical,
      min_success, retry); absent settings are not checked. */
  function ValidatePhaseSettings(settings: Fields, context: string): (r: Result<(), string>)
    ensures r.Ok? <==> SettingsOk(settings)
    ensures r.Err? ==> exists key :: key in CheckedSettings && r.error == SettingMessage(key, context)
    ensures r.Err? ==>
      exists n :: 0 <= n < |CheckedSettings| && SettingFails(settings, n)
        && r.error == SettingMessage(CheckedSettings[n], context)
        && forall m :: 0 <= m < n ==> !SettingFails(settings, m)
  {
    var r := CheckSettingsFrom(settings, context, 0);
    assert r.Ok? <==> SettingsOk(settings) by {
      if !SettingsOk(settings) {
        var key :| key in CheckedSettings && key in Dict.Keys(settings) && !SettingOk(key, Dict.Get(settings, key).value);
        var n :| 0 <= n < |CheckedSettings| && CheckedSettings[n] == key;
      }
    }
    SettingsErrorNamesKey(settings, context, 0);
    SettingsErrorIsFirst(settings, context, 0);
    r
  }

  /** The `n`-th checked setting is present and has the wrong type. */
  predicate SettingFails(settings: Fields, n: nat)
    requires n < |CheckedSettings|
  {
    CheckedSettings[n] in Dict.Keys(settings) && !SettingOk(CheckedSettings[n], Dict.Get(settings, CheckedSettings[n]).value)
  }

  /** An error from the `j`-th check on names the first failing setting from there. */
  lemma {:induction false} SettingsErrorIsFirst(settings: Fields, context: string, j: nat)
    requires j <= |CheckedSettings|
    ensures var r := CheckSettingsFrom(settings, context, j);
      r.Err? ==>
        exists n :: j <= n < |CheckedSettings| && SettingFails(settings, n)
          && r.error == SettingMessage(CheckedSettings[n], context)
          && forall m :: j <= m < n ==> !SettingFails(settings, m)
    decreases |CheckedSettings| - j
  {
    SettingsCheckedUpTo(settings, context, j);
  }

  /** The first checked setting from the `j`-th on that fails, or
      `|CheckedSettings|` when none does. */
  function FirstFailing(settings: Fields, j: nat): (n: nat)
    requires j <= |CheckedSettings|
    ensures j <= n <= |CheckedSettings|
    ensures forall m :: j <= m < n ==> !SettingFails(settings, m)
    ensures n < |CheckedSettings| ==> SettingFails(settings, n)
    decreases |CheckedSettings| - j
  {
    if j == |CheckedSettings| || SettingFails(settings, j) then j
    else FirstFailing(settings, j + 1)
  }

  /** The checks from the `j`-th on stop at the first failing setting. */
  lemma {:induction false} SettingsCheckedUpTo(settings: Fields, context: string, j: nat)
    requires j <= |CheckedSettings|
    ensures var n := FirstFailing(settings, j);
      CheckSettingsFrom(settings, context, j) ==
        if n < |CheckedSettings| then Err(SettingMessage(CheckedSettings[n], context)) else Ok(())
    decreases |CheckedSettings| - j
  {
    if j < |CheckedSettings| {
      var key := CheckedSettings[j];
      if SettingFails(settings, j) {
        assert Dict.Get(settings, key).Some?;
      } else {
        assert CheckSettingsFrom(settings, context, j) == CheckSettingsFrom(settings, context, j + 1);
        SettingsCheckedUpTo(settings, context, j + 1);
      }
    }
  }

  lemma {:induction false} SettingsErrorNamesKey(settings: Fields, context: string, j: nat)
    requires j <= |CheckedSettings|
    ensures CheckSettingsFrom(settings, context, j).Err? ==>
      exists key :: key in CheckedSettings && CheckSettingsFrom(settings, context, j).error == SettingMessage(key, context)
    decreases |CheckedSettings| - j
  {
    if j < |CheckedSettings| {
      SettingsErrorNamesKey(settings, context, j + 1);
    }
  }

  /** What `validate_config` demands of one phase entry. */
  ghost predicate PhaseEntryOk(p: Value) {
    && p.Object?
    && "name" in Dict.Keys(p.fields)
    && "tools" in Dict.Keys(p.fields)
    && Dict.Get(p.fields, "tools").value.List?
    && SettingsOk(p.fields)
  }

  predicate HasName(p: Value) {
    p.Object? && "name" in Dict.Keys(p.fields)
  }

  /** The name of a phase entry that has one. */
  function PhaseName(p: Value): Value
    requires HasName(p)
  {
    Dict.Get(p.fields, "name").value
  }

  /** No two named phases share a name. */
  predicate PhaseNamesDistinct(phases: seq<Value>) {
    forall i, j :: 0 <= i < j < |phases| && HasName(phases[i]) && HasName(phases[j]) ==>
      PhaseName(phases[i]) != PhaseName(phases[j])
  }

  function PhaseContext(i: nat, name: Value): string {
    "phases[" + IntToString(i) + "] (" + PyStr(name) + ")"
  }

  /** The phase entries from `i` on are valid, their names pairwise distinct and none
      among `seen`. */
  ghost predicate PhasesOkFrom(phases: seq<Value>, i: nat, seen: seq<Value>)
    requires i <= |phases|
  {
    && (forall j :: i <= j < |phases| ==> PhaseEntryOk(phases[j]) && PhaseName(phases[j]) !in seen)
    && (forall a, b :: i <= a < b < |phases| && HasName(phases[a]) && HasName(phases[b]) ==>
          PhaseName(phases[a]) != PhaseName(phases[b]))
  }

  /** A valid entry with a new name passes exactly when the rest does, its name now seen. */
  lemma PhasesOkStep(phases: seq<Value>, i: nat, seen: seq<Value>)
    requires i < |phases| && PhaseEntryOk(phases[i]) && PhaseName(phases[i]) !in seen
    ensures PhasesOkFrom(phases, i, seen) <==> PhasesOkFrom(phases, i + 1, seen + [PhaseName(phases[i])])
  {
    var name := PhaseName(phases[i]);
    if PhasesOkFrom(phases, i, seen) {
      forall j | i + 1 <= j < |phases|
        ensures PhaseName(phases[j]) !in seen + [name]
      {
        assert PhaseName(phases[j]) != name;
      }
    }
    if PhasesOkFrom(phases, i + 1, seen + [name]) {
      forall j | i < j < |phases|
        ensures PhaseName(phases[j]) != name && PhaseName(phases[j]) !in seen
      {
        assert PhaseName(phases[j]) !in seen + [name];
      }
    }
  }

  /** The loop over `phases` from index `i` on, with `seen` the names met so far. */
  function CheckPhasesFrom(phases: seq<Value>, i: nat, seen: seq<Value>): (r: Result<(), string>)
    requires i <= |phases|
    ensures r.Ok? <==> PhasesOkFrom(phases, i, seen)
    decreases |phases| - i
  {
    if i == |phases| then Ok(())
    else
      var index := "phases[" + IntToString(i) + "]";
      match phases[i]
      case Object(fields) =>
        if "name" !in Dict.Keys(fields) then Err("'" + index + ".name' is required")
        else
          var name := Dict.Get(fields, "name").value;
          if name in seen then Err("Duplicate phase name: '" + PyStr(name) + "'")
          else if "tools" !in Dict.Keys(fields) then
            Err("'" + index + ".tools' is required for phase '" + PyStr(name) + "'")
          else if !Dict.Get(fields, "tools").value.List? then Err("'" + index + ".tools' must be a list")
          else
            (match ValidatePhaseSettings(fields, PhaseContext(i, name))
             case Err(e) => Err(e)
             case Ok(_) =>
               PhasesOkStep(phases, i, seen);
               CheckPhasesFrom(phases, i + 1, seen + [name]))
      case _ => Err("'" + index + "' must be a dictionary")
  }

  /** From the start, with no name seen, the loop's condition is: every entry valid and
      names pairwise distinct. */
  lemma PhasesOkStart(phases: seq<Value>)
    ensures PhasesOkFrom(phases, 0, []) <==>
      (forall j :: 0 <= j < |phases| ==> PhaseEntryOk(phases[j])) && PhaseNamesDistinct(phases)
  {
  }

  ghost predicate ModelsOk(models: Fields) {
    forall i :: 0 <= i < |models| ==> models[i].1.Object? && "model" in Dict.Keys(models[i].1.fields)
  }

  /** The loop over `models` from entry `i` on. */
  function CheckModelsFrom(models: Fields, i: nat): (r: Result<(), string>)
    requires i <= |models|
    ensures r.Ok? <==> forall j :: i <= j < |models| ==> models[j].1.Object? && "model" in Dict.Keys(models[j].1.fields)
    decreases |models| - i
  {
    if i == |models| then Ok(())
    else
      var (stage, modelConfig) := models[i];
      if !modelConfig.Object? then Err("'models." + stage + "' must be a dictionary")
      else if "model" !in Dict.Keys(modelConfig.fields) then Err("'models." + stage + ".model' is required")
      else CheckModelsFrom(models, i + 1)
  }

  /** The workflow section is a mapping with a truthy `name`. */
  ghost predicate WorkflowOk(config: Fields) {
    var workflow := GetOr(config, "workflow", Object([]));
    workflow.Object? && "name" in Dict.Keys(workflow.fields) && Truthy(Dict.Get(workflow.fields, "name").value)
  }

  /** The workflow checks of `validate_config`. */
  function CheckWorkflow(config: Fields): (r: Result<(), string>)
    ensures r.Ok? <==> WorkflowOk(config)
    ensures !GetOr(config, "workflow", Object([])).Object? ==> r == Err("'workflow' must be a dictionary")
    ensures GetOr(config, "workflow", Object([])).Object? && r.Err? ==> r == Err("'workflow.name' is required")
  {
    var workflow := GetOr(config, "workflow", Object([]));
    if !workflow.Object? then Err("'workflow' must be a dictionary")
    else if "name" !in Dict.Keys(workflow.fields) || !Truthy(Dict.Get(workflow.fields, "name").value) then
      Err("'workflow.name' is required")
    else Ok(())
  }

  /** The defaults section is a mapping whose settings have the right types. */
  ghost predicate DefaultsOk(config: Fields) {
    var defaults := GetOr(config, "defaults", Object([]));
    defaults.Object? && SettingsOk(defaults.fields)
  }

  /** The defaults checks of `validate_config`. */
  function CheckDefaults(config: Fields): (r: Result<(), string>)
    ensures r.Ok? <==> DefaultsOk(config)
    ensures !GetOr(config, "defaults", Object([])).Object? ==> r == Err("'defaults' must be a dictionary")
    ensures GetOr(config, "defaults", Object([])).Object? ==>
      r == ValidatePhaseSettings(GetOr(config, "defaults", Object([])).fields, "defaults")
  {
    var defaults := GetOr(config, "defaults", Object([]));
    if !defaults.Object? then Err("'defaults' must be a dictionary")
    else ValidatePhaseSettings(defaults.fields, "defaults")
  }

  /** The phases section is a non-empty list of valid entries with distinct names. */
  ghost predicate PhasesSectionOk(config: Fields) {
    var phases := GetOr(config, "phases", List([]));
    && phases.List? && phases.items != []
    && (forall i :: 0 <= i < |phases.items| ==> PhaseEntryOk(phases.items[i]))
    && PhaseNamesDistinct(phases.items)
  }

  /** The phases checks of `validate_config`. */
  function CheckPhases(config: Fields): (r: Result<(), string>)
    ensures r.Ok? <==> PhasesSectionOk(config)
    ensures !GetOr(config, "phases", List([])).List? ==> r == Err("'phases' must be a list")
    ensures GetOr(config, "phases", List([])) == List([]) ==> r == Err("'phases' must contain at least one phase")
  {
    var phases := GetOr(config, "phases", List([]));
    if !phases.List? then Err("'phases' must be a list")
    else if |phases.items| == 0 then Err("'phases' must contain at least one phase")
    else
      PhasesOkStart(phases.items);
      CheckPhasesFrom(phases.items, 0, [])
  }

  /** The models section is a mapping whose every entry is a mapping with a `model`. */
  ghost predicate ModelsSectionOk(config: Fields) {
    var models := GetOr(config, "models", Object([]));
    models.Object? && ModelsOk(models.fields)
  }

  /** The models checks of `validate_config`. */
  function CheckModels(config: Fields): (r: Result<(), string>)
    ensures r.Ok? <==> ModelsSectionOk(config)
    ensures !GetOr(config, "models", Object([])).Object? ==> r == Err("'models' must be a dictionary")
  {
    var models := GetOr(config, "models", Object([]));
    if !models.Object? then Err("'models' must be a dictionary")
    else CheckModelsFrom(models.fields, 0)
  }

  /** Everything `validate_config` demands, section by section. */
  ghost predicate ConfigOk(config: Fields) {
    && "workflow" in Dict.Keys(config)
    && "phases" in Dict.Keys(config)
    && WorkflowOk(config)
    && DefaultsOk(config)
    && PhasesSectionOk(config)
    && ModelsSectionOk(config)
  }

  /** `validate_config(config)`: the checks run in source order and the first that
      fails raises; it passes exactly when every rule of `ConfigOk` holds. */
  function ValidateConfig(config: Fields): (r: Result<(), string>)
    ensures r.Ok? <==> ConfigOk(config)
    ensures "workflow" !in Dict.Keys(config) ==> r == Err("Missing required configuration field: workflow")
    ensures "workflow" in Dict.Keys(config) && "phases" !in Dict.Keys(config) ==> r == Err("Missing required configuration field: phases")
    ensures "workflow" in Dict.Keys(config) && "phases" in Dict.Keys(config) ==>
      && (!WorkflowOk(config) ==> r == CheckWorkflow(config))
      && (WorkflowOk(config) && !DefaultsOk(config) ==> r == CheckDefaults(config))
      && (WorkflowOk(config) && DefaultsOk(config) && !PhasesSectionOk(config) ==> r == CheckPhases(config))
      && (WorkflowOk(config) && DefaultsOk(config) && PhasesSectionOk(config) ==> r == CheckModels(config))
  {
    if "workflow" !in Dict.Keys(config) then Err("Missing required configuration field: workflow")
    else if "phases" !in Dict.Keys(config) then Err("Missing required configuration field: phases")
    else
      var _ :- CheckWorkflow(config);
      var _ :- CheckDefaults(config);
      var _ :- CheckPhases(config);
      CheckModels(config)
  }

  /** Phase names of a valid config are pairwise distinct: the first repeated name is
      reported as a duplicate. */
  lemma ValidPhaseNamesDistinct(config: Fields, i: nat, j: nat)
    requires ValidateConfig(config).Ok?
    requires var phases := Dict.Get(config, "phases").value; phases.List? && i < j < |phases.items|
    ensures var phases := Dict.Get(config, "phases").value.items;
      PhaseEntryOk(phases[i]) && PhaseEntryOk(phases[j]) && PhaseName(phases[i]) != PhaseName(phases[j])
  {
  }

  /** Two phases with the same name make validation fail, whatever else the config holds. */
  lemma DuplicatePhaseRejected(config: Fields, i: nat, j: nat)
    requires "phases" in Dict.Keys(config)
    requires var phases := Dict.Get(config, "phases").value;
      && phases.List? && i < j < |phases.items|
      && phases.items[i].Object? && phases.items[j].Object?
      && "name" in Dict.Keys(phases.items[i].fields) && "name" in Dict.Keys(phases.items[j].fields)
      && PhaseName(phases.items[i]) == PhaseName(phases.items[j])
    ensures ValidateConfig(config).Err?
  {
  }

  // ---------------------------------------------------------------------------
  // get_phases, get_phase_by_name, get_model_config
  // ---------------------------------------------------------------------------

  /** The three layers of a resolved phase setting: the phase's own value, else the
      config's `defaults`, else `DEFAULT_PHASE_SETTINGS`. */
  function Layered(phase: Fields, defaults: Fields, k: string): Option<Value> {
    LayeredOver(DefaultPhaseSettings, defaults, phase, k)
  }

  /** The value of `k` in the last layer that has it: `second`, else `first`, else `base`. */
  function LayeredOver(base: Fields, first: Fields, second: Fields, k: string): Option<Value> {
    if Dict.LastValue(second, k).Some? then Dict.LastValue(second, k)
    else if Dict.LastValue(first, k).Some? then Dict.LastValue(first, k)
    else Dict.Get(base, k)
  }

  /** One resolved phase: `DEFAULT_PHASE_SETTINGS`, updated with `defaults`, updated
      with the phase. */
  function ResolvePhase(phase: Fields, defaults: Fields): (r: Fields)
    ensures forall k :: Dict.Get(r, k) == Layered(phase, defaults, k)
    ensures Dict.Keys(DefaultPhaseSettings) <= Dict.Keys(r)
    ensures Dict.Distinct(Dict.Keys(r))
  {
    DefaultPhaseSettingsDistinct();
    UpdateTwice(DefaultPhaseSettings, defaults, phase)
  }

  /** `base` updated with `first`, then with `second`: each key takes its value from
      the last layer that has it. */
  function UpdateTwice(base: Fields, first: Fields, second: Fields): (r: Fields)
    requires Dict.Distinct(Dict.Keys(base))
    ensures forall k :: Dict.Get(r, k) == LayeredOver(base, first, second, k)
    ensures Dict.Keys(base) <= Dict.Keys(r)
    ensures Dict.Distinct(Dict.Keys(r))
  {
    Dict.Update(Dict.Update(base, first), second)
  }

  /** `get_defaults(config)`: the config's `defaults`, else a copy of
      `DEFAULT_PHASE_SETTINGS`. */
  function GetDefaults(config: Fields): (r: Value)
    ensures "defaults" !in Dict.Keys(config) ==> r == Object(DefaultPhaseSettings)
    ensures "defaults" in Dict.Keys(config) ==> Dict.Get(config, "defaults") == Some(r)
  {
    GetOr(config, "defaults", Object(DefaultPhaseSettings))
  }

  /** The items `get_phases` loops over: what `for phase in phases` visits. */
  function PhaseItems(config: Fields): Result<seq<Value>, string> {
    Iterate(GetOr(config, "phases", List([])))
  }

  /** `get_phases(config)`: for each item the phases loop visits, in order,
      `DEFAULT_PHASE_SETTINGS` updated with `defaults` and then with the item.
      `defaults` is read only when there is a phase to resolve, so with no phases it
      may be anything; otherwise the first `dict.update` that raises ends the call
      (`defaults` is applied before the first phase). */
  function GetPhases(config: Fields): (r: Result<seq<Fields>, string>)
    ensures PhaseItems(config).Err? ==> r == Err(PhaseItems(config).error)
    ensures PhaseItems(config) == Ok([]) ==> r == Ok([])
    ensures PhaseItems(config).Ok? && PhaseItems(config).value != [] ==>
      r == ResolveItems(PhaseItems(config).value, GetDefaults(config))
  {
    var phases :- PhaseItems(config);
    if phases == [] then Ok([]) else ResolveItems(phases, GetDefaults(config))
  }

  /** The loop body of `get_phases` over at least one item: `defaults` is applied
      before the first item, and the first `dict.update` that raises ends the call;
      otherwise one resolved phase per item, in order. */
  function ResolveItems(phases: seq<Value>, defaults: Value): (r: Result<seq<Fields>, string>)
    ensures UpdateArg(defaults).Err? ==> r == Err(UpdateArg(defaults).error)
    ensures r.Ok? <==> UpdateArg(defaults).Ok? && forall i :: 0 <= i < |phases| ==> UpdateArg(phases[i]).Ok?
    ensures UpdateArg(defaults).Ok? && r.Err? ==>
      exists i :: 0 <= i < |phases| && UpdateArg(phases[i]).Err? && r.error == UpdateArg(phases[i]).error
        && forall j :: 0 <= j < i ==> UpdateArg(phases[j]).Ok?
    ensures r.Ok? ==>
      && |r.value| == |phases|
      && forall i :: 0 <= i < |phases| ==> r.value[i] == ResolvePhase(UpdateArg(phases[i]).value, UpdateArg(defaults).value)
  {
    var d :- UpdateArg(defaults);
    var rs := UpdateArgs(phases);
    AllOkIff(rs);
    AllOkValues(rs);
    AllOkFirstError(rs);
    var layers :- AllOk(rs);
    Ok(ResolveAll(layers, d))
  }

  /** What `dict.update` reads from each of `items`, in order. */
  function UpdateArgs(items: seq<Value>): (rs: seq<Result<Fields, string>>)
    ensures |rs| == |items| && forall j :: 0 <= j < |items| ==> rs[j] == UpdateArg(items[j])
  {
    seq(|items|, j requires 0 <= j < |items| => UpdateArg(items[j]))
  }

  function ResolveAll(layers: seq<Fields>, defaults: Fields): (r: seq<Fields>)
    ensures |r| == |layers|
    ensures forall i :: 0 <= i < |layers| ==> r[i] == ResolvePhase(layers[i], defaults)
  {
    seq(|layers|, i requires 0 <= i < |layers| => ResolvePhase(layers[i], defaults))
  }

  /** Every resolved phase carries all six settings, each taken from the phase, else
      from `defaults`, else from `DEFAULT_PHASE_SETTINGS`. */
  lemma GetPhasesLayers(config: Fields, i: nat, k: string)
    requires GetPhases(config).Ok? && i < |GetPhases(config).value|
    ensures PhaseItems(config).Ok? && i < |PhaseItems(config).value|
    ensures UpdateArg(PhaseItems(config).value[i]).Ok? && UpdateArg(GetDefaults(config)).Ok?
    ensures Dict.Get(GetPhases(config).value[i], k) ==
      Layered(UpdateArg(PhaseItems(config).value[i]).value, UpdateArg(GetDefaults(config)).value, k)
    ensures k in Dict.Keys(DefaultPhaseSettings) ==> k in Dict.Keys(GetPhases(config).value[i])
  {
    GetPhasesAt(config, i);
    ResolvedLayers(UpdateArg(PhaseItems(config).value[i]).value, UpdateArg(GetDefaults(config)).value, k);
  }

  lemma ResolvedLayers(phase: Fields, defaults: Fields, k: string)
    ensures Dict.Get(ResolvePhase(phase, defaults), k) == Layered(phase, defaults, k)
    ensures k in Dict.Keys(DefaultPhaseSettings) ==> k in Dict.Keys(ResolvePhase(phase, defaults))
  {
  }

  lemma GetPhasesAt(config: Fields, i: nat)
    requires GetPhases(config).Ok? && i < |GetPhases(config).value|
    ensures PhaseItems(config).Ok? && i < |PhaseItems(config).value|
    ensures UpdateArg(PhaseItems(config).value[i]).Ok? && UpdateArg(GetDefaults(config)).Ok?
    ensures GetPhases(config).value[i] ==
      ResolvePhase(UpdateArg(PhaseItems(config).value[i]).value, UpdateArg(GetDefaults(config)).value)
  {
  }

  /** With nothing for the phases loop to visit (an empty list, string or mapping),
      `get_phases` returns [] whatever `defaults` holds. */
  lemma EmptyPhasesIgnoreDefaults(config: Fields)
    requires var p := Dict.Get(config, "phases"); p == Some(List([])) || p == Some(Str("")) || p == Some(Object([]))
    ensures GetPhases(config) == Ok([])
  {
    assert PhaseItems(config) == Ok([]);
  }

  /** A valid config resolves: one phase per configured entry, each entry's settings
      over the config's `defaults` (or `DEFAULT_PHASE_SETTINGS` when it has none). */
  lemma ValidConfigResolves(config: Fields)
    requires ValidateConfig(config).Ok?
    ensures var phases := Dict.Get(config, "phases").value;
      && phases.List? && GetDefaults(config).Object?
      && GetPhases(config).Ok?
      && |GetPhases(config).value| == |phases.items|
      && forall i :: 0 <= i < |phases.items| ==>
           phases.items[i].Object?
           && GetPhases(config).value[i] == ResolvePhase(phases.items[i].fields, GetDefaults(config).fields)
  {
    var phases := Dict.Get(config, "phases").value;
    ValidConfigShape(config);
    ResolveObjects(phases.items, GetDefaults(config));
  }

  /** What validation guarantees of the two sections `get_phases` reads. */
  lemma ValidConfigShape(config: Fields)
    requires ValidateConfig(config).Ok?
    ensures var phases := Dict.Get(config, "phases").value;
      && phases.List? && phases.items != []
      && (forall i :: 0 <= i < |phases.items| ==> phases.items[i].Object?)
      && PhaseItems(config) == Ok(phases.items)
      && GetDefaults(config).Object?
  {
    assert PhasesSectionOk(config) && DefaultsOk(config);
    var phases := Dict.Get(config, "phases").value;
    assert forall i :: 0 <= i < |phases.items| ==> PhaseEntryOk(phases.items[i]);
  }

  /** Resolving mapping entries over a mapping of defaults never fails. */
  lemma ResolveObjects(phases: seq<Value>, defaults: Value)
    requires phases != [] && defaults.Object?
    requires forall i :: 0 <= i < |phases| ==> phases[i].Object?
    ensures var r := ResolveItems(phases, defaults);
      && r.Ok? && |r.value| == |phases|
      && forall i :: 0 <= i < |phases| ==> r.value[i] == ResolvePhase(phases[i].fields, defaults.fields)
  {
    assert forall i :: 0 <= i < |phases| ==> UpdateArg(phases[i]) == Ok(phases[i].fields);
  }

  /** The index of the first phase named `name`, searching from `i`. */
  function FindPhase(phases: seq<Fields>, name: string, i: nat): (r: Option<nat>)
    requires i <= |phases|
    ensures r.Some? ==> i <= r.value < |phases| && Dict.Get(phases[r.value], "name") == Some(Str(name))
    ensures r.Some? ==> forall j :: i <= j < r.value ==> Dict.Get(phases[j], "name") != Some(Str(name))
    ensures r.None? ==> forall j :: i <= j < |phases| ==> Dict.Get(phases[j], "name") != Some(Str(name))
    decreases |phases| - i
  {
    if i == |phases| then None
    else if Dict.Get(phases[i], "name") == Some(Str(name)) then Some(i)
    else FindPhase(phases, name, i + 1)
  }

  /** The loop of `get_phase_by_name`: the first phase whose name equals `name`. */
  function FirstNamed(phases: seq<Fields>, name: string): (r: Option<Fields>)
    ensures r.Some? ==>
      exists i :: 0 <= i < |phases| && r.value == phases[i]
        && Dict.Get(r.value, "name") == Some(Str(name))
        && forall j :: 0 <= j < i ==> Dict.Get(phases[j], "name") != Some(Str(name))
    ensures r.None? ==> forall p :: p in phases ==> Dict.Get(p, "name") != Some(Str(name))
  {
    match FindPhase(phases, name, 0)
    case Some(i) => Some(phases[i])
    case None => None
  }

  /** `get_phase_by_name(name, config)`: the first resolved phase whose name equals
      `name`, or None; fails where `get_phases` fails. */
  function GetPhaseByName(name: string, config: Fields): (r: Result<Option<Fields>, string>)
    ensures GetPhases(config).Ok? <==> r.Ok?
    ensures r.Ok? ==> r.value == FirstNamed(GetPhases(config).value, name)
  {
    match GetPhases(config)
    case Err(e) => Err(e)
    case Ok(phases) => Ok(FirstNamed(phases, name))
  }

  function NoModel(stage: string): string {
    "No model configuration found for stage: " + stage
  }

  /** `get_model_config(stage, config)`: the stage's own entry, else the `default`
      entry, else an error naming the stage.  Only a mapping can be indexed by the
      stage: a list or string that contains the stage or `default` fails to index,
      one that contains neither reports the missing stage, and any other value does
      not support `in`. */
  function GetModelConfig(stage: string, config: Fields): (r: Result<Value, string>)
    ensures r.Ok? ==> GetOr(config, "models", Object([])).Object?
    ensures var models := GetOr(config, "models", Object([]));
      models.Object? ==>
        && (stage in Dict.Keys(models.fields) ==> r == Ok(Dict.Get(models.fields, stage).value))
        && (stage !in Dict.Keys(models.fields) && "default" in Dict.Keys(models.fields) ==>
              r == Ok(Dict.Get(models.fields, "default").value))
        && (stage !in Dict.Keys(models.fields) && "default" !in Dict.Keys(models.fields) ==>
              r == Err(NoModel(stage)))
    ensures var models := GetOr(config, "models", Object([]));
      models.List? ==>
        && (Str(stage) in models.items || Str("default") in models.items ==>
              r == Err("list indices must be integers or slices, not str"))
        && (Str(stage) !in models.items && Str("default") !in models.items ==> r == Err(NoModel(stage)))
    ensures var models := GetOr(config, "models", Object([]));
      models.Str? ==>
        && (Contains(models.s, stage) || Contains(models.s, "default") ==>
              r == Err("string indices must be integers, not 'str'"))
        && (!Contains(models.s, stage) && !Contains(models.s, "default") ==> r == Err(NoModel(stage)))
    ensures var models := GetOr(config, "models", Object([]));
      !(models.Object? || models.List? || models.Str?) ==>
        r == Err("argument of type '" + TypeName(models) + "' is not iterable")
  {
    var models := GetOr(config, "models", Object([]));
    match models
    case Object(fields) =>
      (match Dict.Get(fields, stage)
       case Some(m) => Ok(m)
       case None =>
         match Dict.Get(fields, "default")
         case Some(m) => Ok(m)
         case None => Err(NoModel(stage)))
    case List(items) =>
      if Str(stage) in items || Str("default") in items then Err("list indices must be integers or slices, not str")
      else Err(NoModel(stage))
    case Str(text) =>
      if Contains(text, stage) || Contains(text, "default") then Err("string indices must be integers, not 'str'")
      else Err(NoModel(stage))
    case _ => Err("argument of type '" + TypeName(models) + "' is not iterable")
  }

  /** The built-in model entry of `DEFAULT_CONFIG`. */
  const DefaultModel: Value := Object([("model", Str("claude-sonnet-4-20250514")), ("temperature", Float("0.3", 1)), ("max_tokens", Int(8000))])

  /** A config merged with `DEFAULT_CONFIG` that does not override `models` always
      resolves a model: the built-in default entry. */
  lemma DefaultModelAlwaysFound(config: Fields, stage: string)
    requires Dict.Distinct(Dict.Keys(config))
    requires "models" !in Dict.Keys(config)
    ensures GetModelConfig(stage, ApplyDefaults(config, DefaultConfig)) == Ok(DefaultModel)
  {
    DefaultConfigModels();
    ApplyDefaultsSpec(config, DefaultConfig, "models");
    ModelFallback(ApplyDefaults(config, DefaultConfig), stage, [("default", DefaultModel)]);
  }

  /** The `models` section of `DEFAULT_CONFIG` holds only the built-in default entry. */
  lemma DefaultConfigModels()
    ensures Dict.Get(DefaultConfig, "models") == Some(Object([("default", DefaultModel)]))
  {
    assert "phases"[0] != "models"[0];
    Dict.GetFirstAt(DefaultConfig, 3, "models");
  }

  lemma ModelFallback(config: Fields, stage: string, models: Fields)
    requires Dict.Get(config, "models") == Some(Object(models))
    requires models == [("default", DefaultModel)]
    ensures GetModelConfig(stage, config) == Ok(DefaultModel)
  {
    if stage != "default" {
      assert Dict.Get(models, stage) == None;
    }
  }
}
