/** `validate_config`: the rule tables of the resource categories, the backup entries
    and the global section; the categories loaded one after the other into
    `$resources`, so that a later category can refer to an earlier one; the global
    section; and the both-or-neither check of each `*_type`/`*_opts` pair, whose options
    go through the rules of the module they name. The option rules of a module
    (`get_options_validation`) are a parameter. */
module ConfigValidation {

  import opened Wrappers
  import opened Seqs
  import opened Values
  import opened Validators
  import opened Config

  // ---------------------------------------------------------------------------
  // The rule tables

  const ScheduleRules: seq<Rule> := [
    Rule("daily", true, Nil, IntegerValidator),
    Rule("weekly", true, Nil, IntegerValidator),
    Rule("monthly", true, Nil, IntegerValidator)
  ]

  const AwsAccessKeyRules: seq<Rule> := [
    Rule("public", true, Nil, AwsAccessKeyPublicValidator),
    Rule("secret", true, Nil, AwsAccessKeySecretValidator)
  ]

  const AwsS3BucketRules: seq<Rule> := [
    Rule("bucket", true, Nil, StringValidator),
    Rule("awsregion", true, Nil, AwsRegionValidator),
    Rule("accesskey", false, Nil, AwsAccessKeyReferenceValidator)
  ]

  const AwsSesMediaRules: seq<Rule> := [
    Rule("awsregion", true, Nil, AwsRegionValidator),
    Rule("accesskey", false, Nil, AwsAccessKeyReferenceValidator),
    Rule("mailsrc", true, Nil, EmailAddressValidator),
    Rule("maildst", true, Nil, EmailAddressValidator)
  ]

  const EntryRules: seq<Rule> := [
    Rule("enabled", false, Bool(true), BooleanValidator),
    Rule("backup_type", true, Nil, BackupTypeValidator),
    Rule("backup_opts", true, Nil, HashValidator),
    Rule("backup_schedule", true, Nil, ScheduleTypeValidator),
    Rule("encrypt_type", false, Nil, EncryptTypeValidator),
    Rule("encrypt_opts", false, Nil, HashValidator),
    Rule("remote_type", false, Nil, RemoteTypeValidator),
    Rule("remote_opts", false, Nil, HashValidator),
    Rule("remote_schedule", false, Nil, ScheduleTypeValidator),
    Rule("bakfile_dir", false, Nil, DirectoryValidator),
    Rule("bakfile_owner", false, Nil, StringValidator),
    Rule("bakfile_group", false, Nil, StringValidator),
    Rule("bakfile_mode", false, Nil, IntegerValidator),
    Rule("bakfile_basename", false, Nil, StringValidator)
  ]

  const GlobalRules: seq<Rule> := [
    Rule("day_of_week", true, Str("Mon"), DayOfWeekValidator),
    Rule("day_of_month", true, Int(1), DayOfMonthValidator),
    Rule("notify_type", false, Nil, NotifyTypeValidator),
    Rule("notify_opts", false, Nil, HashValidator),
    Rule("path_extra", false, Nil, DirListValidator),
    Rule("sleep_between", false, Int(0), IntegerValidator)
  ]

  /** The resource categories, in the order `validate_config` loads them. */
  const ResourceCategories: seq<(string, seq<Rule>)> := [
    ("schedules", ScheduleRules),
    ("aws_access_keys", AwsAccessKeyRules),
    ("aws_s3_buckets", AwsS3BucketRules),
    ("aws_ses_medias", AwsSesMediaRules)
  ]

  const ResourceNames: seq<string> := ["schedules", "aws_access_keys", "aws_s3_buckets", "aws_ses_medias"]

  /** The module categories an entry names, in the order they are checked. */
  const PluginKinds: seq<ModuleKind> := [BackupModule, EncryptModule, RemoteModule]

  /** `get_options_validation` of the implementation registered under a name. */
  type OptionRules = (ModuleKind, string) -> seq<Rule>

  // ---------------------------------------------------------------------------
  // Raises

  const GlobalFailed := "Failed to validate the global section of the configuration"
  const NotifyPairMissing := "You must provide both a type and arguments for the nofitication ('notify_type' and 'notify_opts')"
  const NotifyFailed := "Validation failed for the notify options of the global configuration"
  const NoModuleClass := "undefined method 'new' for nil"

  function PluginPairMissing(m: ModuleKind): string
  {
    var p := ModuleName(m);
    "You must provide both a type ('" + p + "_type') and arguments ('" + p + "_opts') for the '" + p + "' module"
  }

  function NoSuchModule(m: ModuleKind, t: Value): string
  {
    "ERROR: Cannot find '" + ModuleName(m) + "' module with this name: '" + Show(t) + "'"
  }

  function EntryFailed(name: string): string
  {
    "Validation failed for the the '" + name + "' entry options"
  }

  // ---------------------------------------------------------------------------
  // The resource categories

  /** One category loaded and stored into `$resources` (`nil` when absent); the
      validators see the categories stored before it. */
  function LoadResource(config: seq<(string, Value)>, probes: Probes, modules: Registry,
                        resources: seq<(string, Value)>, cat: (string, seq<Rule>)): Result<seq<(string, Value)>>
  {
    var loaded := LoadedCategory(config, cat.0, cat.1, Env(probes, resources, modules));
    if loaded.Err? then Err(loaded.reason)
    else Ok(Store(resources, cat.0, if loaded.value.Some? then Hash(loaded.value.value) else Nil))
  }

  function ResourceStep(config: seq<(string, Value)>, probes: Probes, modules: Registry)
    : (seq<(string, Value)>, (string, seq<Rule>)) -> Result<seq<(string, Value)>>
  {
    (resources: seq<(string, Value)>, cat: (string, seq<Rule>)) => LoadResource(config, probes, modules, resources, cat)
  }

  function LoadedResources(config: seq<(string, Value)>, probes: Probes, modules: Registry): Result<seq<(string, Value)>>
  {
    FoldResults(ResourceCategories, [], ResourceStep(config, probes, modules))
  }

  // ---------------------------------------------------------------------------
  // The `*_type`/`*_opts` pairs

  /** The check of one module category of an entry: the type and the options are both
      given or both absent; when both are set, the type must name a registered module and
      the options pass that module's rules, and replace the given ones. The instance the
      entry's `modules` hash receives is represented by its type name. */
  function PluginChecked(name: string, data: seq<(string, Value)>, m: ModuleKind, env: Env, optionRules: OptionRules)
    : Result<seq<(string, Value)>>
  {
    var p := ModuleName(m);
    var t := FetchOrNil(data, p + "_type");
    var opts := FetchOrNil(data, p + "_opts");
    if t.Nil? != opts.Nil? then Err(PluginPairMissing(m))
    else if !Truthy(t) || !Truthy(opts) then Ok(data)
    else if !(t.Str? && t.s in ModuleNames(env.modules, m)) then Err(NoSuchModule(m, t))
    else
      var parsed := ParseRules(opts, optionRules(m, t.s), env);
      if parsed.Err? then Err(parsed.reason)
      else if parsed.value.errors != [] then Err(EntryFailed(name))
      else
        var mods := FetchOrNil(data, "modules");
        var mods' := Hash(Store(if mods.Hash? then mods.pairs else [], p, t));
        Ok(Store(Store(data, "modules", mods'), p + "_opts", Hash(parsed.value.results)))
  }

  function PluginStep(name: string, env: Env, optionRules: OptionRules): (seq<(string, Value)>, ModuleKind) -> Result<seq<(string, Value)>>
  {
    (data: seq<(string, Value)>, m: ModuleKind) => PluginChecked(name, data, m, env, optionRules)
  }

  /** One backup entry: a `modules` hash is added, then its three module categories are
      checked. */
  function CheckedEntry(env: Env, optionRules: OptionRules, entry: (string, Value)): Result<(string, Value)>
  {
    var (name, data) := entry;
    if !data.Hash? then Err(NoHasKey)
    else
      var checked := FoldResults(PluginKinds, Store(data.pairs, "modules", Hash([])), PluginStep(name, env, optionRules));
      if checked.Err? then Err(checked.reason) else Ok((name, Hash(checked.value)))
  }

  function EntryStep(env: Env, optionRules: OptionRules): ((string, Value)) -> Result<(string, Value)>
  {
    (entry: (string, Value)) => CheckedEntry(env, optionRules, entry)
  }

  /** The notification pair of the global section, checked like a module pair. */
  function NotifyChecked(globcfg: seq<(string, Value)>, env: Env, optionRules: OptionRules): Result<seq<(string, Value)>>
  {
    var t := FetchOrNil(globcfg, "notify_type");
    var args := FetchOrNil(globcfg, "notify_opts");
    if t.Nil? != args.Nil? then Err(NotifyPairMissing)
    else if !Truthy(t) || !Truthy(args) then Ok(globcfg)
    else if !(t.Str? && t.s in env.modules.notify) then Err(NoModuleClass)
    else
      var parsed := ParseRules(args, optionRules(NotifyModule, t.s), env);
      if parsed.Err? then Err(parsed.reason)
      else if parsed.value.errors != [] then Err(NotifyFailed)
      else Ok(Store(globcfg, "notify_opts", Hash(parsed.value.results)))
  }

  // ---------------------------------------------------------------------------
  // The whole validation

  /** What `validate_config` leaves in `$resources`, `$entries` and `$globcfg`. */
  datatype Validated = Validated(resources: seq<(string, Value)>, entries: seq<(string, Value)>, globcfg: seq<(string, Value)>)

  function ValidatedConfig(config: seq<(string, Value)>, probes: Probes, modules: Registry, optionRules: OptionRules): Result<Validated>
  {
    var resources := LoadedResources(config, probes, modules);
    if resources.Err? then Err(resources.reason)
    else
      var env := Env(probes, resources.value, modules);
      var entries := LoadedCategory(config, "entries", EntryRules, env);
      if entries.Err? then Err(entries.reason)
      else
        var global := ParseRules(FetchOrNil(config, "global"), GlobalRules, env);
        if global.Err? then Err(global.reason)
        else if global.value.errors != [] then Err(GlobalFailed)
        else
          var globcfg := NotifyChecked(global.value.results, env, optionRules);
          if globcfg.Err? then Err(globcfg.reason)
          else if entries.value.None? then Err(NoEach)
          else
            var checked := MapResults(entries.value.value, EntryStep(env, optionRules));
            if checked.Err? then Err(checked.reason)
            else Ok(Validated(resources.value, checked.value, globcfg.value))
  }

  /** The loop over the module categories of one entry. */
  method CheckEntry(env: Env, optionRules: OptionRules, entryname: string, entrydata: Value) returns (r: Result<(string, Value)>)
    ensures r == CheckedEntry(env, optionRules, (entryname, entrydata))
  {
    if !entrydata.Hash? {
      return Err(NoHasKey);
    }
    var init := Store(entrydata.pairs, "modules", Hash([]));
    var data := init;
    ghost var step := PluginStep(entryname, env, optionRules);
    var i := 0;
    while i < |PluginKinds|
      invariant 0 <= i <= |PluginKinds|
      invariant FoldResults(PluginKinds[..i], init, step) == Ok(data)
    {
      FoldResultsStep(PluginKinds, i, init, step);
      var next := PluginChecked(entryname, data, PluginKinds[i], env, optionRules);
      if next.Err? {
        FoldResultsFailurePersists(PluginKinds, i + 1, init, step);
        return Err(next.reason);
      }
      data := next.value;
      i := i + 1;
    }
    assert PluginKinds[..i] == PluginKinds;
    return Ok((entryname, Hash(data)));
  }

  /** `validate_config`: the categories, the entries, the global section, the
      notification pair, then the loop over the entries. */
  method ValidateConfig(config: seq<(string, Value)>, probes: Probes, modules: Registry, optionRules: OptionRules)
    returns (r: Result<Validated>)
    ensures r == ValidatedConfig(config, probes, modules, optionRules)
  {
    var resources: seq<(string, Value)> := [];
    ghost var step := ResourceStep(config, probes, modules);
    var i := 0;
    while i < |ResourceCategories|
      invariant 0 <= i <= |ResourceCategories|
      invariant FoldResults(ResourceCategories[..i], [], step) == Ok(resources)
    {
      FoldResultsStep(ResourceCategories, i, [], step);
      var (catname, rules) := ResourceCategories[i];
      var loaded := LoadCategory(config, catname, rules, Env(probes, resources, modules));
      if loaded.Err? {
        FoldResultsFailurePersists(ResourceCategories, i + 1, [], step);
        return Err(loaded.reason);
      }
      resources := Store(resources, catname, if loaded.value.Some? then Hash(loaded.value.value) else Nil);
      i := i + 1;
    }
    assert ResourceCategories[..i] == ResourceCategories;
    var env := Env(probes, resources, modules);
    var entries := LoadCategory(config, "entries", EntryRules, env);
    if entries.Err? {
      return Err(entries.reason);
    }
    var global := ParseAndValidateRules(FetchOrNil(config, "global"), GlobalRules, env);
    if global.Err? {
      return Err(global.reason);
    }
    if global.value.errors != [] {
      return Err(GlobalFailed);
    }
    var globcfg := NotifyChecked(global.value.results, env, optionRules);
    if globcfg.Err? {
      return Err(globcfg.reason);
    }
    if entries.value.None? {
      return Err(NoEach);
    }
    var list := entries.value.value;
    var checked: seq<(string, Value)> := [];
    var j := 0;
    while j < |list|
      invariant 0 <= j <= |list|
      invariant MapResults(list[..j], EntryStep(env, optionRules)) == Ok(checked)
    {
      MapResultsStep(list, j, EntryStep(env, optionRules));
      var entry := CheckEntry(env, optionRules, list[j].0, list[j].1);
      if entry.Err? {
        MapResultsFailurePersists(list, j + 1, EntryStep(env, optionRules));
        return Err(entry.reason);
      }
      checked := checked + [entry.value];
      j := j + 1;
    }
    assert list[..j] == list;
    return Ok(Validated(resources, checked, globcfg.value));
  }

  // ---------------------------------------------------------------------------
  // Properties

  /** A `*_type`/`*_opts` pair with exactly one side set raises; a pair with both sides
      absent leaves the entry alone; a pair with both sides set that passes names a
      registered module, and the entry then holds the parsed options and records the
      module. */
  lemma PluginPairs(name: string, data: seq<(string, Value)>, m: ModuleKind, env: Env, optionRules: OptionRules)
    ensures var r := PluginChecked(name, data, m, env, optionRules);
      var t := FetchOrNil(data, ModuleName(m) + "_type");
      var opts := FetchOrNil(data, ModuleName(m) + "_opts");
      && (t.Nil? != opts.Nil? ==> r == Err(PluginPairMissing(m)))
      && (t.Nil? && opts.Nil? ==> r == Ok(data))
      && (r.Ok? && Truthy(t) && Truthy(opts) ==>
            && t.Str? && t.s in ModuleNames(env.modules, m)
            && Passes(Parser(optionRules(m, t.s), env), opts)
            && Fetch(r.value, ModuleName(m) + "_opts") == Some(Options(Parser(optionRules(m, t.s), env), opts))
            && FetchOrNil(r.value, "modules").Hash?
            && Fetch(FetchOrNil(r.value, "modules").pairs, ModuleName(m)) == Some(t))
  {
    var p := ModuleName(m);
    var t := FetchOrNil(data, p + "_type");
    var opts := FetchOrNil(data, p + "_opts");
    var r := PluginChecked(name, data, m, env, optionRules);
    if r.Ok? && Truthy(t) && Truthy(opts) {
      var parsed := ParseRules(opts, optionRules(m, t.s), env);
      var mods := FetchOrNil(data, "modules");
      var mods' := Hash(Store(if mods.Hash? then mods.pairs else [], p, t));
      var d1 := Store(data, "modules", mods');
      assert r.value == Store(d1, p + "_opts", Hash(parsed.value.results));
      StoreFetch(d1, p + "_opts", Hash(parsed.value.results), p + "_opts");
      assert |p + "_opts"| != |"modules"|;
      StoreFetch(d1, p + "_opts", Hash(parsed.value.results), "modules");
      StoreFetch(data, "modules", mods', "modules");
      StoreFetch(if mods.Hash? then mods.pairs else [], p, t, p);
    }
  }

  /** The notification pair obeys the same both-or-neither rule. */
  lemma NotifyPair(globcfg: seq<(string, Value)>, env: Env, optionRules: OptionRules)
    ensures var r := NotifyChecked(globcfg, env, optionRules);
      var t := FetchOrNil(globcfg, "notify_type");
      var args := FetchOrNil(globcfg, "notify_opts");
      && (t.Nil? != args.Nil? ==> r == Err(NotifyPairMissing))
      && (t.Nil? && args.Nil? ==> r == Ok(globcfg))
      && (r.Ok? && Truthy(t) && Truthy(args) ==>
            && t.Str? && t.s in env.modules.notify
            && Passes(Parser(optionRules(NotifyModule, t.s), env), args)
            && Fetch(r.value, "notify_opts") == Some(Options(Parser(optionRules(NotifyModule, t.s), env), args)))
  {
    var t := FetchOrNil(globcfg, "notify_type");
    var args := FetchOrNil(globcfg, "notify_opts");
    var r := NotifyChecked(globcfg, env, optionRules);
    if r.Ok? && Truthy(t) && Truthy(args) {
      var parsed := ParseRules(args, optionRules(NotifyModule, t.s), env);
      StoreFetch(globcfg, "notify_opts", Hash(parsed.value.results), "notify_opts");
    }
  }

  /** The global section's rules name distinct options and start with its two mandatory
      schedule options. */
  lemma GlobalRulesNamed()
    ensures DistinctNames(GlobalRules) && |GlobalRules| >= 2
    ensures GlobalRules[0].name == "day_of_week" && GlobalRules[0].mandatory && GlobalRules[0].validator == DayOfWeekValidator
    ensures GlobalRules[1].name == "day_of_month" && GlobalRules[1].mandatory && GlobalRules[1].validator == DayOfMonthValidator
    ensures GlobalRules[0].defval == Str("Mon") && GlobalRules[1].defval == Int(1)
  {
  }

  /** `day_of_week` and `day_of_month` have defaults but are mandatory: a global section
      without them is refused, although the defaults are still filled in. */
  lemma GlobalDefaultsDoNotExcuse(global: seq<(string, Value)>, env: Env)
    requires !HasKey(global, "day_of_week") || !HasKey(global, "day_of_month")
    requires ParseRules(Hash(global), GlobalRules, env).Ok?
    ensures var p := ParseRules(Hash(global), GlobalRules, env).value;
      && (!HasKey(global, "day_of_week") ==>
            MandatoryAbsent("day_of_week") in p.errors && Fetch(p.results, "day_of_week") == Some(Str("Mon")))
      && (!HasKey(global, "day_of_month") ==>
            MandatoryAbsent("day_of_month") in p.errors && Fetch(p.results, "day_of_month") == Some(Int(1)))
  {
    GlobalRulesNamed();
    ScheduleRulesDefaults(global, GlobalRules, env);
  }

  /** The same for any rule list that starts with the two schedule rules. */
  lemma ScheduleRulesDefaults(global: seq<(string, Value)>, rules: seq<Rule>, env: Env)
    requires DistinctNames(rules) && |rules| >= 2
    requires rules[0] == Rule("day_of_week", true, Str("Mon"), DayOfWeekValidator)
    requires rules[1] == Rule("day_of_month", true, Int(1), DayOfMonthValidator)
    requires ParseRules(Hash(global), rules, env).Ok?
    ensures var p := ParseRules(Hash(global), rules, env).value;
      && (!HasKey(global, "day_of_week") ==>
            MandatoryAbsent("day_of_week") in p.errors && Fetch(p.results, "day_of_week") == Some(Str("Mon")))
      && (!HasKey(global, "day_of_month") ==>
            MandatoryAbsent("day_of_month") in p.errors && Fetch(p.results, "day_of_month") == Some(Int(1)))
  {
    if !HasKey(global, "day_of_week") {
      MandatoryDefault(Hash(global), rules, env, 0);
    }
    if !HasKey(global, "day_of_month") {
      MandatoryDefault(Hash(global), rules, env, 1);
    }
  }

  /** A global section that passes its rules and the notification check names the
      weekday and the day of the month the scheduling uses: a weekday number from 0
      (Sunday) to 6 for the day name given, and a day from 1 to 31. It is stated for any
      rule list that starts with the two schedule rules of the global section. */
  lemma ScheduleRulesPassed(global: Value, rules: seq<Rule>, env: Env, optionRules: OptionRules)
    requires DistinctNames(rules) && |rules| >= 2
    requires rules[0].name == "day_of_week" && rules[0].mandatory && rules[0].validator == DayOfWeekValidator
    requires rules[1].name == "day_of_month" && rules[1].mandatory && rules[1].validator == DayOfMonthValidator
    requires ParseRules(global, rules, env).Ok? && ParseRules(global, rules, env).value.errors == []
    requires NotifyChecked(ParseRules(global, rules, env).value.results, env, optionRules).Ok?
    ensures var g := NotifyChecked(ParseRules(global, rules, env).value.results, env, optionRules).value;
      && global.Hash? && HasKey(global.pairs, "day_of_week") && HasKey(global.pairs, "day_of_month")
      && FetchOrNil(g, "day_of_week").Int? && 0 <= FetchOrNil(g, "day_of_week").i < 7
      && FetchOrNil(global.pairs, "day_of_week").Str?
      && DayAbbreviations[FetchOrNil(g, "day_of_week").i] == FetchOrNil(global.pairs, "day_of_week").s
      && FetchOrNil(g, "day_of_month") == FetchOrNil(global.pairs, "day_of_month")
      && FetchOrNil(g, "day_of_month").Int? && 1 <= FetchOrNil(g, "day_of_month").i <= 31
  {
    var p := ParseRules(global, rules, env).value;
    var g := NotifyChecked(p.results, env, optionRules).value;
    var dow := FetchOrNil(global.pairs, "day_of_week");
    var dom := FetchOrNil(global.pairs, "day_of_month");
    PassedMandatory(global, rules, env, 0);
    PassedMandatory(global, rules, env, 1);
    var w := Validate(DayOfWeekValidator, dow, env);
    DayOfWeekValidatorNumbers(dow, env);
    DayOfMonthValidatorAccepts(dom, env);
    assert Fetch(p.results, "day_of_week") == Some(w.value.value);
    assert Fetch(p.results, "day_of_month") == Some(dom);
    NotifyKeepsSchedule(p.results, env, optionRules);
    assert "day_of_week"[0] != "notify_opts"[0] && "day_of_month"[0] != "notify_opts"[0];
    assert Fetch(g, "day_of_week") == Some(w.value.value);
    assert Fetch(g, "day_of_month") == Some(dom);
  }

  /** What a successful `validate_config` leaves in `$globcfg` is such a section. */
  lemma ValidatedGlobalSchedule(config: seq<(string, Value)>, probes: Probes, modules: Registry, optionRules: OptionRules)
    requires ValidatedConfig(config, probes, modules, optionRules).Ok?
    ensures var g := ValidatedConfig(config, probes, modules, optionRules).value.globcfg;
      var global := FetchOrNil(config, "global");
      && global.Hash? && HasKey(global.pairs, "day_of_week") && HasKey(global.pairs, "day_of_month")
      && FetchOrNil(g, "day_of_week").Int? && 0 <= FetchOrNil(g, "day_of_week").i < 7
      && FetchOrNil(global.pairs, "day_of_week").Str?
      && DayAbbreviations[FetchOrNil(g, "day_of_week").i] == FetchOrNil(global.pairs, "day_of_week").s
      && FetchOrNil(g, "day_of_month").Int? && 1 <= FetchOrNil(g, "day_of_month").i <= 31
  {
    var env := Env(probes, LoadedResources(config, probes, modules).value, modules);
    var parsed := ParseRules(FetchOrNil(config, "global"), GlobalRules, env);
    assert parsed.Ok? && parsed.value.errors == [];
    var globcfg := NotifyChecked(parsed.value.results, env, optionRules);
    assert globcfg.Ok? && ValidatedConfig(config, probes, modules, optionRules).value.globcfg == globcfg.value;
    GlobalRulesNamed();
    ScheduleRulesPassed(FetchOrNil(config, "global"), GlobalRules, env, optionRules);
  }

  /** The notification check touches `notify_opts` only. */
  lemma NotifyKeepsSchedule(globcfg: seq<(string, Value)>, env: Env, optionRules: OptionRules)
    requires NotifyChecked(globcfg, env, optionRules).Ok?
    ensures var g := NotifyChecked(globcfg, env, optionRules).value;
      forall key | key != "notify_opts" :: Fetch(g, key) == Fetch(globcfg, key)
  {
    var t := FetchOrNil(globcfg, "notify_type");
    var args := FetchOrNil(globcfg, "notify_opts");
    if Truthy(t) && Truthy(args) {
      var parsed := ParseRules(args, optionRules(NotifyModule, t.s), env);
      forall key | key != "notify_opts" ensures Fetch(NotifyChecked(globcfg, env, optionRules).value, key) == Fetch(globcfg, key) {
        StoreFetch(globcfg, "notify_opts", Hash(parsed.value.results), key);
      }
    }
  }

  /** The resources loaded from a list of categories with distinct names: one pair per
      category, in order, holding the loaded hash or `nil` when the configuration has no
      such category. */
  lemma {:induction false} ResourcesFromShape(config: seq<(string, Value)>, probes: Probes, modules: Registry,
                                              cats: seq<(string, seq<Rule>)>)
    requires forall i, j | 0 <= i < j < |cats| :: cats[i].0 != cats[j].0
    requires FoldResults(cats, [], ResourceStep(config, probes, modules)).Ok?
    ensures ResourceShape(config, FoldResults(cats, [], ResourceStep(config, probes, modules)).value, cats)
    decreases |cats|
  {
    if cats != [] {
      var step := ResourceStep(config, probes, modules);
      var n := |cats| - 1;
      var init := cats[..n];
      assert FoldResults(init, [], step).Ok? && FoldResults(cats, [], step) == step(FoldResults(init, [], step).value, cats[n]) by {
        FoldResultsStep(cats, n, [], step);
        assert cats[..n + 1] == cats;
      }
      ResourcesFromShape(config, probes, modules, init);
      var acc := FoldResults(init, [], step).value;
      assert !HasKey(acc, cats[n].0) by {
        forall k | 0 <= k < |acc| ensures acc[k].0 != cats[n].0 {
          assert acc[k].0 == init[k].0 == cats[k].0;
        }
      }
      LoadResourceAppends(config, probes, modules, acc, cats[n]);
      ResourceShapeSnoc(config, acc, cats, FoldResults(cats, [], step).value);
    }
  }

  /** The resources loaded for the categories `cats`: one pair per category, in order,
      holding the loaded hash or `nil` when the configuration has no such category. */
  predicate ResourceShape(config: seq<(string, Value)>, res: seq<(string, Value)>, cats: seq<(string, seq<Rule>)>)
  {
    && |res| == |cats|
    && forall k | 0 <= k < |res| ::
         && res[k].0 == cats[k].0
         && (res[k].1 == Nil <==> FetchOrNil(config, cats[k].0) == Nil)
         && (res[k].1.Hash? || res[k].1.Nil?)
  }

  lemma ResourceShapeSnoc(config: seq<(string, Value)>, acc: seq<(string, Value)>, cats: seq<(string, seq<Rule>)>,
                          res: seq<(string, Value)>)
    requires |cats| > 0 && ResourceShape(config, acc, cats[..|cats| - 1])
    requires |res| == |acc| + 1 && res[..|acc|] == acc && res[|acc|].0 == cats[|cats| - 1].0
    requires (res[|acc|].1 == Nil <==> FetchOrNil(config, cats[|cats| - 1].0) == Nil)
    requires res[|acc|].1.Hash? || res[|acc|].1.Nil?
    ensures ResourceShape(config, res, cats)
  {
    var n := |acc|;
    forall k | 0 <= k < n
      ensures res[k].0 == cats[k].0 && (res[k].1 == Nil <==> FetchOrNil(config, cats[k].0) == Nil) && (res[k].1.Hash? || res[k].1.Nil?)
    {
      assert res[k] == res[..n][k] && cats[k] == cats[..n][k];
    }
  }

  /** Loading a category not yet loaded appends one pair under its name, holding the
      loaded hash or `nil` when the configuration has no such category. */
  lemma LoadResourceAppends(config: seq<(string, Value)>, probes: Probes, modules: Registry,
                            resources: seq<(string, Value)>, cat: (string, seq<Rule>))
    requires !HasKey(resources, cat.0) && LoadResource(config, probes, modules, resources, cat).Ok?
    ensures var r := LoadResource(config, probes, modules, resources, cat).value;
      && |r| == |resources| + 1 && r[..|resources|] == resources && r[|resources|].0 == cat.0
      && (r[|resources|].1 == Nil <==> FetchOrNil(config, cat.0) == Nil)
      && (r[|resources|].1.Hash? || r[|resources|].1.Nil?)
  {
    var loaded := LoadedCategory(config, cat.0, cat.1, Env(probes, resources, modules));
    LoadedCategoryNil(config, cat.0, cat.1, Env(probes, resources, modules));
    var v := if loaded.value.Some? then Hash(loaded.value.value) else Nil;
    StoreAppends(resources, cat.0, v);
    assert LoadResource(config, probes, modules, resources, cat).value == resources + [(cat.0, v)];
  }

  /** `$resources` holds the four categories, in loading order, each either the loaded
      hash or `nil` when the configuration has no such category. */
  lemma ResourcesLoaded(config: seq<(string, Value)>, probes: Probes, modules: Registry)
    requires LoadedResources(config, probes, modules).Ok?
    ensures var res := LoadedResources(config, probes, modules).value;
      && Keys(res) == ResourceNames
      && forall k | 0 <= k < |res| :: (res[k].1 == Nil <==> FetchOrNil(config, res[k].0) == Nil) && (res[k].1.Hash? || res[k].1.Nil?)
  {
    ResourceCategoriesNamed();
    ResourcesFromShape(config, probes, modules, ResourceCategories);
    var res := LoadedResources(config, probes, modules).value;
    assert Keys(res) == ResourceNames;
  }

  /** The resource categories carry the resource names, each once. */
  lemma ResourceCategoriesNamed()
    ensures |ResourceCategories| == |ResourceNames|
    ensures forall k | 0 <= k < |ResourceNames| :: ResourceCategories[k].0 == ResourceNames[k]
    ensures forall i, j | 0 <= i < j < |ResourceCategories| :: ResourceCategories[i].0 != ResourceCategories[j].0
  {
  }

  lemma LoadedCategoryNil(config: seq<(string, Value)>, catname: string, rules: seq<Rule>, env: Env)
    requires LoadedCategory(config, catname, rules, env).Ok?
    ensures LoadedCategory(config, catname, rules, env).value.None? <==> FetchOrNil(config, catname) == Nil
  {
  }

  /** Every loaded entry is checked, in order and under its own name. */
  lemma EntriesKeepNames(config: seq<(string, Value)>, probes: Probes, modules: Registry, optionRules: OptionRules)
    requires ValidatedConfig(config, probes, modules, optionRules).Ok?
    ensures var resources := LoadedResources(config, probes, modules).value;
      var loaded := LoadedCategory(config, "entries", EntryRules, Env(probes, resources, modules));
      var v := ValidatedConfig(config, probes, modules, optionRules).value;
      && loaded.Ok? && loaded.value.Some?
      && Keys(v.entries) == Keys(loaded.value.value)
  {
    var resources := LoadedResources(config, probes, modules).value;
    var env := Env(probes, resources, modules);
    var list := LoadedCategory(config, "entries", EntryRules, env).value.value;
    MapResultsOk(list, EntryStep(env, optionRules));
    var checked := MapResults(list, EntryStep(env, optionRules)).value;
    forall k | 0 <= k < |list| ensures checked[k].0 == list[k].0 {
      assert EntryStep(env, optionRules)(list[k]).Ok?;
    }
  }

  /** An empty list of entries validates to no entries at all. */
  lemma EmptyEntryList(config: seq<(string, Value)>, probes: Probes, modules: Registry, optionRules: OptionRules)
    requires FetchOrNil(config, "entries") == Arr([])
    requires ValidatedConfig(config, probes, modules, optionRules).Ok?
    ensures ValidatedConfig(config, probes, modules, optionRules).value.entries == []
  {
    var resources := LoadedResources(config, probes, modules).value;
    LoadedCategoryFacts(config, "entries", EntryRules, Env(probes, resources, modules));
    EntriesKeepNames(config, probes, modules, optionRules);
  }
}
