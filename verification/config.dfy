/** The configuration rule engine (`parse_and_validate_rules`), the loading of one
    resource category (`load_category`) and the merge of the configuration fragments
    (`load_config`). A configuration hash is an ordered list of pairs (see `Values`);
    reading the YAML files is left to the caller, which hands over their parsed
    contents. */
module Config {

  import opened Wrappers
  import opened Text
  import opened Seqs
  import opened Sorting
  import opened Values
  import opened Validators

  /** `ValidationRule`: an option name, whether it must be given, the value used when it
      is not (`nil`: none), and the validator its value goes through. */
  datatype Rule = Rule(name: string, mandatory: bool, defval: Value, validator: Validator)

  /** The messages `parse_and_validate_rules` pushes onto `valerrs`. */
  datatype ConfigError =
    | MandatoryAbsent(name: string)
    | ValidationFailed(name: string, complaints: seq<Complaint>)
    | Unexpected(key: string)

  function DescribeAll(cs: seq<Complaint>): seq<string>
  {
    seq(|cs|, i requires 0 <= i < |cs| => Describe(cs[i]))
  }

  /** The text of a configuration error. */
  function DescribeError(e: ConfigError): string
  {
    match e
    case MandatoryAbsent(name) => "Option '" + name + "' is mandatory and absent"
    case ValidationFailed(name, cs) => "Validation of '" + name + "' failed: " + Join(DescribeAll(cs), ",")
    case Unexpected(key) =>
      "Unexpected configuration item '" + key + "': found no validation rule for an item with this name in this context"
  }

  /** What `parse_and_validate_rules` hands back: the `results` hash, and what it pushed
      onto `valerrs`. */
  datatype Parsed = Parsed(results: seq<(string, Value)>, errors: seq<ConfigError>)

  /** `has_key?` on something that is not a hash. */
  const NoHasKey := "undefined method 'has_key?'"

  /** `results[name] = value` when `value` is not `nil`. */
  function Keep(results: seq<(string, Value)>, name: string, v: Value): seq<(string, Value)>
  {
    if v.Nil? then results else Store(results, name, v)
  }

  /** One rule of the first loop: the mandatory check, then the validator on a given
      value or the default for a missing one, then the selected value is kept. */
  function ApplyRule(inhash: seq<(string, Value)>, env: Env, acc: Parsed, rule: Rule): Result<Parsed>
  {
    var errs := acc.errors + (if rule.mandatory && !HasKey(inhash, rule.name) then [MandatoryAbsent(rule.name)] else []);
    var present := Fetch(inhash, rule.name);
    if present.Some? then
      var v := Validate(rule.validator, present.value, env);
      if v.Err? then Err(v.reason)
      else
        var failed := if v.value.errmsg == [] then [] else [ValidationFailed(rule.name, v.value.errmsg)];
        Ok(Parsed(Keep(acc.results, rule.name, v.value.value), errs + failed))
    else Ok(Parsed(Keep(acc.results, rule.name, rule.defval), errs))
  }

  function RuleStep(inhash: seq<(string, Value)>, env: Env): (Parsed, Rule) -> Result<Parsed>
  {
    (acc: Parsed, rule: Rule) => ApplyRule(inhash, env, acc, rule)
  }

  /** The first loop of `parse_and_validate_rules`, over the rules in order. */
  function ApplyRules(inhash: seq<(string, Value)>, rules: seq<Rule>, env: Env): Result<Parsed>
  {
    FoldResults(rules, Parsed([], []), RuleStep(inhash, env))
  }

  /** A key no rule is named after. */
  function UnknownTo(rules: seq<Rule>): string -> bool
  {
    (key: string) => forall i | 0 <= i < |rules| :: rules[i].name != key
  }

  /** The keys of the input that no rule names, in the input's order. */
  function UnexpectedKeys(inhash: seq<(string, Value)>, rules: seq<Rule>): seq<string>
  {
    Filter(Keys(inhash), UnknownTo(rules))
  }

  function AsUnexpected(keys: seq<string>): (r: seq<ConfigError>)
    ensures |r| == |keys|
  {
    seq(|keys|, i requires 0 <= i < |keys| => Unexpected(keys[i]))
  }

  /** `parse_and_validate_rules(inhash, valitems, valerrs)`: `valerrs` is always a fresh
      array at the call sites, so the pushed messages are returned. */
  function ParseRules(inhash: Value, rules: seq<Rule>, env: Env): Result<Parsed>
  {
    if !inhash.Hash? then Err(NoHasKey)
    else
      var applied := ApplyRules(inhash.pairs, rules, env);
      if applied.Err? then applied
      else Ok(Parsed(applied.value.results, applied.value.errors + AsUnexpected(UnexpectedKeys(inhash.pairs, rules))))
  }

  lemma AsUnexpectedStep(keys: seq<string>, k: string)
    ensures AsUnexpected(keys + [k]) == AsUnexpected(keys) + [Unexpected(k)]
  {
  }

  /** The body of the first loop of `parse_and_validate_rules` for one rule. */
  method CheckRule(pairs: seq<(string, Value)>, env: Env, acc: Parsed, rule: Rule) returns (r: Result<Parsed>)
    ensures r == ApplyRule(pairs, env, acc, rule)
  {
    var results, valerrs := acc.results, acc.errors;
    if rule.mandatory && !HasKey(pairs, rule.name) {
      valerrs := valerrs + [MandatoryAbsent(rule.name)];
    }
    assert valerrs == acc.errors + (if rule.mandatory && !HasKey(pairs, rule.name) then [MandatoryAbsent(rule.name)] else []);
    ghost var errs := valerrs;
    var substvalue := Nil;
    var present := Fetch(pairs, rule.name);
    if present.Some? {
      var v := ValidateAndSubstitute(rule.validator, present.value, env);
      if v.Err? {
        return Err(v.reason);
      }
      substvalue := v.value.value;
      if v.value.errmsg != [] {
        valerrs := valerrs + [ValidationFailed(rule.name, v.value.errmsg)];
      }
      assert valerrs == errs + (if v.value.errmsg == [] then [] else [ValidationFailed(rule.name, v.value.errmsg)]);
    } else if !rule.defval.Nil? {
      substvalue := rule.defval;
    }
    if !substvalue.Nil? {
      results := Store(results, rule.name, substvalue);
    }
    return Ok(Parsed(results, valerrs));
  }

  /** `parse_and_validate_rules`: the loop over the rules, then the loop over the input. */
  method ParseAndValidateRules(inhash: Value, rules: seq<Rule>, env: Env) returns (r: Result<Parsed>)
    ensures r == ParseRules(inhash, rules, env)
  {
    if !inhash.Hash? {
      return Err(NoHasKey);
    }
    var pairs := inhash.pairs;
    var results: seq<(string, Value)> := [];
    var valerrs: seq<ConfigError> := [];
    var i := 0;
    while i < |rules|
      invariant 0 <= i <= |rules|
      invariant ApplyRules(pairs, rules[..i], env) == Ok(Parsed(results, valerrs))
    {
      FoldResultsStep(rules, i, Parsed([], []), RuleStep(pairs, env));
      var step := CheckRule(pairs, env, Parsed(results, valerrs), rules[i]);
      if step.Err? {
        FoldResultsFailurePersists(rules, i + 1, Parsed([], []), RuleStep(pairs, env));
        return Err(step.reason);
      }
      results, valerrs := step.value.results, step.value.errors;
      i := i + 1;
    }
    assert rules[..i] == rules;
    var unexpected := UnexpectedItems(pairs, rules);
    valerrs := valerrs + unexpected;
    return Ok(Parsed(results, valerrs));
  }

  /** The second loop of `parse_and_validate_rules`: one message per input key that no
      rule is named after. */
  method UnexpectedItems(pairs: seq<(string, Value)>, rules: seq<Rule>) returns (valerrs: seq<ConfigError>)
    ensures valerrs == AsUnexpected(UnexpectedKeys(pairs, rules))
  {
    valerrs := [];
    var j := 0;
    while j < |pairs|
      invariant 0 <= j <= |pairs|
      invariant valerrs == AsUnexpected(Filter(Keys(pairs)[..j], UnknownTo(rules)))
    {
      var key := pairs[j].0;
      FilterPrefixStep(Keys(pairs), j, UnknownTo(rules));
      var curvals := Filter(rules, (rule: Rule) => rule.name == key);
      NoRuleNamed(rules, key);
      if |curvals| == 0 {
        AsUnexpectedStep(Filter(Keys(pairs)[..j], UnknownTo(rules)), key);
        valerrs := valerrs + [Unexpected(key)];
      }
      j := j + 1;
    }
    assert Keys(pairs)[..j] == Keys(pairs);
  }

  /** `valitems.select { |valitem| valitem.name == key }` is empty exactly when no rule is
      named `key`. */
  lemma NoRuleNamed(rules: seq<Rule>, key: string)
    ensures |Filter(rules, (rule: Rule) => rule.name == key)| == 0 <==> UnknownTo(rules)(key)
  {
    var f := Filter(rules, (rule: Rule) => rule.name == key);
    if |f| > 0 {
      assert f[0] in rules && f[0].name == key;
    }
  }

  // ---------------------------------------------------------------------------
  // What the rules make of an input

  /** A mandatory rule whose option is absent. */
  function MissingIn(inhash: seq<(string, Value)>): Rule -> bool
  {
    (rule: Rule) => rule.mandatory && !HasKey(inhash, rule.name)
  }

  /** A rule whose option is given and whose validator pushes a message. */
  function FailingIn(inhash: seq<(string, Value)>, env: Env): Rule -> bool
  {
    (rule: Rule) =>
      HasKey(inhash, rule.name)
      && var v := Validate(rule.validator, FetchOrNil(inhash, rule.name), env);
         v.Ok? && v.value.errmsg != []
  }

  /** A rule whose option is given and whose validator raises. */
  predicate Raises(inhash: seq<(string, Value)>, env: Env, rule: Rule)
  {
    HasKey(inhash, rule.name) && Validate(rule.validator, FetchOrNil(inhash, rule.name), env).Err?
  }

  /** The value a rule selects: the validator's value for a given option, the default
      for an absent one; `nil` is never stored. */
  function Selected(inhash: seq<(string, Value)>, env: Env, rule: Rule): Option<Value>
  {
    var v := if HasKey(inhash, rule.name) then
               (var r := Validate(rule.validator, FetchOrNil(inhash, rule.name), env); if r.Ok? then r.value.value else Nil)
             else rule.defval;
    if v.Nil? then None else Some(v)
  }

  predicate DistinctNames(rules: seq<Rule>)
  {
    forall i, j | 0 <= i < j < |rules| :: rules[i].name != rules[j].name
  }

  lemma FetchSome(h: seq<(string, Value)>, key: string)
    requires HasKey(h, key)
    ensures Fetch(h, key) == Some(FetchOrNil(h, key))
  {
  }

  /** One rule raises exactly when its option is given and its validator raises. */
  lemma ApplyRuleErr(inhash: seq<(string, Value)>, env: Env, acc: Parsed, rule: Rule)
    ensures ApplyRule(inhash, env, acc, rule).Err? <==> Raises(inhash, env, rule)
  {
    if HasKey(inhash, rule.name) {
      FetchSome(inhash, rule.name);
    }
  }

  /** The rules raise exactly when one of them has a given option its validator raises
      on. */
  lemma {:induction false} ApplyRulesRaises(inhash: seq<(string, Value)>, rules: seq<Rule>, env: Env)
    ensures ApplyRules(inhash, rules, env).Err? <==> exists rule | rule in rules :: Raises(inhash, env, rule)
    decreases |rules|
  {
    if rules != [] {
      var n := |rules| - 1;
      var init := rules[..n];
      ApplyRulesRaises(inhash, init, env);
      var acc := ApplyRules(inhash, init, env);
      assert ApplyRules(inhash, rules, env).Err? <==> acc.Err? || Raises(inhash, env, rules[n]) by {
        FoldResultsStep(rules, n, Parsed([], []), RuleStep(inhash, env));
        assert rules[..n + 1] == rules;
        if acc.Ok? {
          ApplyRuleErr(inhash, env, acc.value, rules[n]);
        }
      }
      assert rules == init + [rules[n]];
    }
  }

  /** A loop that completes over `rules` completed over all but the last rule, and then
      applied the last one. */
  lemma ApplyRulesSnoc(inhash: seq<(string, Value)>, rules: seq<Rule>, env: Env)
    requires rules != [] && ApplyRules(inhash, rules, env).Ok?
    ensures var n := |rules| - 1;
      && ApplyRules(inhash, rules[..n], env).Ok?
      && ApplyRules(inhash, rules, env) == ApplyRule(inhash, env, ApplyRules(inhash, rules[..n], env).value, rules[n])
  {
    var n := |rules| - 1;
    FoldResultsStep(rules, n, Parsed([], []), RuleStep(inhash, env));
    assert rules[..n + 1] == rules;
  }

  /** Only the rules' names become keys of `results`, each once. */
  lemma {:induction false} ApplyRulesKeys(inhash: seq<(string, Value)>, rules: seq<Rule>, env: Env)
    requires ApplyRules(inhash, rules, env).Ok?
    ensures var res := ApplyRules(inhash, rules, env).value.results;
      UniqueKeys(res) && forall k | 0 <= k < |res| :: !UnknownTo(rules)(res[k].0)
    decreases |rules|
  {
    if rules != [] {
      var n := |rules| - 1;
      var init := rules[..n];
      ApplyRulesSnoc(inhash, rules, env);
      ApplyRulesKeys(inhash, init, env);
      var acc := ApplyRules(inhash, init, env).value.results;
      var res := ApplyRules(inhash, rules, env).value.results;
      var rule := rules[n];
      var sel := Selected(inhash, env, rule);
      assert res == if sel.Some? then Store(acc, rule.name, sel.value) else acc by {
        ApplyRuleShape(inhash, env, ApplyRules(inhash, init, env).value, rule);
      }
      forall k | 0 <= k < |acc| ensures !UnknownTo(rules)(acc[k].0) {
        KnownToPrefix(rules, n, acc[k].0);
      }
      if sel.Some? {
        ResultKeysStore(acc, rules, n, sel.value);
      }
    }
  }

  /** A key named after one of the first rules is named after one of the rules. */
  lemma KnownToPrefix(rules: seq<Rule>, n: nat, key: string)
    requires n <= |rules| && !UnknownTo(rules[..n])(key)
    ensures !UnknownTo(rules)(key)
  {
    var i :| 0 <= i < n && rules[..n][i].name == key;
    assert rules[i] == rules[..n][i];
  }

  /** Storing a value under a rule's name keeps the keys of `results` unique and named
      after rules. */
  lemma ResultKeysStore(acc: seq<(string, Value)>, rules: seq<Rule>, i: int, v: Value)
    requires 0 <= i < |rules|
    requires UniqueKeys(acc) && forall k | 0 <= k < |acc| :: !UnknownTo(rules)(acc[k].0)
    ensures var res := Store(acc, rules[i].name, v);
      UniqueKeys(res) && forall k | 0 <= k < |res| :: !UnknownTo(rules)(res[k].0)
  {
    var res := Store(acc, rules[i].name, v);
    StoreUnique(acc, rules[i].name, v);
    StoreKeys(acc, rules[i].name, v);
    forall k | 0 <= k < |res| ensures !UnknownTo(rules)(res[k].0) {
      assert Keys(res)[k] == res[k].0;
      if k < |acc| {
        assert Keys(acc)[k] == acc[k].0;
      }
    }
  }

  lemma ApplyRuleShape(inhash: seq<(string, Value)>, env: Env, acc: Parsed, rule: Rule)
    requires ApplyRule(inhash, env, acc, rule).Ok?
    ensures var r := ApplyRule(inhash, env, acc, rule).value;
      && r.results == (match Selected(inhash, env, rule) case Some(v) => Store(acc.results, rule.name, v) case None => acc.results)
      && r.errors == acc.errors + (if MissingIn(inhash)(rule) then [MandatoryAbsent(rule.name)] else [])
                                + (if FailingIn(inhash, env)(rule)
                                   then [ValidationFailed(rule.name, Validate(rule.validator, FetchOrNil(inhash, rule.name), env).value.errmsg)]
                                   else [])
  {
    if HasKey(inhash, rule.name) {
      FetchSome(inhash, rule.name);
    }
  }

  /** Each rule's option holds the value the rule selects: the validator's result for a
      given option, whether or not it pushed a message, and the default for an absent
      one; neither is stored when it is `nil`. */
  lemma ApplyRulesValues(inhash: seq<(string, Value)>, rules: seq<Rule>, env: Env)
    requires DistinctNames(rules)
    requires ApplyRules(inhash, rules, env).Ok?
    ensures var res := ApplyRules(inhash, rules, env).value.results;
      forall i | 0 <= i < |rules| :: Fetch(res, rules[i].name) == Selected(inhash, env, rules[i])
  {
    forall i | 0 <= i < |rules|
      ensures Fetch(ApplyRules(inhash, rules, env).value.results, rules[i].name) == Selected(inhash, env, rules[i])
    {
      ApplyRulesValue(inhash, rules, env, i);
    }
  }

  lemma {:induction false} ApplyRulesValue(inhash: seq<(string, Value)>, rules: seq<Rule>, env: Env, i: int)
    requires DistinctNames(rules)
    requires ApplyRules(inhash, rules, env).Ok?
    requires 0 <= i < |rules|
    ensures Fetch(ApplyRules(inhash, rules, env).value.results, rules[i].name) == Selected(inhash, env, rules[i])
    decreases |rules|
  {
    var n := |rules| - 1;
    if i == n {
      ApplyRulesValueLast(inhash, rules, env);
    } else {
      var init := rules[..n];
      var rule := rules[n];
      ApplyRulesSnoc(inhash, rules, env);
      var acc := ApplyRules(inhash, init, env).value;
      ApplyRuleShape(inhash, env, acc, rule);
      assert init[i] == rules[i];
      assert DistinctNames(init);
      ApplyRulesValue(inhash, init, env, i);
      var sel := Selected(inhash, env, rule);
      if sel.Some? {
        StoreFetch(acc.results, rule.name, sel.value, rules[i].name);
      }
    }
  }

  /** The last rule's option holds the value it selects. */
  lemma ApplyRulesValueLast(inhash: seq<(string, Value)>, rules: seq<Rule>, env: Env)
    requires DistinctNames(rules) && rules != []
    requires ApplyRules(inhash, rules, env).Ok?
    ensures var n := |rules| - 1;
      Fetch(ApplyRules(inhash, rules, env).value.results, rules[n].name) == Selected(inhash, env, rules[n])
  {
    var n := |rules| - 1;
    var init := rules[..n];
    var rule := rules[n];
    ApplyRulesSnoc(inhash, rules, env);
    var acc := ApplyRules(inhash, init, env).value;
    var sel := Selected(inhash, env, rule);
    var res := ApplyRules(inhash, rules, env).value.results;
    assert res == if sel.Some? then Store(acc.results, rule.name, sel.value) else acc.results by {
      ApplyRuleShape(inhash, env, acc, rule);
    }
    if sel.Some? {
      StoreFetch(acc.results, rule.name, sel.value, rule.name);
    } else {
      ApplyRulesKeys(inhash, init, env);
      forall k | 0 <= k < |acc.results| ensures exists i | 0 <= i < n :: rules[i].name == acc.results[k].0 {
        var i :| 0 <= i < n && init[i].name == acc.results[k].0;
        assert rules[i] == init[i];
      }
      LastNameAbsent(acc.results, rules);
    }
  }

  /** With distinct rule names, a `results` keyed by the first rules' names holds
      nothing under the last rule's name. */
  lemma LastNameAbsent(res: seq<(string, Value)>, rules: seq<Rule>)
    requires rules != [] && DistinctNames(rules)
    requires forall k | 0 <= k < |res| :: exists i | 0 <= i < |rules| - 1 :: rules[i].name == res[k].0
    ensures Fetch(res, rules[|rules| - 1].name) == None
  {
  }

  /** The first loop pushes one message per mandatory rule whose option is absent and
      one per rule whose validator fails. */
  lemma {:induction false} ApplyRulesErrorCount(inhash: seq<(string, Value)>, rules: seq<Rule>, env: Env)
    requires ApplyRules(inhash, rules, env).Ok?
    ensures |ApplyRules(inhash, rules, env).value.errors| ==
              |Filter(rules, MissingIn(inhash))| + |Filter(rules, FailingIn(inhash, env))|
    decreases |rules|
  {
    if rules != [] {
      var n := |rules| - 1;
      var init := rules[..n];
      ApplyRulesSnoc(inhash, rules, env);
      ApplyRuleShape(inhash, env, ApplyRules(inhash, init, env).value, rules[n]);
      ApplyRulesErrorCount(inhash, init, env);
    }
  }

  /** `parse_and_validate_rules` raises exactly when its input is not a hash or one of
      the rules has a given option its validator raises on. */
  lemma ParseRulesRaises(inhash: Value, rules: seq<Rule>, env: Env)
    ensures ParseRules(inhash, rules, env).Err? <==>
              !inhash.Hash? || exists rule | rule in rules :: Raises(inhash.pairs, env, rule)
  {
    if inhash.Hash? {
      ApplyRulesRaises(inhash.pairs, rules, env);
    }
  }

  /** The keys of `results` are rule names, each once, and with distinct rule names each
      rule's option holds the value it selects. */
  lemma ParseRulesResults(inhash: Value, rules: seq<Rule>, env: Env)
    requires ParseRules(inhash, rules, env).Ok?
    ensures var res := ParseRules(inhash, rules, env).value.results;
      && UniqueKeys(res)
      && (forall k | 0 <= k < |res| :: exists i | 0 <= i < |rules| :: rules[i].name == res[k].0)
      && (DistinctNames(rules) ==> forall i | 0 <= i < |rules| :: Fetch(res, rules[i].name) == Selected(inhash.pairs, env, rules[i]))
  {
    ApplyRulesKeys(inhash.pairs, rules, env);
    if DistinctNames(rules) {
      ApplyRulesValues(inhash.pairs, rules, env);
    }
  }

  /** One message per absent mandatory option, per failed validation and per input key
      no rule names. */
  lemma ParseRulesErrorCount(inhash: Value, rules: seq<Rule>, env: Env)
    requires ParseRules(inhash, rules, env).Ok?
    ensures |ParseRules(inhash, rules, env).value.errors| ==
              |Filter(rules, MissingIn(inhash.pairs))| + |Filter(rules, FailingIn(inhash.pairs, env))|
              + |UnexpectedKeys(inhash.pairs, rules)|
  {
    ApplyRulesErrorCount(inhash.pairs, rules, env);
  }

  /** An input passes its rules exactly when no mandatory option is missing, every given
      option validates and every key has a rule. */
  lemma ParseRulesClean(inhash: Value, rules: seq<Rule>, env: Env)
    requires ParseRules(inhash, rules, env).Ok?
    ensures ParseRules(inhash, rules, env).value.errors == [] <==>
              && (forall i | 0 <= i < |rules| :: !MissingIn(inhash.pairs)(rules[i]) && !FailingIn(inhash.pairs, env)(rules[i]))
              && (forall k | 0 <= k < |inhash.pairs| :: !UnknownTo(rules)(inhash.pairs[k].0))
  {
    var pairs := inhash.pairs;
    ParseRulesErrorCount(inhash, rules, env);
    FilterEmptyIff(rules, MissingIn(pairs));
    FilterEmptyIff(rules, FailingIn(pairs, env));
    FilterEmptyIff(Keys(pairs), UnknownTo(rules));
    assert forall k | 0 <= k < |pairs| :: Keys(pairs)[k] == pairs[k].0;
  }

  /** A mandatory rule whose option is absent is reported by the first loop. */
  lemma {:induction false} MissingIsReported(inhash: seq<(string, Value)>, rules: seq<Rule>, env: Env, j: int)
    requires 0 <= j < |rules| && MissingIn(inhash)(rules[j])
    requires ApplyRules(inhash, rules, env).Ok?
    ensures MandatoryAbsent(rules[j].name) in ApplyRules(inhash, rules, env).value.errors
    decreases |rules|
  {
    var n := |rules| - 1;
    var init := rules[..n];
    ApplyRulesSnoc(inhash, rules, env);
    var acc := ApplyRules(inhash, init, env).value;
    var errs := ApplyRules(inhash, rules, env).value.errors;
    var m := |acc.errors|;
    assert |errs| >= m && errs[..m] == acc.errors
      && (MissingIn(inhash)(rules[n]) ==> |errs| > m && errs[m] == MandatoryAbsent(rules[n].name)) by {
      ApplyRuleShape(inhash, env, acc, rules[n]);
    }
    if j < n {
      assert init[j] == rules[j];
      MissingIsReported(inhash, init, env, j);
      var k :| 0 <= k < m && acc.errors[k] == MandatoryAbsent(rules[j].name);
      assert errs[k] == errs[..m][k];
    }
  }

  /** A mandatory option that is absent is reported, and its default is stored all the
      same: a default does not excuse the absence. */
  lemma MandatoryDefault(inhash: Value, rules: seq<Rule>, env: Env, j: int)
    requires inhash.Hash? && DistinctNames(rules) && 0 <= j < |rules|
    requires rules[j].mandatory && !HasKey(inhash.pairs, rules[j].name)
    requires ParseRules(inhash, rules, env).Ok?
    ensures var p := ParseRules(inhash, rules, env).value;
      && MandatoryAbsent(rules[j].name) in p.errors
      && Fetch(p.results, rules[j].name) == if rules[j].defval.Nil? then None else Some(rules[j].defval)
  {
    MissingIsReported(inhash.pairs, rules, env, j);
    ApplyRulesValues(inhash.pairs, rules, env);
  }

  /** When an input passes its rules, every mandatory option is given, its validator
      accepts it without a message, and `results` holds what the validator made of it. */
  lemma PassedMandatory(inhash: Value, rules: seq<Rule>, env: Env, j: int)
    requires DistinctNames(rules) && 0 <= j < |rules| && rules[j].mandatory
    requires ParseRules(inhash, rules, env).Ok? && ParseRules(inhash, rules, env).value.errors == []
    ensures var v := Validate(rules[j].validator, FetchOrNil(inhash.pairs, rules[j].name), env);
      && HasKey(inhash.pairs, rules[j].name) && v.Ok? && v.value.errmsg == []
      && Fetch(ParseRules(inhash, rules, env).value.results, rules[j].name) == if v.value.value.Nil? then None else Some(v.value.value)
  {
    ParseRulesClean(inhash, rules, env);
    ParseRulesRaises(inhash, rules, env);
    ParseRulesResults(inhash, rules, env);
    assert !MissingIn(inhash.pairs)(rules[j]) && !FailingIn(inhash.pairs, env)(rules[j]);
    assert !Raises(inhash.pairs, env, rules[j]);
  }

  // ---------------------------------------------------------------------------
  // load_category

  /** The `raise` of `load_category` for a definition with errors. */
  function CategoryFailed(catname: string): string
  {
    "Validation failed for the configuration of the '" + catname + "' category"
  }

  /** `each` on something that is neither a hash nor a list. */
  const NoEach := "undefined method 'each'"

  /** The rules of a category, as the parser of its definitions. */
  function Parser(rules: seq<Rule>, env: Env): Value -> Result<Parsed>
  {
    (def: Value) => ParseRules(def, rules, env)
  }

  /** One definition of a category: its options parsed, kept under its name, or a raise
      when parsing pushed any message. */
  function LoadDefinition(catname: string, parse: Value -> Result<Parsed>, results: seq<(string, Value)>, def: (string, Value)): Result<seq<(string, Value)>>
  {
    var parsed := parse(def.1);
    if parsed.Err? then Err(parsed.reason)
    else if parsed.value.errors != [] then Err(CategoryFailed(catname))
    else Ok(Store(results, def.0, Hash(parsed.value.results)))
  }

  function DefinitionStep(catname: string, parse: Value -> Result<Parsed>): (seq<(string, Value)>, (string, Value)) -> Result<seq<(string, Value)>>
  {
    (results: seq<(string, Value)>, def: (string, Value)) => LoadDefinition(catname, parse, results, def)
  }

  /** What `each do |key,val|` yields for one element of a list: a list element is
      split into its first two items (`nil` for a missing one), any other element is the
      key with a `nil` value. Names are strings here: a key of another type gives the
      empty name. */
  function ListedPair(e: Value): (string, Value)
  {
    var key := if e.Arr? then (if |e.items| > 0 then e.items[0] else Nil) else e;
    var val := if e.Arr? && |e.items| > 1 then e.items[1] else Nil;
    (if key.Str? then key.s else "", val)
  }

  /** The pairs `each do |key,val|` yields over a hash or a list. */
  function EachPairs(v: Value): seq<(string, Value)>
    requires v.Hash? || v.Arr?
  {
    if v.Hash? then v.pairs else seq(|v.items|, k requires 0 <= k < |v.items| => ListedPair(v.items[k]))
  }

  /** `load_category(config, catname, valitems)`: `nil` when the configuration has no
      such category, a raise when it is neither a hash nor a list or a definition does
      not pass its rules, and otherwise each definition's parsed options under its
      name. */
  function LoadedCategory(config: seq<(string, Value)>, catname: string, rules: seq<Rule>, env: Env): Result<Option<seq<(string, Value)>>>
  {
    var definitions := FetchOrNil(config, catname);
    if definitions.Nil? then Ok(None)
    else if !definitions.Hash? && !definitions.Arr? then Err(NoEach)
    else
      var loaded := FoldResults(EachPairs(definitions), [], DefinitionStep(catname, Parser(rules, env)));
      if loaded.Err? then Err(loaded.reason) else Ok(Some(loaded.value))
  }

  method LoadCategory(config: seq<(string, Value)>, catname: string, rules: seq<Rule>, env: Env)
    returns (r: Result<Option<seq<(string, Value)>>>)
    ensures r == LoadedCategory(config, catname, rules, env)
  {
    var definitions := FetchOrNil(config, catname);
    if definitions == Nil {
      return Ok(None);
    }
    if !definitions.Hash? && !definitions.Arr? {
      return Err(NoEach);
    }
    var defs := EachPairs(definitions);
    ghost var step := DefinitionStep(catname, Parser(rules, env));
    var results: seq<(string, Value)> := [];
    var i := 0;
    while i < |defs|
      invariant 0 <= i <= |defs|
      invariant FoldResults(defs[..i], [], step) == Ok(results)
    {
      FoldResultsStep(defs, i, [], step);
      var parseopt := ParseAndValidateRules(defs[i].1, rules, env);
      if parseopt.Err? || parseopt.value.errors != [] {
        FoldResultsFailurePersists(defs, i + 1, [], step);
        return Err(if parseopt.Err? then parseopt.reason else CategoryFailed(catname));
      }
      results := Store(results, defs[i].0, Hash(parseopt.value.results));
      i := i + 1;
    }
    assert defs[..i] == defs;
    return Ok(Some(results));
  }

  /** A definition that passes its rules. */
  predicate Passes(parse: Value -> Result<Parsed>, def: Value)
  {
    parse(def).Ok? && parse(def).value.errors == []
  }

  /** The options a definition that passes its rules is stored with. */
  function Options(parse: Value -> Result<Parsed>, def: Value): Value
  {
    if parse(def).Ok? then Hash(parse(def).value.results) else Nil
  }

  /** Loading the definitions raises exactly when one of them does not pass its rules. */
  lemma {:induction false} DefinitionsLoadedOk(defs: seq<(string, Value)>, catname: string, parse: Value -> Result<Parsed>)
    ensures FoldResults(defs, [], DefinitionStep(catname, parse)).Ok? <==>
              forall k | 0 <= k < |defs| :: Passes(parse, defs[k].1)
    decreases |defs|
  {
    if defs != [] {
      var n := |defs| - 1;
      var init := defs[..n];
      var step := DefinitionStep(catname, parse);
      FoldResultsStep(defs, n, [], step);
      assert defs[..n + 1] == defs;
      DefinitionsLoadedOk(init, catname, parse);
      if FoldResults(defs, [], step).Ok? {
        forall k | 0 <= k < |defs| ensures Passes(parse, defs[k].1) {
          if k < n {
            assert init[k] == defs[k];
          }
        }
      }
      if forall k | 0 <= k < |defs| :: Passes(parse, defs[k].1) {
        forall k | 0 <= k < |init| ensures Passes(parse, init[k].1) {
          assert init[k] == defs[k];
        }
      }
    }
  }

  /** Loaded definitions keep their names and order, each name holding its parsed
      options. */
  lemma DefinitionsLoadedValues(defs: seq<(string, Value)>, catname: string, parse: Value -> Result<Parsed>)
    requires UniqueKeys(defs)
    requires FoldResults(defs, [], DefinitionStep(catname, parse)).Ok?
    ensures var r := FoldResults(defs, [], DefinitionStep(catname, parse)).value;
      && Keys(r) == Keys(defs) && UniqueKeys(r)
      && forall k | 0 <= k < |defs| :: Fetch(r, defs[k].0) == Some(Options(parse, defs[k].1))
  {
    DefinitionsLoadedKeys(defs, catname, parse);
    forall k | 0 <= k < |defs|
      ensures Fetch(FoldResults(defs, [], DefinitionStep(catname, parse)).value, defs[k].0) == Some(Options(parse, defs[k].1))
    {
      DefinitionLoadedValue(defs, catname, parse, k);
    }
  }

  lemma {:induction false} DefinitionLoadedValue(defs: seq<(string, Value)>, catname: string, parse: Value -> Result<Parsed>, k: int)
    requires UniqueKeys(defs)
    requires FoldResults(defs, [], DefinitionStep(catname, parse)).Ok?
    requires 0 <= k < |defs|
    ensures Fetch(FoldResults(defs, [], DefinitionStep(catname, parse)).value, defs[k].0) == Some(Options(parse, defs[k].1))
    decreases |defs|
  {
    var n := |defs| - 1;
    var init := defs[..n];
    var step := DefinitionStep(catname, parse);
    FoldResultsStep(defs, n, [], step);
    assert defs[..n + 1] == defs;
    var acc: Result<seq<(string, Value)>> := FoldResults(init, [], step);
    var v := Options(parse, defs[n].1);
    assert FoldResults(defs, [], step).value == Store(acc.value, defs[n].0, v);
    StoreFetch(acc.value, defs[n].0, v, defs[k].0);
    if k < n {
      assert init[k] == defs[k];
      assert defs[k].0 != defs[n].0;
      assert UniqueKeys(init);
      DefinitionLoadedValue(init, catname, parse, k);
    }
  }

  lemma {:induction false} DefinitionsLoadedKeys(defs: seq<(string, Value)>, catname: string, parse: Value -> Result<Parsed>)
    requires UniqueKeys(defs)
    requires FoldResults(defs, [], DefinitionStep(catname, parse)).Ok?
    ensures var r := FoldResults(defs, [], DefinitionStep(catname, parse)).value;
      Keys(r) == Keys(defs) && UniqueKeys(r)
    decreases |defs|
  {
    if defs != [] {
      var n := |defs| - 1;
      var init := defs[..n];
      var step := DefinitionStep(catname, parse);
      FoldResultsStep(defs, n, [], step);
      assert defs[..n + 1] == defs;
      assert UniqueKeys(init);
      var acc: Result<seq<(string, Value)>> := FoldResults(init, [], step);
      DefinitionsLoadedKeys(init, catname, parse);
      var v := Options(parse, defs[n].1);
      var key := defs[n].0;
      assert !HasKey(acc.value, key) by {
        forall k | 0 <= k < |acc.value| ensures acc.value[k].0 != key {
          assert acc.value[k].0 == Keys(acc.value)[k] == Keys(init)[k] == defs[k].0;
        }
      }
      StoreAppends(acc.value, key, v);
      assert Keys(defs) == Keys(init) + [key];
      assert Keys(acc.value + [(key, v)]) == Keys(acc.value) + [key];
    }
  }

  /** `load_category` is `nil` exactly when the category is absent (or `nil`); it raises
      when the category is neither a hash nor a list, or when a definition does not pass
      its rules; otherwise it maps every definition name to its parsed options. An empty
      list loads as an empty hash, and a list loads only when every element is a
      `[name, options]` pair whose options are a hash. */
  lemma LoadedCategoryFacts(config: seq<(string, Value)>, catname: string, rules: seq<Rule>, env: Env)
    ensures var r := LoadedCategory(config, catname, rules, env);
      var d := FetchOrNil(config, catname);
      && (r == Ok(None) <==> d.Nil?)
      && (!d.Nil? && !d.Hash? && !d.Arr? ==> r == Err(NoEach))
      && (d.Hash? || d.Arr? ==>
            && (r.Err? <==> exists k | 0 <= k < |EachPairs(d)| :: !Passes(Parser(rules, env), EachPairs(d)[k].1))
            && (r.Ok? && UniqueKeys(EachPairs(d)) ==>
                  && Keys(r.value.value) == Keys(EachPairs(d))
                  && forall k | 0 <= k < |EachPairs(d)| ::
                       Fetch(r.value.value, EachPairs(d)[k].0) == Some(Options(Parser(rules, env), EachPairs(d)[k].1))))
      && (d == Arr([]) ==> r == Ok(Some([])))
      && (d.Arr? && r.Ok? ==> forall k | 0 <= k < |d.items| ::
            d.items[k].Arr? && |d.items[k].items| >= 2 && d.items[k].items[1].Hash?)
  {
    var d := FetchOrNil(config, catname);
    if d.Hash? || d.Arr? {
      var defs := EachPairs(d);
      var parse := Parser(rules, env);
      DefinitionsLoadedOk(defs, catname, parse);
      if FoldResults(defs, [], DefinitionStep(catname, parse)).Ok? {
        if UniqueKeys(defs) {
          DefinitionsLoadedValues(defs, catname, parse);
        }
        if d.Arr? {
          forall k | 0 <= k < |d.items| ensures d.items[k].Arr? && |d.items[k].items| >= 2 && d.items[k].items[1].Hash? {
            assert defs[k] == ListedPair(d.items[k]);
            assert Passes(parse, defs[k].1);
          }
        }
      }
    }
  }

  // ---------------------------------------------------------------------------
  // load_config

  /** A configuration file found by `Dir.glob`: its path and its parsed YAML. */
  datatype Fragment = Fragment(path: string, content: Value)

  /** `File.basename`: what follows the last `/`. */
  function Basename(path: string): (r: string)
    ensures '/' !in r
  {
    var parts := SplitOn(path, '/');
    parts[|parts| - 1]
  }

  /** `sort_by { |fullpath| File.basename(fullpath) }`. */
  function ByBasename(a: Fragment, b: Fragment): bool
  {
    StrLe(Basename(a.path), Basename(b.path))
  }

  /** `exit(EXITST_INVALID_CONFIG_FILES)`: no file matches the pattern. */
  const NoConfigFiles := "exit 12"

  /** `merge!` on something that is not a hash, or with something that is not a hash. */
  const NoMerge := "undefined method 'merge!'"

  /** One top-level key of a fragment: a new key is copied, a known one has its hash
      merged with the fragment's. */
  function MergeKey(config: seq<(string, Value)>, pair: (string, Value)): Result<seq<(string, Value)>>
  {
    var (key, val) := pair;
    if !HasKey(config, key) then Ok(Store(config, key, val))
    else
      var known := FetchOrNil(config, key);
      if !known.Hash? || !val.Hash? then Err(NoMerge)
      else Ok(Store(config, key, Hash(MergeInto(known.pairs, val.pairs))))
  }

  function MergeKeyStep(): (seq<(string, Value)>, (string, Value)) -> Result<seq<(string, Value)>>
  {
    (config: seq<(string, Value)>, pair: (string, Value)) => MergeKey(config, pair)
  }

  /** `curfile[key]` on a list with a string key. */
  const NoIndex := "no implicit conversion of String into Integer"

  /** One fragment merged into the configuration. A list fragment yields its elements
      as `key`, and `curfile[key]` then raises, unless the list is empty. */
  function MergeFragment(config: seq<(string, Value)>, f: Fragment): Result<seq<(string, Value)>>
  {
    if f.content.Hash? then FoldResults(f.content.pairs, config, MergeKeyStep())
    else if f.content.Arr? then (if f.content.items == [] then Ok(config) else Err(NoIndex))
    else Err(NoEach)
  }

  function FragmentStep(): (seq<(string, Value)>, Fragment) -> Result<seq<(string, Value)>>
  {
    (config: seq<(string, Value)>, f: Fragment) => MergeFragment(config, f)
  }

  /** `load_config`: the fragments in basename order, merged one after the other. */
  function LoadedConfig(files: seq<Fragment>): Result<seq<(string, Value)>>
  {
    if files == [] then Err(NoConfigFiles)
    else FoldResults(InsertionSort(files, ByBasename), [], FragmentStep())
  }

  /** The loop over the top-level keys of one fragment. */
  method MergeFile(config: seq<(string, Value)>, f: Fragment) returns (r: Result<seq<(string, Value)>>)
    ensures r == MergeFragment(config, f)
  {
    var curfile := f.content;
    if curfile.Arr? && curfile.items == [] {
      return Ok(config);
    }
    if !curfile.Hash? {
      return Err(if curfile.Arr? then NoIndex else NoEach);
    }
    var pairs := curfile.pairs;
    var merged := config;
    var j := 0;
    while j < |pairs|
      invariant 0 <= j <= |pairs|
      invariant FoldResults(pairs[..j], config, MergeKeyStep()) == Ok(merged)
    {
      FoldResultsStep(pairs, j, config, MergeKeyStep());
      var (key, val) := pairs[j];
      if !HasKey(merged, key) {
        merged := Store(merged, key, val);
      } else {
        var known := FetchOrNil(merged, key);
        if !known.Hash? || !val.Hash? {
          FoldResultsFailurePersists(pairs, j + 1, config, MergeKeyStep());
          return Err(NoMerge);
        }
        merged := Store(merged, key, Hash(MergeInto(known.pairs, val.pairs)));
      }
      j := j + 1;
    }
    assert pairs[..j] == pairs;
    return Ok(merged);
  }

  method LoadConfig(files: seq<Fragment>) returns (r: Result<seq<(string, Value)>>)
    ensures r == LoadedConfig(files)
  {
    if |files| == 0 {
      return Err(NoConfigFiles);
    }
    var sorted := InsertionSort(files, ByBasename);
    var config: seq<(string, Value)> := [];
    var i := 0;
    while i < |sorted|
      invariant 0 <= i <= |sorted|
      invariant FoldResults(sorted[..i], [], FragmentStep()) == Ok(config)
    {
      FoldResultsStep(sorted, i, [], FragmentStep());
      var next := MergeFile(config, sorted[i]);
      if next.Err? {
        FoldResultsFailurePersists(sorted, i + 1, [], FragmentStep());
        return Err(next.reason);
      }
      config := next.value;
      i := i + 1;
    }
    assert sorted[..i] == sorted;
    return Ok(config);
  }

  /** A fragment that is not a hash changes nothing when it is an empty list and raises
      otherwise: a non-empty list on `curfile[key]`, anything else on `each`. */
  lemma {:induction false} ListFragmentsFacts(config: seq<(string, Value)>, fs: seq<Fragment>)
    requires forall k | 0 <= k < |fs| :: !fs[k].content.Hash?
    ensures var r := FoldResults(fs, config, FragmentStep());
      && (r == Ok(config) <==> forall k | 0 <= k < |fs| :: fs[k].content == Arr([]))
      && (r.Err? ==> r.reason == NoIndex || r.reason == NoEach)
    decreases |fs|
  {
    if fs != [] {
      var n := |fs| - 1;
      FoldResultsStep(fs, n, config, FragmentStep());
      assert fs[..n + 1] == fs;
      ListFragmentsFacts(config, fs[..n]);
      if forall k | 0 <= k < |fs| :: fs[k].content == Arr([]) {
        assert forall k | 0 <= k < n :: fs[..n][k].content == Arr([]) by {
          forall k | 0 <= k < n ensures fs[..n][k].content == Arr([]) {
            assert fs[..n][k] == fs[k];
          }
        }
      }
      if FoldResults(fs, config, FragmentStep()) == Ok(config) {
        forall k | 0 <= k < |fs| ensures fs[k].content == Arr([]) {
          if k < n {
            assert fs[..n][k] == fs[k];
          }
        }
      }
    }
  }

  /** The fragments are merged in basename order, each exactly once. */
  lemma FragmentsInBasenameOrder(files: seq<Fragment>)
    ensures var sorted := InsertionSort(files, ByBasename);
      SortedBy(sorted, ByBasename) && multiset(sorted) == multiset(files)
  {
    forall a: Fragment, b: Fragment ensures ByBasename(a, b) || ByBasename(b, a) {
      StrLeTotal(Basename(a.path), Basename(b.path));
    }
    forall a: Fragment, b: Fragment, c: Fragment | ByBasename(a, b) && ByBasename(b, c) ensures ByBasename(a, c) {
      StrLeTransitive(Basename(a.path), Basename(b.path), Basename(c.path));
    }
    InsertionSortSorted(files, ByBasename);
  }

  /** What a fragment makes of the configuration: a key the fragment does not have is
      untouched, a new key takes the fragment's value, and a known key holds the merge of
      its hash with the fragment's, the fragment's entries winning. The merge raises
      exactly when a key is in both and one side is not a hash. */
  lemma MergeFragmentFacts(config: seq<(string, Value)>, pairs: seq<(string, Value)>)
    requires UniqueKeys(config) && UniqueKeys(pairs)
    ensures var r := FoldResults(pairs, config, MergeKeyStep());
      && (r.Ok? <==> forall k | 0 <= k < |pairs| ::
                       HasKey(config, pairs[k].0) ==> FetchOrNil(config, pairs[k].0).Hash? && pairs[k].1.Hash?)
      && (r.Ok? ==> UniqueKeys(r.value) && forall key :: Fetch(r.value, key) == Merged(config, pairs, key))
  {
    MergeFragmentOk(config, pairs);
    if FoldResults(pairs, config, MergeKeyStep()).Ok? {
      MergeFragmentValues(config, pairs);
    }
  }

  lemma {:induction false} MergeFragmentOk(config: seq<(string, Value)>, pairs: seq<(string, Value)>)
    requires UniqueKeys(config) && UniqueKeys(pairs)
    ensures FoldResults(pairs, config, MergeKeyStep()).Ok? <==> forall k | 0 <= k < |pairs| ::
              HasKey(config, pairs[k].0) ==> FetchOrNil(config, pairs[k].0).Hash? && pairs[k].1.Hash?
    decreases |pairs|
  {
    if pairs != [] {
      var n := |pairs| - 1;
      var init := pairs[..n];
      FoldResultsStep(pairs, n, config, MergeKeyStep());
      assert pairs[..n + 1] == pairs;
      assert UniqueKeys(init);
      MergeFragmentOk(config, init);
      var acc := FoldResults(init, config, MergeKeyStep());
      var key := pairs[n].0;
      if acc.Ok? {
        MergeFragmentValues(config, init);
        assert !HasKey(init, key);
        assert Fetch(acc.value, key) == Fetch(config, key) by {
          assert Merged(config, init, key) == Fetch(config, key);
        }
      }
      if FoldResults(pairs, config, MergeKeyStep()).Ok? {
        forall k | 0 <= k < |pairs| ensures HasKey(config, pairs[k].0) ==> FetchOrNil(config, pairs[k].0).Hash? && pairs[k].1.Hash? {
          if k < n {
            assert init[k] == pairs[k];
          }
        }
      }
      if forall k | 0 <= k < |pairs| :: HasKey(config, pairs[k].0) ==> FetchOrNil(config, pairs[k].0).Hash? && pairs[k].1.Hash? {
        forall k | 0 <= k < |init| ensures HasKey(config, init[k].0) ==> FetchOrNil(config, init[k].0).Hash? && init[k].1.Hash? {
          assert init[k] == pairs[k];
        }
      }
    }
  }

  lemma {:induction false} MergeFragmentValues(config: seq<(string, Value)>, pairs: seq<(string, Value)>)
    requires UniqueKeys(config) && UniqueKeys(pairs)
    requires FoldResults(pairs, config, MergeKeyStep()).Ok?
    ensures var r := FoldResults(pairs, config, MergeKeyStep()).value;
      UniqueKeys(r) && forall key :: Fetch(r, key) == Merged(config, pairs, key)
    decreases |pairs|
  {
    if pairs != [] {
      var n := |pairs| - 1;
      var init := pairs[..n];
      FoldResultsStep(pairs, n, config, MergeKeyStep());
      assert pairs[..n + 1] == pairs;
      assert UniqueKeys(init);
      var acc := FoldResults(init, config, MergeKeyStep());
      assert acc.Ok?;
      MergeFragmentValues(config, init);
      var (key, val) := pairs[n];
      assert !HasKey(init, key);
      assert Fetch(acc.value, key) == Fetch(config, key) by {
        assert Merged(config, init, key) == Fetch(config, key);
      }
      var r := MergeKey(acc.value, pairs[n]);
      var stored := if HasKey(config, key) then Hash(MergeInto(FetchOrNil(config, key).pairs, val.pairs)) else val;
      assert r.value == Store(acc.value, key, stored);
      StoreUnique(acc.value, key, stored);
      forall key' ensures Fetch(r.value, key') == Merged(config, pairs, key') {
        StoreFetch(acc.value, key, stored, key');
        assert Merged(config, pairs, key') == if key' == key then Some(stored) else Merged(config, init, key') by {
          if key' == key {
            FetchSome(pairs, key);
            assert pairs[n] == (key, val);
            FetchIsUnique(pairs, n);
          } else {
            FetchOther(pairs, key');
          }
        }
      }
    }
  }

  /** The value a key holds after a fragment: see `MergeFragmentFacts`. */
  function Merged(config: seq<(string, Value)>, pairs: seq<(string, Value)>, key: string): Option<Value>
  {
    var mine := Fetch(pairs, key);
    if mine.None? then Fetch(config, key)
    else if !HasKey(config, key) then mine
    else if FetchOrNil(config, key).Hash? && mine.value.Hash? then Some(Hash(MergeInto(FetchOrNil(config, key).pairs, mine.value.pairs)))
    else None
  }

  /** In a hash with distinct keys, the value under the key of the `n`-th pair is the
      `n`-th value. */
  lemma FetchIsUnique(h: seq<(string, Value)>, n: int)
    requires UniqueKeys(h) && 0 <= n < |h|
    ensures Fetch(h, h[n].0) == Some(h[n].1)
  {
    var r := Fetch(h, h[n].0);
    var k :| 0 <= k < |h| && h[k] == (h[n].0, r.value);
  }

  /** Fetching a key other than the last pair's ignores that pair. */
  lemma {:induction false} FetchOther(h: seq<(string, Value)>, key: string)
    requires h != [] && h[|h| - 1].0 != key
    ensures Fetch(h, key) == Fetch(h[..|h| - 1], key)
    decreases |h|
  {
    if h[0].0 != key && |h| > 1 {
      FetchOther(h[1..], key);
      assert h[1..][..|h[1..]| - 1] == h[..|h| - 1][1..];
    }
  }
}
