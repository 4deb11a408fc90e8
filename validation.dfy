/** Validation of one field (isErrorField): each rule of the field's list
    is resolved to a validator and a message, the validator is run on the
    field's value, and the field's `{ error, message }` records the
    outcome. */
module Validation {
  import opened Text
  import opened Values
  import opened Validators
  import Registry

  /** What isErrorField consults besides the form: the validator map, the
      current locale's message dictionary, and what the host's emit
      handlers return when called. */
  datatype Env = Env(validators: map<string, ValidatorFn>, messages: map<string, string>,
                     call: (HandlerId, seq<Value>) -> Completion)

  /** The message stored when a validator throws ("an error occurred
      during validation"). */
  const GenericFailure: string := "検証中にエラーが発生しました"

  /** The handle a validator receives: the form's emit handlers and its
      field data. */
  function HandleOf(env: Env, f: FormData): (h: Handle)
    ensures h.emits == f.emits && h.call == env.call && h.data == DataOf(f.fields)
  {
    Handle(f.emits, env.call, DataOf(f.fields))
  }

  /** The rule name and parameters a rule-list entry stands for. An empty
      tuple has no name: the Solid engines look up its missing head, which
      reads as the key "undefined"; the Vue engine uses ''. */
  function ResolveRule(variant: Variant, rule: Rule): (r: (string, seq<Value>))
    ensures rule.Named? ==> r == (rule.name, [])
    ensures rule.Tuple? ==> r == (rule.name, rule.params)
    ensures rule.EmptyTuple? ==> r.1 == [] && r.0 == (if variant == Solid then "undefined" else "")
  {
    match rule
    case Named(n) => (n, [])
    case Tuple(n, ps) => (n, ps)
    case EmptyTuple => (if variant == Solid then "undefined" else "", [])
  }

  /** A rule built by makeRule resolves, in either engine, to the name
      and parameters it was built from. */
  lemma MadeRuleResolves(variant: Variant, name: string, params: seq<Value>)
    ensures Registry.RuleOf(Registry.MakeRule(name, params)).Some?
    ensures ResolveRule(variant, Registry.RuleOf(Registry.MakeRule(name, params)).value) == (name, params)
  {
    Registry.MakeRuleRoundTrip(name, params);
  }

  /** What isErrorField reads from the registry when it starts: the
      validator map (getValidatorMap()) and the dictionary of the current
      locale (getMessages()), empty when that locale has none. */
  method CurrentEnv(registry: Registry.Registry, call: (HandlerId, seq<Value>) -> Completion) returns (env: Env)
    ensures env.validators == registry.validators && env.call == call
    ensures registry.locale in registry.messages ==> env.messages == registry.messages[registry.locale]
    ensures registry.locale !in registry.messages ==> env.messages == map[]
  {
    var validators := registry.GetValidatorMap();
    var messages := registry.GetMessages(None);
    env := Env(validators, messages, call);
  }

  /** The placeholder of parameter `i`. */
  function Placeholder(i: nat): string { "{" + NatText(i) + "}" }

  /** The message of a rule: a non-empty dictionary entry for the rule
      name with the first `{param}` replaced by the name, then the first
      `{i}` by the text of parameter i, for each i in order; without an
      entry, "Validation error: <name>". Converting a parameter to text can
      throw (`None`). */
  function Template(messages: map<string, string>, name: string, params: seq<Value>): (r: Option<string>)
    ensures name !in messages || messages[name] == "" ==> r == Some("Validation error: " + name)
    ensures r.None? <==> name in messages && messages[name] != "" && exists i :: 0 <= i < |params| && ToStr(params[i]).None?
  {
    if name in messages && messages[name] != "" then
      FillParams(ReplaceFirst(messages[name], "{param}", name), params, 0)
    else Some("Validation error: " + name)
  }

  /** The replacements of the placeholders from `{i}` on. */
  function FillParams(m: string, params: seq<Value>, i: nat): (r: Option<string>)
    requires i <= |params|
    decreases |params| - i
    ensures r.None? <==> exists j :: i <= j < |params| && ToStr(params[j]).None?
  {
    if i == |params| then Some(m)
    else match ToStr(params[i])
      case None => None
      case Some(t) => FillParams(ReplaceFirst(m, Placeholder(i), t), params, i + 1)
  }

  /** A worked case of the templating rules: with the dictionary entry
      "{param} max {0}", a failing maxLength(5) rule reads
      "maxLength max 5" (`{param}` is the rule name, not the field's). */
  lemma TemplateExample()
    ensures Template(map["maxLength" := "{param} max {0}"], "maxLength", [Num(5.0)]) == Some("maxLength max 5")
  {
    ParamStep();
    ZeroStep();
    WholeNumberText(5);
    assert ToStr(Num(5.0)) == Some("5");
    assert Placeholder(0) == "{0}";
  }

  lemma ParamStep()
    ensures ReplaceFirst("{param} max {0}", "{param}", "maxLength") == "maxLength max {0}"
  {
    var m := "{param} max {0}";
    ReplaceAt(m, "{param}", "maxLength", 0);
    assert m[7..] == " max {0}";
  }

  lemma ZeroStep()
    ensures ReplaceFirst("maxLength max {0}", "{0}", "5") == "maxLength max 5"
  {
    var m := "maxLength max {0}";
    assert m[14..17] == "{0}";
    ReplaceAt(m, "{0}", "5", 14);
    assert m[..14] == "maxLength max ";
  }

  /** When `pat` occurs at `i` and its first character appears nowhere
      before `i`, replacing the first occurrence replaces the one at `i`. */
  lemma ReplaceAt(s: string, pat: string, rep: string, i: nat)
    requires pat != [] && i + |pat| <= |s| && s[i..i + |pat|] == pat
    requires forall j :: 0 <= j < i ==> s[j] != pat[0]
    ensures ReplaceFirst(s, pat, rep) == s[..i] + rep + s[i + |pat|..]
  {
    forall j | 0 <= j < i ensures !OccursAt(s, pat, j) {
      if j + |pat| <= |s| {
        assert s[j..j + |pat|][0] == s[j];
      }
    }
    ReplaceFirstSpec(s, pat, rep, i);
  }

  /** A field without a rule list: isErrorField reports no error and
      leaves the form as it was, its verdict and its evaluated mark
      included. */
  lemma NoRulesNoChange(variant: Variant, env: Env, f: FormData, name: string, i: nat)
    requires i < |f.fields| && FieldIndex(f.fields, name) == Some(i)
    requires f.fields[i].config.validate.None?
    ensures CheckField(variant, env, f, name) == CheckResult(f, Reported(false))
  {
  }

  /** The progress of the rule loop: whether a rule has failed so far and
      the field's message so far, or an exception that escaped the loop
      (with the message as it stood). */
  datatype Tally = Running(hasError: bool, message: string) | Stopped(message: string)

  /** A rule whose validator is registered and returns falsy or throws. */
  predicate RuleFails(variant: Variant, env: Env, h: Handle, v: Value, rule: Rule) {
    var (name, params) := ResolveRule(variant, rule);
    name in env.validators && env.validators[name](v, h, params) != Pass
  }

  /** A rule whose message cannot be built: the exception escapes. */
  predicate RuleStops(variant: Variant, env: Env, rule: Rule) {
    var (name, params) := ResolveRule(variant, rule);
    Template(env.messages, name, params).None?
  }

  /** The message a failing rule leaves: its own message when its
      validator returned falsy, the generic one when it threw. */
  function FailureMessage(variant: Variant, env: Env, h: Handle, v: Value, rule: Rule): string
    requires !RuleStops(variant, env, rule)
  {
    var (name, params) := ResolveRule(variant, rule);
    if name in env.validators && env.validators[name](v, h, params) == Throw then GenericFailure
    else Template(env.messages, name, params).value
  }

  /** One iteration of the rule loop. */
  function Step(variant: Variant, env: Env, h: Handle, v: Value, t: Tally, rule: Rule): (r: Tally)
    requires t.Running?
    ensures r.Stopped? <==> RuleStops(variant, env, rule)
    ensures r.Stopped? ==> r.message == t.message
    ensures r.Running? && RuleFails(variant, env, h, v, rule) ==> r == Running(true, FailureMessage(variant, env, h, v, rule))
    ensures r.Running? && !RuleFails(variant, env, h, v, rule) ==> r == t
  {
    var (name, params) := ResolveRule(variant, rule);
    match Template(env.messages, name, params)
    case None => Stopped(t.message)
    case Some(msg) =>
      if name !in env.validators then t
      else match env.validators[name](v, h, params)
        case Pass => t
        case Fail => Running(true, msg)
        case Throw => Running(true, GenericFailure)
  }

  /** The loop over the first `n` rules, from the field's current message. */
  function Run(variant: Variant, env: Env, h: Handle, v: Value, rules: seq<Rule>, init: string, n: nat): (r: Tally)
    requires n <= |rules|
  {
    if n == 0 then Running(false, init)
    else
      var t := Run(variant, env, h, v, rules, init, n - 1);
      if t.Stopped? then t else Step(variant, env, h, v, t, rules[n - 1])
  }

  /** The loop runs to the end iff no rule's message throws; the error
      flag is then the disjunction over the rules of "registered and
      falsy or throwing" (so unregistered names never set it), and the
      message is that of the last failing rule, or the one it started
      from when none failed. */
  lemma {:induction false} RunSpec(variant: Variant, env: Env, h: Handle, v: Value, rules: seq<Rule>, init: string, n: nat)
    requires n <= |rules|
    ensures var t := Run(variant, env, h, v, rules, init, n);
      (t.Running? <==> forall i :: 0 <= i < n ==> !RuleStops(variant, env, rules[i]))
      && (t.Running? ==> (t.hasError <==> exists i :: 0 <= i < n && RuleFails(variant, env, h, v, rules[i])))
      && (t.Running? && !t.hasError ==> t.message == init)
      && (t.Running? && t.hasError ==> exists j :: 0 <= j < n && LastFailure(variant, env, h, v, rules, n, j)
                                              && t.message == FailureMessage(variant, env, h, v, rules[j]))
  {
    RunRunning(variant, env, h, v, rules, init, n);
    RunFlags(variant, env, h, v, rules, init, n);
    var t := Run(variant, env, h, v, rules, init, n);
    if t.Running? && t.hasError {
      var j := RunFailure(variant, env, h, v, rules, init, n);
    }
  }

  /** The loop runs to the end iff no rule's message throws. */
  lemma {:induction false} RunRunning(variant: Variant, env: Env, h: Handle, v: Value, rules: seq<Rule>, init: string, n: nat)
    requires n <= |rules|
    ensures Run(variant, env, h, v, rules, init, n).Running? <==> forall i :: 0 <= i < n ==> !RuleStops(variant, env, rules[i])
  {
    if n > 0 {
      RunRunning(variant, env, h, v, rules, init, n - 1);
      var t := Run(variant, env, h, v, rules, init, n - 1);
      if t.Running? {
        assert Run(variant, env, h, v, rules, init, n).Running? == !RuleStops(variant, env, rules[n - 1]);
      }
    }
  }

  /** A completed loop has an error iff some rule fails, and keeps the
      message it started from when none does. */
  lemma {:induction false} RunFlags(variant: Variant, env: Env, h: Handle, v: Value, rules: seq<Rule>, init: string, n: nat)
    requires n <= |rules|
    ensures var t := Run(variant, env, h, v, rules, init, n);
      t.Running? ==> (t.hasError <==> exists i :: 0 <= i < n && RuleFails(variant, env, h, v, rules[i]))
                     && (!t.hasError ==> t.message == init)
  {
    if n > 0 {
      RunFlags(variant, env, h, v, rules, init, n - 1);
      var t := Run(variant, env, h, v, rules, init, n - 1);
      if t.Running? && !RuleStops(variant, env, rules[n - 1]) {
        assert Run(variant, env, h, v, rules, init, n) == Step(variant, env, h, v, t, rules[n - 1]);
      }
    }
  }

  /** The rule whose message a completed loop with an error ends with: the
      last failing one. */
  lemma {:induction false} RunFailure(variant: Variant, env: Env, h: Handle, v: Value, rules: seq<Rule>, init: string, n: nat)
    returns (j: nat)
    requires n <= |rules|
    requires Run(variant, env, h, v, rules, init, n).Running? && Run(variant, env, h, v, rules, init, n).hasError
    ensures j < n && LastFailure(variant, env, h, v, rules, n, j)
    ensures Run(variant, env, h, v, rules, init, n).message == FailureMessage(variant, env, h, v, rules[j])
  {
    var t := Run(variant, env, h, v, rules, init, n - 1);
    assert t.Running?;
    if RuleFails(variant, env, h, v, rules[n - 1]) {
      j := n - 1;
    } else {
      assert Run(variant, env, h, v, rules, init, n) == t;
      j := RunFailure(variant, env, h, v, rules, init, n - 1);
      LastFailureExtends(variant, env, h, v, rules, n, j);
    }
  }

  /** Once a rule's message throws, the loop is over: later rules change
      nothing, and the message written so far is what remains. */
  lemma {:induction false} RunStopped(variant: Variant, env: Env, h: Handle, v: Value, rules: seq<Rule>, init: string, m: nat, n: nat)
    requires m <= n <= |rules| && Run(variant, env, h, v, rules, init, m).Stopped?
    ensures Run(variant, env, h, v, rules, init, n) == Run(variant, env, h, v, rules, init, m)
  {
    if m < n {
      RunStopped(variant, env, h, v, rules, init, m, n - 1);
    }
  }

  /** A last failure among the first `n - 1` rules stays the last one when
      rule `n - 1` does not fail. */
  lemma LastFailureExtends(variant: Variant, env: Env, h: Handle, v: Value, rules: seq<Rule>, n: nat, j: nat)
    requires 0 < n <= |rules| && LastFailure(variant, env, h, v, rules, n - 1, j)
    requires !RuleFails(variant, env, h, v, rules[n - 1])
    ensures LastFailure(variant, env, h, v, rules, n, j)
  {
    forall l | j < l < n ensures !RuleFails(variant, env, h, v, rules[l]) {
      if l < n - 1 {
        assert LastFailure(variant, env, h, v, rules, n - 1, j);
      }
    }
  }

  /** Rule `j` fails and no later rule among the first `n` does. */
  predicate LastFailure(variant: Variant, env: Env, h: Handle, v: Value, rules: seq<Rule>, n: nat, j: nat)
    requires n <= |rules|
  {
    j < n && RuleFails(variant, env, h, v, rules[j]) && !RuleStops(variant, env, rules[j])
    && forall l :: j < l < n ==> !RuleFails(variant, env, h, v, rules[l])
  }

  // ---------------------------------------------------------------------
  // isErrorField
  // ---------------------------------------------------------------------

  /** How isErrorField ended: with its boolean result, or by throwing. */
  datatype FieldOutcome = Reported(error: bool) | Threw

  datatype CheckResult = CheckResult(form: FormData, outcome: FieldOutcome)

  /** The form after isErrorField(name) and its outcome. Before the form is
      armed, and for a field without a rule list, nothing changes and the
      result is false. An unknown name throws in the Solid engines and is
      false in the Vue engine. Otherwise the rule loop runs over the
      field's value; when it completes, the field's verdict becomes the
      error flag with the last failure's message (or '' when nothing
      failed) and the field is marked as evaluated; when a message cannot
      be built, the exception escapes and only the message written so far
      stays. */
  function CheckField(variant: Variant, env: Env, f: FormData, name: string): (r: CheckResult)
    ensures !f.armed ==> r == CheckResult(f, Reported(false))
    ensures FieldIndex(f.fields, name).None? ==> r.form == f
    ensures FieldIndex(f.fields, name).None? && f.armed ==> r.outcome == if variant == Solid then Threw else Reported(false)
    ensures r.form.armed == f.armed && r.form.emits == f.emits && |r.form.fields| == |f.fields|
    ensures forall i :: 0 <= i < |f.fields| ==>
      r.form.fields[i].key == f.fields[i].key && r.form.fields[i].value == f.fields[i].value
      && r.form.fields[i].config == f.fields[i].config
    ensures forall i :: 0 <= i < |f.fields| && f.fields[i].key != name ==> r.form.fields[i] == f.fields[i]
  {
    if !f.armed then CheckResult(f, Reported(false))
    else match FieldIndex(f.fields, name)
      case None => CheckResult(f, if variant == Solid then Threw else Reported(false))
      case Some(i) =>
        var fld := f.fields[i];
        match fld.config.validate
        case None => CheckResult(f, Reported(false))
        case Some(rules) =>
          var t := Run(variant, env, HandleOf(env, f), fld.value, rules, fld.verdict.message, |rules|);
          if t.Stopped? then
            CheckResult(f.(fields := f.fields[i := fld.(verdict := fld.verdict.(message := t.message))]), Threw)
          else
            var verdict := Verdict(t.hasError, if t.hasError then t.message else "");
            CheckResult(f.(fields := f.fields[i := fld.(verdict := verdict, started := true)]), Reported(t.hasError))
  }

  /** The result of isErrorField on an armed form's field with a rule
      list, in terms of its rules: the field is marked evaluated, the
      returned flag and the stored error are the disjunction over the rules
      of "registered and falsy or throwing", and the stored message is
      the last failing rule's message, or '' when no rule failed. */
  lemma CheckFieldSpec(variant: Variant, env: Env, f: FormData, name: string, i: nat)
    requires f.armed && i < |f.fields| && FieldIndex(f.fields, name) == Some(i)
    requires f.fields[i].config.validate.Some?
    ensures var rules := f.fields[i].config.validate.value;
      var h := HandleOf(env, f);
      var v := f.fields[i].value;
      var r := CheckField(variant, env, f, name);
      (r.outcome.Reported? <==> forall j :: 0 <= j < |rules| ==> !RuleStops(variant, env, rules[j]))
      && (r.outcome.Reported? ==>
            r.form.fields[i].started
            && r.form.fields[i].verdict.error == r.outcome.error
            && (r.outcome.error <==> exists j :: 0 <= j < |rules| && RuleFails(variant, env, h, v, rules[j]))
            && (!r.outcome.error ==> r.form.fields[i].verdict.message == "")
            && (r.outcome.error ==> exists j :: 0 <= j < |rules| && LastFailure(variant, env, h, v, rules, |rules|, j)
                                     && r.form.fields[i].verdict.message == FailureMessage(variant, env, h, v, rules[j])))
      && (r.outcome.Threw? ==> r.form.fields[i].verdict.error == f.fields[i].verdict.error
                               && r.form.fields[i].started == f.fields[i].started)
  {
    var rules := f.fields[i].config.validate.value;
    RunSpec(variant, env, HandleOf(env, f), f.fields[i].value, rules, f.fields[i].verdict.message, |rules|);
  }

  /** A field whose rules all name unregistered validators never reports
      an error. */
  lemma UnregisteredNeverFails(variant: Variant, env: Env, f: FormData, name: string, i: nat)
    requires f.armed && i < |f.fields| && FieldIndex(f.fields, name) == Some(i)
    requires f.fields[i].config.validate.Some?
    requires forall j :: 0 <= j < |f.fields[i].config.validate.value| ==>
      ResolveRule(variant, f.fields[i].config.validate.value[j]).0 !in env.validators
    ensures CheckField(variant, env, f, name).outcome != Reported(true)
  {
    CheckFieldSpec(variant, env, f, name, i);
  }

  /** Evaluating a field twice in a row gives the same outcome and state
      as evaluating it once: the verdict depends only on the value, the
      rules and the environment. */
  lemma CheckFieldIdempotent(variant: Variant, env: Env, f: FormData, name: string)
    requires CheckField(variant, env, f, name).outcome.Reported?
    ensures var r := CheckField(variant, env, f, name);
      CheckField(variant, env, r.form, name) == r
  {
    if f.armed && FieldIndex(f.fields, name).Some? {
      var i := FieldIndex(f.fields, name).value;
      if f.fields[i].config.validate.Some? {
        RerunField(variant, env, f, name, i);
      }
    }
  }

  /** The second evaluation of a field whose loop completed. */
  lemma RerunField(variant: Variant, env: Env, f: FormData, name: string, i: nat)
    requires f.armed && i < |f.fields| && FieldIndex(f.fields, name) == Some(i)
    requires f.fields[i].config.validate.Some?
    requires var fld := f.fields[i]; var rules := fld.config.validate.value;
      Run(variant, env, HandleOf(env, f), fld.value, rules, fld.verdict.message, |rules|).Running?
    ensures var r := CheckField(variant, env, f, name);
      CheckField(variant, env, r.form, name) == r
  {
    var fld := f.fields[i];
    var rules := fld.config.validate.value;
    var h := HandleOf(env, f);
    var t := Run(variant, env, h, fld.value, rules, fld.verdict.message, |rules|);
    CheckFieldCompletes(variant, env, f, name, i);
    var verdict := Verdict(t.hasError, if t.hasError then t.message else "");
    var f2 := f.(fields := f.fields[i := fld.(verdict := verdict, started := true)]);
    assert SameData(f.fields, f2.fields);
    FieldIndexSameKeys(f.fields, f2.fields, name);
    HandleIgnoresVerdicts(env, f, f2);
    RunInitIrrelevant(variant, env, h, fld.value, rules, fld.verdict.message, verdict.message, |rules|);
    SettledField(variant, env, f2, name, i);
  }

  /** A field already carrying the verdict its rules give, and marked
      evaluated, is left as it is. */
  lemma SettledField(variant: Variant, env: Env, g: FormData, name: string, i: nat)
    requires g.armed && i < |g.fields| && FieldIndex(g.fields, name) == Some(i)
    requires g.fields[i].config.validate.Some? && g.fields[i].started
    requires var fld := g.fields[i]; var rules := fld.config.validate.value;
      var t := Run(variant, env, HandleOf(env, g), fld.value, rules, fld.verdict.message, |rules|);
      t.Running? && fld.verdict == Verdict(t.hasError, if t.hasError then t.message else "")
    ensures CheckField(variant, env, g, name).form == g
  {
    CheckFieldCompletes(variant, env, g, name, i);
    var fld := g.fields[i];
    assert g.fields[i := fld.(verdict := fld.verdict, started := true)] == g.fields;
  }

  /** isErrorField's outcome, and what it leaves in the named field,
      depend on the form's values, configurations, handlers and armed
      flag, not on the verdicts or marks already stored. */
  lemma CheckFieldDependsOnData(variant: Variant, env: Env, f: FormData, g: FormData, name: string)
    requires f.armed == g.armed && f.emits == g.emits && SameData(f.fields, g.fields)
    ensures var rf := CheckField(variant, env, f, name);
      var rg := CheckField(variant, env, g, name);
      rf.outcome == rg.outcome
      && (f.armed && rf.outcome.Reported? && FieldIndex(f.fields, name).Some?
          && f.fields[FieldIndex(f.fields, name).value].config.validate.Some? ==>
            rf.form.fields[FieldIndex(f.fields, name).value] == rg.form.fields[FieldIndex(f.fields, name).value])
  {
    FieldIndexSameKeys(f.fields, g.fields, name);
    if f.armed && FieldIndex(f.fields, name).Some? {
      var i := FieldIndex(f.fields, name).value;
      if f.fields[i].config.validate.Some? {
        SameRulesSameVerdict(variant, env, f, g, name, i);
      }
    }
  }

  /** CheckFieldDependsOnData for a field with a rule list. */
  lemma SameRulesSameVerdict(variant: Variant, env: Env, f: FormData, g: FormData, name: string, i: nat)
    requires f.armed && g.armed && f.emits == g.emits && SameData(f.fields, g.fields)
    requires i < |f.fields| && FieldIndex(f.fields, name) == Some(i) && FieldIndex(g.fields, name) == Some(i)
    requires f.fields[i].config.validate.Some?
    ensures var rf := CheckField(variant, env, f, name);
      var rg := CheckField(variant, env, g, name);
      rf.outcome == rg.outcome && (rf.outcome.Reported? ==> rf.form.fields[i] == rg.form.fields[i])
  {
    var rules := f.fields[i].config.validate.value;
    HandleIgnoresVerdicts(env, f, g);
    RunInitIrrelevant(variant, env, HandleOf(env, f), f.fields[i].value, rules,
                      f.fields[i].verdict.message, g.fields[i].verdict.message, |rules|);
    CheckFieldCompletes(variant, env, f, name, i);
    CheckFieldCompletes(variant, env, g, name, i);
  }

  /** isErrorField on an armed form's field with a rule list whose loop
      completes: the field takes the verdict and is marked evaluated. */
  lemma CheckFieldCompletes(variant: Variant, env: Env, f: FormData, name: string, i: nat)
    requires f.armed && i < |f.fields| && FieldIndex(f.fields, name) == Some(i)
    requires f.fields[i].config.validate.Some?
    ensures var fld := f.fields[i];
      var rules := fld.config.validate.value;
      var t := Run(variant, env, HandleOf(env, f), fld.value, rules, fld.verdict.message, |rules|);
      t.Running? ==>
        CheckField(variant, env, f, name)
        == CheckResult(f.(fields := f.fields[i := fld.(verdict := Verdict(t.hasError, if t.hasError then t.message else ""), started := true)]),
                       Reported(t.hasError))
  {
  }

  /** The loop's outcome beyond the message it starts from does not depend
      on that message, and a loop that records a failure overwrites it. */
  lemma {:induction false} RunInitIrrelevant(variant: Variant, env: Env, h: Handle, v: Value, rules: seq<Rule>, m1: string, m2: string, n: nat)
    requires n <= |rules|
    ensures var t1 := Run(variant, env, h, v, rules, m1, n);
      var t2 := Run(variant, env, h, v, rules, m2, n);
      t1.Running? == t2.Running?
      && (t1.Running? ==> t1.hasError == t2.hasError && (t1.hasError ==> t1.message == t2.message))
  {
    if n > 0 {
      RunInitIrrelevant(variant, env, h, v, rules, m1, m2, n - 1);
    }
  }

  /** The handle a validator sees depends on the form's values and
      handlers, not on verdicts or evaluation marks. */
  lemma HandleIgnoresVerdicts(env: Env, f: FormData, g: FormData)
    requires f.emits == g.emits && SameData(f.fields, g.fields)
    ensures HandleOf(env, f) == HandleOf(env, g)
  {
    assert DataOf(f.fields) == DataOf(g.fields);
  }
}
