/** The VufForm object: its field table, armed flag and emit handlers are
    updated in place by its methods. Each method that loops is proved to
    leave the state and result the pure model of the same operation
    describes (CheckField, GroupIsValid, Ingest, GetValueJson,
    GetJsonHeadUpper), so what is proved about those holds for the
    object. Nested forms are held as values. */
module Forms {
  import opened Text
  import opened Values
  import opened Validators
  import opened Extraction
  import opened Validation
  import opened Grouping
  import opened Ingestion

  /** The fields the constructor declares from the first `n` entries of
      the model: each with its initial value, its definition, a clear
      verdict, not yet evaluated. An entry without a definition declares
      nothing. */
  function Declared(model: seq<(string, Option<FieldConfig>)>, n: nat): seq<Field>
    requires n <= |model|
  {
    if n == 0 then []
    else Declared(model, n - 1) + match model[n - 1].1
      case None => []
      case Some(c) => [Field(model[n - 1].0, c.initial, c, Verdict(false, ""), false)]
  }

  /** The names of a model's entries are distinct (it is a record). */
  predicate DistinctNames(model: seq<(string, Option<FieldConfig>)>) {
    forall i, j :: 0 <= i < j < |model| ==> model[i].0 != model[j].0
  }

  /** Every declared field is fresh: it holds its initial value, with
      verdict `{ error: false, message: '' }`, not yet evaluated. */
  lemma {:induction false} DeclaredFresh(model: seq<(string, Option<FieldConfig>)>, n: nat)
    requires n <= |model|
    ensures forall i :: 0 <= i < |Declared(model, n)| ==>
      var fld := Declared(model, n)[i];
      fld.verdict == Verdict(false, "") && !fld.started && fld.value == fld.config.initial
  {
    if n > 0 {
      DeclaredFresh(model, n - 1);
      var prev := Declared(model, n - 1);
      assert forall i :: 0 <= i < |prev| ==> Declared(model, n)[i] == prev[i];
    }
  }

  /** Every declared field comes from an entry of the model with a
      definition, under that entry's name and with that definition. */
  lemma {:induction false} DeclaredOrigin(model: seq<(string, Option<FieldConfig>)>, n: nat, i: nat) returns (j: nat)
    requires n <= |model| && i < |Declared(model, n)|
    ensures j < n && model[j] == (Declared(model, n)[i].key, Some(Declared(model, n)[i].config))
  {
    var prev := Declared(model, n - 1);
    if i < |prev| {
      assert Declared(model, n)[i] == prev[i];
      j := DeclaredOrigin(model, n - 1, i);
    } else {
      j := n - 1;
    }
  }

  /** Every entry of the model with a definition is declared. */
  lemma {:induction false} DeclaredCovers(model: seq<(string, Option<FieldConfig>)>, n: nat, j: nat) returns (i: nat)
    requires j < n <= |model| && model[j].1.Some?
    ensures i < |Declared(model, n)| && Declared(model, n)[i].key == model[j].0
  {
    var prev := Declared(model, n - 1);
    if j < n - 1 {
      i := DeclaredCovers(model, n - 1, j);
      assert Declared(model, n)[i] == prev[i];
    } else {
      i := |prev|;
    }
  }

  /** The declared names are unique. */
  lemma {:induction false} DeclaredUnique(model: seq<(string, Option<FieldConfig>)>, n: nat)
    requires n <= |model| && DistinctNames(model)
    ensures UniqueKeys(Declared(model, n))
  {
    if n > 0 {
      DeclaredUnique(model, n - 1);
      var prev := Declared(model, n - 1);
      var d := Declared(model, n);
      forall a, b | 0 <= a < b < |d| ensures d[a].key != d[b].key {
        assert d[a] == prev[a];
        if b < |prev| {
          assert d[b] == prev[b];
        } else {
          var ja := DeclaredOrigin(model, n - 1, a);
          assert d[b].key == model[n - 1].0;
        }
      }
    }
  }

  class VufForm {
    /** Which adapter this form belongs to. */
    const variant: Variant
    /** The field table (`_fields`), in declaration order. */
    var fields: seq<Field>
    /** `$startValid`: validation has been started. */
    var armed: bool
    /** The emit handlers. */
    var emits: map<string, HandlerId>

    /** The form's state as a value. */
    function Data(): FormData
      reads this
    {
      FormData(fields, armed, emits)
    }

    /** The field table is a record: no name occurs twice (NoRepeatsUnique
        relates this to the pairwise UniqueKeys). */
    predicate Valid()
      reads this
    {
      NoRepeats(fields)
    }

    /** new VufForm(model, { emits }): one field per entry of the model.
        The Vue adapter skips entries whose definition is undefined; the
        Solid adapters read every definition. */
    constructor(v: Variant, model: seq<(string, Option<FieldConfig>)>, handlers: map<string, HandlerId>)
      requires DistinctNames(model)
      requires v == Solid ==> forall j :: 0 <= j < |model| ==> model[j].1.Some?
      ensures variant == v && !armed && emits == handlers
      ensures fields == Declared(model, |model|)
      ensures Valid()
    {
      variant := v;
      armed := false;
      emits := handlers;
      var table: seq<Field> := [];
      var n := 0;
      while n < |model|
        invariant 0 <= n <= |model|
        invariant table == Declared(model, n)
      {
        var (key, config) := model[n];
        if config.Some? {
          var c := config.value;
          table := table + [Field(key, c.initial, c, Verdict(false, ""), false)];
        }
        n := n + 1;
      }
      DeclaredUnique(model, |model|);
      NoRepeatsUnique(table);
      fields := table;
    }

    /** addEmit: registers the handler, replacing any previous one. */
    method AddEmit(name: string, handler: HandlerId)
      requires Valid()
      modifies this
      ensures Valid()
      ensures emits == old(emits)[name := handler]
      ensures fields == old(fields) && armed == old(armed)
    {
      emits := emits[name := handler];
    }

    /** removeEmit: drops the handler; an absent name changes nothing. */
    method RemoveEmit(name: string)
      requires Valid()
      modifies this
      ensures Valid()
      ensures emits == old(emits) - {name}
      ensures name !in old(emits) ==> emits == old(emits)
      ensures fields == old(fields) && armed == old(armed)
    {
      if name in emits {
        emits := emits - {name};
      }
    }

    /** emit: the handler's completion, or null when none is registered. */
    method Emit(call: (HandlerId, seq<Value>) -> Completion, name: string, args: seq<Value>) returns (c: Completion)
      ensures c == Values.Emit(emits, call, name, args)
    {
      if name in emits {
        c := call(emits[name], args);
      } else {
        c := Normal(Null);
      }
    }

    /** The value of field `key` (getFieldValue in the Solid adapters, the
        property getter in the Vue one). `None`: it throws, which the
        Solid adapters do for a name that is not a field; the Vue getter
        reads undefined. */
    method GetFieldValue(key: string) returns (r: Option<Value>)
      ensures FieldIndex(fields, key).Some? ==> r == Some(fields[FieldIndex(fields, key).value].value)
      ensures FieldIndex(fields, key).None? ==> r == if variant == Solid then None else Some(Undefined)
    {
      var idx := FieldIndex(fields, key);
      if idx.Some? {
        r := Some(fields[idx.value].value);
      } else if variant == Solid {
        r := None;
      } else {
        r := Some(Undefined);
      }
    }

    /** Writes field `key` (setFieldValue / the property setter): only
        that field's value changes. A name that is not a field throws in
        the Solid adapters and changes nothing in the Vue one. */
    method SetFieldValue(key: string, x: Value) returns (threw: bool)
      requires Valid()
      modifies this
      ensures Valid()
      ensures threw <==> FieldIndex(old(fields), key).None? && variant == Solid
      ensures FieldIndex(old(fields), key).None? ==> fields == old(fields)
      ensures FieldIndex(old(fields), key).Some? ==> Data() == SetValue(old(Data()), FieldIndex(old(fields), key).value, x)
      ensures armed == old(armed) && emits == old(emits)
    {
      var idx := FieldIndex(fields, key);
      if idx.Some? {
        var i := idx.value;
        NoRepeatsUpdate(fields, i, fields[i].(value := x));
        fields := fields[i := fields[i].(value := x)];
        threw := false;
      } else {
        threw := variant == Solid;
      }
    }

    /** startValid: arms the form; nothing disarms it. */
    method StartValid()
      requires Valid()
      modifies this
      ensures Valid()
      ensures armed && fields == old(fields) && emits == old(emits)
    {
      armed := true;
    }

    /** isErrorField(name): the rule loop over the field's value (RunRules
        keeps the field's message as rules fail; it is stored back into the
        field when the loop ends or a message throws, since the validators
        never see messages), then its verdict and mark. The new state and
        the outcome are those CheckField describes. */
    method IsErrorField(env: Env, name: string) returns (outcome: FieldOutcome)
      requires Valid()
      modifies this
      ensures Valid()
      ensures CheckField(variant, env, old(Data()), name) == CheckResult(Data(), outcome)
    {
      if !armed {
        return Reported(false);
      }
      var idx := FieldIndex(fields, name);
      if idx.None? {
        return if variant == Solid then Threw else Reported(false);
      }
      var i := idx.value;
      var fld := fields[i];
      if fld.config.validate.None? {
        return Reported(false);
      }
      var rules := fld.config.validate.value;
      var t := RunRules(variant, env, HandleOf(env, Data()), fld.value, rules, fld.verdict.message);
      if t.Stopped? {
        NoRepeatsUpdate(fields, i, fld.(verdict := fld.verdict.(message := t.message)));
        fields := fields[i := fld.(verdict := fld.verdict.(message := t.message))];
        return Threw;
      }
      var verdict := Verdict(t.hasError, if t.hasError then t.message else "");
      NoRepeatsUpdate(fields, i, fld.(verdict := verdict, started := true));
      fields := fields[i := fld.(verdict := verdict, started := true)];
      return Reported(t.hasError);
    }

    /** groupIsValid(names), in the Solid adapters: arms the form, then
        evaluates the targets. The new state and the result are those
        GroupIsValid describes. */
    method GroupIsValid(env: Env, names: seq<string>) returns (valid: Option<bool>)
      requires variant == Solid
      requires Valid()
      modifies this
      ensures Valid()
      ensures Grouping.GroupIsValid(env, old(Data()), names) == GroupResult(Data(), valid)
    {
      StartValid();
      var targets := GroupTargets(Data(), names);
      valid := EvaluateTargets(env, targets);
    }

    /** The loop of groupIsValid: every target in turn; the result is false
        once a target has failed, and an exception from a plain target
        escapes (`None`). */
    method EvaluateTargets(env: Env, targets: seq<string>) returns (valid: Option<bool>)
      requires variant == Solid
      requires Valid()
      modifies this
      ensures Valid()
      ensures GroupRun(Stepper(env), old(Data()), targets, |targets|) == GroupResult(Data(), valid)
    {
      ghost var f0 := Data();
      var isValid := true;
      var n := 0;
      while n < |targets|
        invariant 0 <= n <= |targets|
        invariant GroupRun(Stepper(env), f0, targets, n) == GroupResult(Data(), Some(isValid))
        invariant Valid()
      {
        var out := EvaluateNext(env, f0, targets, n, isValid);
        if out.Threw? {
          RunThrown(Stepper(env), f0, targets, n + 1, |targets|);
          return None;
        }
        if out.error {
          isValid := false;
        }
        n := n + 1;
      }
      return Some(isValid);
    }

    /** The `n`-th target of groupIsValid's loop, taking the running result
        of the first `n` targets to that of the first `n + 1`. */
    method EvaluateNext(env: Env, ghost f0: FormData, targets: seq<string>, n: nat, isValid: bool) returns (out: FieldOutcome)
      requires variant == Solid
      requires Valid()
      requires n < |targets| && GroupRun(Stepper(env), f0, targets, n) == GroupResult(Data(), Some(isValid))
      modifies this
      ensures Valid()
      ensures GroupRun(Stepper(env), f0, targets, n + 1) ==
        if out.Threw? then GroupResult(Data(), None) else GroupResult(Data(), Some(isValid && !out.error))
    {
      out := EvaluateTarget(env, targets[n]);
    }

    /** One target of groupIsValid: a `$` name is skipped; a dotted name
        evaluates the child name in the nested form its parent field holds
        (the nested form is not armed by the group, and what it throws is
        swallowed); a plain name is isErrorField. */
    method EvaluateTarget(env: Env, key: string) returns (out: FieldOutcome)
      requires variant == Solid
      requires Valid()
      modifies this
      ensures Valid()
      ensures Stepper(env)(old(Data()), key) == CheckResult(Data(), out)
    {
      if IsMeta(key) {
        return Reported(false);
      } else if Dotted(key) {
        var (parent, child) := SplitKey(key);
        if parent != "" {
          var idx := FieldIndex(fields, parent);
          if idx.Some? && fields[idx.value].value.Sub? {
            var p := idx.value;
            var c := CheckField(Solid, env, fields[p].value.form, child);
            NoRepeatsUpdate(fields, p, fields[p].(value := fields[p].value.(form := c.form)));
            fields := fields[p := fields[p].(value := fields[p].value.(form := c.form))];
            return Reported(c.outcome == Reported(true));
          }
        }
        return Reported(false);
      } else {
        out := IsErrorField(env, key);
      }
    }

    /** setData(obj, overrides): the properties of `obj` in order, each
        written by its override or by the default assignment, until one
        throws. The new state and whether it threw are those Ingest
        describes. */
    method SetData(obj: Value, ovs: map<string, Override>) returns (threw: bool)
      requires Valid()
      modifies this
      ensures Valid()
      ensures Ingest(variant, old(Data()), ovs, obj) == Ingested(Data(), threw)
    {
      if !Truthy(obj) {
        return false;
      }
      threw := IngestAll(ovs, obj);
    }

    /** setData's loop over the properties of `obj`, stopping at the first
        that throws. */
    method IngestAll(ovs: map<string, Override>, obj: Value) returns (threw: bool)
      requires Valid()
      modifies this
      ensures Valid()
      ensures IngestEntries(variant, old(Data()), ovs, obj, EntryCount(obj)) == Ingested(Data(), threw)
    {
      ghost var f0 := Data();
      var count := EntryCount(obj);
      var n := 0;
      threw := false;
      while n < count && !threw
        invariant 0 <= n <= count
        invariant IngestEntries(variant, f0, ovs, obj, n) == Ingested(Data(), threw)
        invariant Valid()
      {
        threw := IngestEntry(f0, ovs, obj, n);
        n := n + 1;
      }
      if threw {
        ThrowStops(variant, f0, ovs, obj, n, count);
      }
    }

    /** The `n`-th property of setData's loop, taking the form from the
        first `n` properties' result to the first `n + 1`'s. */
    method IngestEntry(ghost f0: FormData, ovs: map<string, Override>, obj: Value, n: nat) returns (threw: bool)
      requires Valid()
      requires n < EntryCount(obj) && IngestEntries(variant, f0, ovs, obj, n) == Ingested(Data(), false)
      modifies this
      ensures Valid()
      ensures IngestEntries(variant, f0, ovs, obj, n + 1) == Ingested(Data(), threw)
    {
      ghost var before := Data();
      threw := IngestProperty(ovs, EntryAt(obj, n), EntryValue(obj, n));
      EntriesStep(variant, f0, ovs, obj, n, before, Ingested(Data(), threw));
    }

    /** One property of setData: its override, if there is one, else the
        default assignment to the field of the head-lowered name. */
    method IngestProperty(ovs: map<string, Override>, key: string, w: Value) returns (threw: bool)
      requires Valid()
      modifies this
      ensures Valid()
      ensures IngestKey(variant, old(Data()), ovs, key, w) == Ingested(Data(), threw)
    {
      match OverrideFor(ovs, key)
      case Some(NullishFn) =>
        threw := variant == Solid;
      case Some(NotCallable) =>
        threw := true;
      case Some(Callback(run)) =>
        var writes := run(w);
        if writes.None? {
          return true;
        }
        ApplyWrites(writes.value);
        threw := false;
      case None =>
        var idx := FieldIndex(fields, HeadLower(key));
        threw := false;
        if idx.Some? {
          var i := idx.value;
          var x := AssignDefault(variant, fields[i].config, w);
          if x.None? {
            return true;
          }
          NoRepeatsKept(fields, SetValue(Data(), i, x.value).fields);
          fields := SetValue(Data(), i, x.value).fields;
        }
    }

    /** The field writes an override callback makes, in order; names that
        are not fields are ignored. */
    method ApplyWrites(ws: seq<(string, Value)>)
      requires Valid()
      modifies this
      ensures Valid()
      ensures fields == WriteAll(old(fields), ws, |ws|)
      ensures armed == old(armed) && emits == old(emits)
    {
      ghost var fs0 := fields;
      var j := 0;
      while j < |ws|
        invariant 0 <= j <= |ws|
        invariant fields == WriteAll(fs0, ws, j)
        invariant Valid()
        invariant armed == old(armed) && emits == old(emits)
      {
        var idx := FieldIndex(fields, ws[j].0);
        if idx.Some? {
          var i := idx.value;
          NoRepeatsUpdate(fields, i, fields[i].(value := ws[j].1));
          fields := fields[i := fields[i].(value := ws[j].1)];
        }
        j := j + 1;
      }
    }

    /** getValueJson(options) (getJson passes its options through): the
        filtered fields extracted, then, with a `format`, each key renamed
        in turn. `None`: an exception escaped. */
    method GetValueJson(opts: Options) returns (r: Option<Value>)
      ensures r == Extraction.GetValueJson(variant, Data(), opts)
    {
      var keys := FilteredKeys(fields, opts);
      var extracted := ExtractData(variant, Data(), keys, opts.ignoreBlank);
      if extracted.None? {
        return None;
      }
      var es := extracted.value;
      if opts.format.None? {
        return Some(Obj(es));
      }
      var renamed := RenameAll(es, opts.format.value);
      return Some(Obj(renamed));
    }

    /** getJsonHeadUpper(options): getValueJson with each key's head
        upper-cased. */
    method GetJsonHeadUpper(opts: Options) returns (r: Option<Value>)
      ensures r == Extraction.GetJsonHeadUpper(variant, Data(), opts)
    {
      var json := GetValueJson(opts);
      if json.None? {
        return None;
      }
      var renamed := RenameAll(json.value.entries, HeadUpper);
      return Some(Obj(renamed));
    }
  }

  /** The rule loop of isErrorField: each rule in turn, keeping the error
      flag and the last failure's message, until a message cannot be
      built (`Stopped`, with the message written so far). */
  method RunRules(variant: Variant, env: Env, h: Handle, v: Value, rules: seq<Rule>, init: string) returns (t: Tally)
    ensures t == Run(variant, env, h, v, rules, init, |rules|)
  {
    var hasError := false;
    var message := init;
    var k := 0;
    while k < |rules|
      invariant 0 <= k <= |rules|
      invariant Run(variant, env, h, v, rules, init, k) == Running(hasError, message)
    {
      var (rname, params) := ResolveRule(variant, rules[k]);
      var msg := Template(env.messages, rname, params);
      if msg.None? {
        RunStopped(variant, env, h, v, rules, init, k + 1, |rules|);
        return Stopped(message);
      }
      if rname in env.validators {
        var result := env.validators[rname](v, h, params);
        if result == Fail {
          message := msg.value;
          hasError := true;
        } else if result == Throw {
          message := GenericFailure;
          hasError := true;
        }
      }
      k := k + 1;
    }
    return Running(hasError, message);
  }

  /** `for (key in obj) out[fmt(key)] = obj[key]`. */
  method RenameAll(es: seq<(string, Value)>, fmt: string -> string) returns (out: seq<(string, Value)>)
    ensures out == Rename(es, fmt, |es|)
  {
    out := [];
    var j := 0;
    while j < |es|
      invariant 0 <= j <= |es|
      invariant out == Rename(es, fmt, j)
    {
      out := Put(out, fmt(es[j].0), es[j].1);
      j := j + 1;
    }
  }
}
