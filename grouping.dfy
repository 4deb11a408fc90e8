/** Group validation (groupIsValid, in the Solid engines): the form is
    armed, then every target name is evaluated in turn with isErrorField,
    without stopping at the first failure. A dotted name `parent.child`
    evaluates `child` in the nested form held by field `parent`, and
    anything that nested evaluation throws is swallowed. */
module Grouping {
  import opened Text
  import opened Values
  import opened Extraction
  import opened Validation

  /** How groupIsValid ended: the form it leaves, and its result, or
      `None` when an evaluation threw out of it. */
  datatype GroupResult = GroupResult(form: FormData, valid: Option<bool>)

  /** The names evaluated: the given list when it is non-empty, otherwise
      every field name not starting with `$`, in declaration order. */
  function GroupTargets(f: FormData, names: seq<string>): (r: seq<string>)
    ensures |names| > 0 ==> r == names
    ensures |names| == 0 ==> forall k :: k in r <==> FieldIndex(f.fields, k).Some? && !IsMeta(k)
  {
    if |names| > 0 then names
    else
      var keys := Keys(f.fields);
      assert forall k :: k in keys <==> FieldIndex(f.fields, k).Some? by {
        forall k | k in keys ensures FieldIndex(f.fields, k).Some? {
          var i :| 0 <= i < |keys| && keys[i] == k;
          assert f.fields[i].key == k;
        }
      }
      Visible(keys)
  }

  /** The names that do not start with `$`, in their order. */
  function Visible(keys: seq<string>): (r: seq<string>)
    ensures forall k :: k in r <==> k in keys && !IsMeta(k)
    ensures (forall k :: k in keys ==> !IsMeta(k)) ==> r == keys
    ensures |r| <= |keys|
  {
    if keys == [] then []
    else (if IsMeta(keys[0]) then [] else [keys[0]]) + Visible(keys[1..])
  }

  /** Filtering a concatenation filters each part in turn, so the kept
      names stay in their original order. */
  lemma {:induction false} VisibleAppend(a: seq<string>, b: seq<string>)
    ensures Visible(a + b) == Visible(a) + Visible(b)
  {
    if a == [] {
      assert a + b == b;
    } else {
      var t := a[1..];
      var h := if IsMeta(a[0]) then [] else [a[0]];
      assert a + b == [a[0]] + (t + b);
      assert a == [a[0]] + t;
      calc {
        Visible(a + b);
        == { VisibleCons(a[0], t + b); }
        h + Visible(t + b);
        == { VisibleAppend(t, b); }
        h + (Visible(t) + Visible(b));
        (h + Visible(t)) + Visible(b);
        == { VisibleCons(a[0], t); }
        Visible(a) + Visible(b);
      }
    }
  }

  /** One unfolding of `Visible` on a name put in front. */
  lemma VisibleCons(k: string, t: seq<string>)
    ensures Visible([k] + t) == (if IsMeta(k) then [] else [k]) + Visible(t)
  {
    assert ([k] + t)[1..] == t;
  }

  /** The kept names `r` sit at strictly increasing positions of the
      input: `pos[i]` is where the `i`-th kept name came from. */
  lemma {:induction false} VisiblePositions(keys: seq<string>, r: seq<string>) returns (pos: seq<nat>)
    requires r == Visible(keys)
    ensures Locates(keys, pos, r)
    ensures Increasing(pos)
  {
    if keys == [] {
      return [];
    }
    var tail := keys[1..];
    var vt := Visible(tail);
    var rest := VisiblePositions(tail, vt);
    assert keys == [keys[0]] + tail;
    LocatesCons(keys[0], tail, rest, vt);
    ShiftIncreasing(rest);
    if IsMeta(keys[0]) {
      assert r == vt;
      pos := Shift(rest);
    } else {
      assert r == [keys[0]] + vt;
      pos := [0] + Shift(rest);
    }
  }

  /** `pos` gives, for each name of `r`, a position in `keys` holding it. */
  predicate Locates(keys: seq<string>, pos: seq<nat>, r: seq<string>) {
    && |pos| == |r|
    && forall i :: 0 <= i < |pos| ==> pos[i] < |keys| && keys[pos[i]] == r[i]
  }

  /** Positions found in the tail move one further when a name is put in
      front; the front name itself sits at position 0. */
  lemma LocatesCons(k: string, tail: seq<string>, rest: seq<nat>, vt: seq<string>)
    requires Locates(tail, rest, vt)
    ensures Locates([k] + tail, Shift(rest), vt)
    ensures Locates([k] + tail, [0] + Shift(rest), [k] + vt)
  {
    var keys := [k] + tail;
    forall i | 0 <= i < |rest| ensures keys[rest[i] + 1] == tail[rest[i]] {
    }
    var zs := [0] + Shift(rest);
    forall i | 0 < i < |zs| ensures zs[i] < |keys| && keys[zs[i]] == ([k] + vt)[i] {
      assert zs[i] == rest[i - 1] + 1;
    }
  }

  /** Strictly increasing positions. */
  predicate Increasing(ps: seq<nat>) {
    forall i, j :: 0 <= i < j < |ps| ==> ps[i] < ps[j]
  }

  /** Moving increasing positions one further keeps them increasing and
      leaves room for position 0 in front. */
  lemma ShiftIncreasing(ps: seq<nat>)
    requires Increasing(ps)
    ensures Increasing(Shift(ps)) && Increasing([0] + Shift(ps))
  {
    var sh := Shift(ps);
    var zs := [0] + sh;
    forall i, j | 0 <= i < j < |zs| ensures zs[i] < zs[j] {
      assert zs[j] == ps[j - 1] + 1;
      if i > 0 {
        assert zs[i] == ps[i - 1] + 1;
      }
    }
  }

  /** Every position moved one further. */
  function Shift(ps: seq<nat>): (r: seq<nat>)
    ensures |r| == |ps| && forall i :: 0 <= i < |ps| ==> r[i] == ps[i] + 1
  {
    if ps == [] then [] else [ps[0] + 1] + Shift(ps[1..])
  }

  /** In a table without repeated names, a field's position is the one
      FieldIndex finds. */
  lemma FirstIsOnly(fields: seq<Field>, p: nat)
    requires UniqueKeys(fields) && p < |fields|
    ensures FieldIndex(fields, fields[p].key) == Some(p)
  {
  }

  /** Without explicit names, the targets follow the declaration order of
      the fields. */
  lemma DefaultTargetsInOrder(f: FormData)
    requires UniqueKeys(f.fields)
    ensures var r := GroupTargets(f, []);
      forall i, j :: 0 <= i < j < |r| ==> FieldIndex(f.fields, r[i]).value < FieldIndex(f.fields, r[j]).value
  {
    var keys := Keys(f.fields);
    var r := GroupTargets(f, []);
    assert r == Visible(keys);
    var pos := VisiblePositions(keys, r);
    forall i | 0 <= i < |r| ensures FieldIndex(f.fields, r[i]) == Some(pos[i]) {
      assert f.fields[pos[i]].key == r[i];
      FirstIsOnly(f.fields, pos[i]);
    }
  }

  /** The text up to the first dot (all of it when there is none). */
  function Segment(s: string): (r: string)
    ensures r <= s && '.' !in r
    ensures '.' !in s ==> r == s
    ensures '.' in s ==> |r| < |s| && s[|r|] == '.'
  {
    if s == [] || s[0] == '.' then [] else [s[0]] + Segment(s[1..])
  }

  /** A name with a dot: a field of a nested form. */
  predicate Dotted(key: string) { '.' in key }

  /** `key.split('.')` read as `[parent, child]`: the text before the
      first dot, and the text between it and the next dot or the end. */
  function SplitKey(key: string): (r: (string, string))
    requires '.' in key
    ensures '.' !in r.0 && '.' !in r.1
    ensures |r.0| < |key| && key[..|r.0|] == r.0 && key[|r.0|] == '.'
    ensures r.1 <= key[|r.0| + 1..]
  {
    var parent := Segment(key);
    (parent, Segment(key[|parent| + 1..]))
  }

  /** The evaluation of one target. A `$` name is skipped. A plain name is
      isErrorField on this form. A dotted name acts only when the parent
      name is non-empty and names a field holding a nested form: that form
      evaluates the child name, keeps what the evaluation wrote (also when
      it threw), and the target counts as failed only when the nested
      evaluation returned true. */
  function GroupStep(env: Env, f: FormData, key: string): CheckResult
  {
    if IsMeta(key) then CheckResult(f, Reported(false))
    else if !Dotted(key) then CheckField(Solid, env, f, key)
    else
      var (parent, child) := SplitKey(key);
      if parent == "" then CheckResult(f, Reported(false))
      else match FieldIndex(f.fields, parent)
        case None => CheckResult(f, Reported(false))
        case Some(p) =>
          match f.fields[p].value
          case Sub(g, _) =>
            var c := CheckField(Solid, env, g, child);
            CheckResult(f.(fields := f.fields[p := f.fields[p].(value := f.fields[p].value.(form := c.form))]),
                        Reported(c.outcome == Reported(true)))
          case _ => CheckResult(f, Reported(false))
  }

  /** An evaluation keeps the armed flag, the handlers and each field's
      name and definition; a `$` name changes nothing; a dotted name always
      returns and leaves this form's verdicts and marks alone. A dotted
      name `p.c` fails exactly when `p` holds a nested form whose own
      isErrorField(c) returns true, so a nested throw lets it pass; the
      nested form keeps what that evaluation wrote. */
  lemma GroupStepSpec(env: Env, f: FormData, key: string)
    ensures var r := GroupStep(env, f, key);
      r.form.armed == f.armed && r.form.emits == f.emits && |r.form.fields| == |f.fields|
      && (forall i :: 0 <= i < |f.fields| ==>
            r.form.fields[i].key == f.fields[i].key && r.form.fields[i].config == f.fields[i].config)
      && (IsMeta(key) ==> r == CheckResult(f, Reported(false)))
      && (Dotted(key) ==> r.outcome.Reported?)
      && (Dotted(key) ==> forall i :: 0 <= i < |f.fields| ==>
            r.form.fields[i].verdict == f.fields[i].verdict && r.form.fields[i].started == f.fields[i].started)
    ensures Dotted(key) && !IsMeta(key) ==>
      var r := GroupStep(env, f, key);
      var (parent, child) := SplitKey(key);
      var p := FieldIndex(f.fields, parent);
        && (r.outcome == Reported(true) <==>
              parent != "" && p.Some? && f.fields[p.value].value.Sub?
              && CheckField(Solid, env, f.fields[p.value].value.form, child).outcome == Reported(true))
        && (parent != "" && p.Some? && f.fields[p.value].value.Sub? ==>
              var c := CheckField(Solid, env, f.fields[p.value].value.form, child);
              r.form.fields == f.fields[p.value := f.fields[p.value].(value := f.fields[p.value].value.(form := c.form))])
  {
  }

  /** One evaluation as the loop performs it, with the environment fixed. */
  function Stepper(env: Env): (FormData, string) -> CheckResult
  {
    (g, k) => GroupStep(env, g, k)
  }

  /** No evaluation changes a form's shape. */
  lemma StepperShape(env: Env)
    ensures forall g, k :: SameShape(g, Stepper(env)(g, k).form)
  {
    forall g, k ensures SameShape(g, Stepper(env)(g, k).form) {
      assert Stepper(env)(g, k) == GroupStep(env, g, k);
      GroupStepSpec(env, g, k);
    }
  }

  /** The loop over the first `n` targets: the result stays true until a
      target fails, and an exception ends the loop. */
  function GroupRun(step: (FormData, string) -> CheckResult, f: FormData, targets: seq<string>, n: nat): (r: GroupResult)
    requires n <= |targets|
  {
    if n == 0 then GroupResult(f, Some(true))
    else
      var prev := GroupRun(step, f, targets, n - 1);
      if prev.valid.None? then prev
      else
        var s := step(prev.form, targets[n - 1]);
        match s.outcome
        case Threw => GroupResult(s.form, None)
        case Reported(e) => GroupResult(s.form, Some(prev.valid.value && !e))
  }

  /** groupIsValid(names): arm the form, then evaluate the targets. The
      form stays armed, with its handlers, and keeps its field names and
      definitions in place. */
  function GroupIsValid(env: Env, f: FormData, names: seq<string>): (r: GroupResult)
    ensures r.form.armed && SameShape(f.(armed := true), r.form)
  {
    var targets := GroupTargets(f, names);
    StepperShape(env);
    RunKeepsShape(Stepper(env), f.(armed := true), targets, |targets|);
    GroupRun(Stepper(env), f.(armed := true), targets, |targets|)
  }

  /** Same armed flag, handlers and number of fields, and each field keeps
      its name and definition. */
  predicate SameShape(f: FormData, g: FormData) {
    g.armed == f.armed && g.emits == f.emits && |g.fields| == |f.fields|
    && forall i :: 0 <= i < |f.fields| ==> g.fields[i].key == f.fields[i].key && g.fields[i].config == f.fields[i].config
  }

  /** A loop whose every step keeps the shape keeps it. */
  lemma {:induction false} RunKeepsShape(step: (FormData, string) -> CheckResult, f: FormData, ts: seq<string>, n: nat)
    requires n <= |ts|
    requires forall g, k :: SameShape(g, step(g, k).form)
    ensures SameShape(f, GroupRun(step, f, ts, n).form)
  {
    if n > 0 {
      RunKeepsShape(step, f, ts, n - 1);
    }
  }

  /** Field `name` of `g` is as evaluating it alone on `f0` leaves it:
      the name is a field, and a field with a rule list carries the
      verdict and mark that evaluation gives it. */
  predicate Settled(env: Env, f0: FormData, g: FormData, name: string) {
    match FieldIndex(f0.fields, name)
    case None => false
    case Some(i) =>
      f0.fields[i].config.validate.Some? ==>
        i < |g.fields| && g.fields[i] == CheckField(Solid, env, f0, name).form.fields[i]
  }

  /** Settled, as a test on a form and a name. */
  function SettledIn(env: Env, f0: FormData): (FormData, string) -> bool {
    (g, k) => Settled(env, f0, g, k)
  }

  /** The form agrees with `f0` on everything evaluation reads: armed flag,
      handlers, and each field's name, value and definition. */
  predicate Agrees(f0: FormData, g: FormData) {
    g.armed == f0.armed && g.emits == f0.emits && SameData(f0.fields, g.fields)
  }

  /** Agrees, as a test on a form. */
  function AgreesWith(f0: FormData): FormData -> bool {
    g => Agrees(f0, g)
  }

  /** No dotted target, and a form armed as groupIsValid arms it. */
  predicate PlainGroup(f0: FormData, ts: seq<string>) {
    f0.armed && forall j :: 0 <= j < |ts| ==> !Dotted(ts[j])
  }

  /** With no dotted target, groupIsValid returns (rather than throws) iff
      none of the targets throws when evaluated on its own against the
      armed form. */
  lemma GroupCompletes(env: Env, f: FormData, names: seq<string>)
    requires forall k :: k in GroupTargets(f, names) ==> !Dotted(k)
    ensures var ts := GroupTargets(f, names);
      GroupIsValid(env, f, names).valid.Some? <==>
        forall j :: 0 <= j < |ts| && !IsMeta(ts[j]) ==> CheckField(Solid, env, f.(armed := true), ts[j]).outcome.Reported?
  {
    var f0 := f.(armed := true);
    var ts := GroupTargets(f, names);
    var outs := PlainCombines(env, f0, ts);
    CombineSpec(outs, |ts|);
  }

  /** With no dotted target, a group that returns is true iff none of the
      targets reports an error when evaluated on its own against the armed
      form: a failure does not hide the targets after it. */
  lemma GroupValidIffNoFailure(env: Env, f: FormData, names: seq<string>)
    requires forall k :: k in GroupTargets(f, names) ==> !Dotted(k)
    requires GroupIsValid(env, f, names).valid.Some?
    ensures var ts := GroupTargets(f, names);
      GroupIsValid(env, f, names).valid.value <==>
        forall j :: 0 <= j < |ts| && !IsMeta(ts[j]) ==> CheckField(Solid, env, f.(armed := true), ts[j]).outcome == Reported(false)
  {
    var f0 := f.(armed := true);
    var ts := GroupTargets(f, names);
    var outs := PlainCombines(env, f0, ts);
    CombineSpec(outs, |ts|);
  }

  /** The loop over plain targets is the combination of their own
      outcomes. */
  lemma PlainCombines(env: Env, f0: FormData, ts: seq<string>) returns (outs: seq<FieldOutcome>)
    requires PlainGroup(f0, ts)
    ensures OutcomesOf(env, f0, ts, outs)
    ensures GroupRun(Stepper(env), f0, ts, |ts|).valid == Combine(outs, |ts|)
  {
    outs := seq(|ts|, j requires 0 <= j < |ts| => Alone(env, f0, ts[j]));
    PlainSteps(env, f0, ts, outs);
    RunCombines(Stepper(env), AgreesWith(f0), f0, ts, outs, |ts|);
  }

  /** With no dotted target, every target field of a group that returns
      ends as its own evaluation against the armed form leaves it: each
      target is evaluated, marked, and carries its own verdict. */
  lemma GroupSettlesTargets(env: Env, f: FormData, names: seq<string>)
    requires forall k :: k in GroupTargets(f, names) ==> !Dotted(k)
    requires GroupIsValid(env, f, names).valid.Some?
    ensures var ts := GroupTargets(f, names);
      forall j :: 0 <= j < |ts| && !IsMeta(ts[j]) ==> Settled(env, f.(armed := true), GroupIsValid(env, f, names).form, ts[j])
  {
    var f0 := f.(armed := true);
    var ts := GroupTargets(f, names);
    var outs := seq(|ts|, j requires 0 <= j < |ts| => Alone(env, f0, ts[j]));
    PlainSteps(env, f0, ts, outs);
    PlainSettles(env, f0, ts);
    RunSettles(Stepper(env), AgreesWith(f0), f0, ts, SettledIn(env, f0), |ts|);
  }

  /** What evaluating target `k` on its own against `f0` gives; a `$`
      name reports no error. */
  function Alone(env: Env, f0: FormData, k: string): FieldOutcome {
    if IsMeta(k) then Reported(false) else CheckField(Solid, env, f0, k).outcome
  }

  /** `outs` lists, target by target, what each gives on its own. */
  predicate OutcomesOf(env: Env, f0: FormData, ts: seq<string>, outs: seq<FieldOutcome>) {
    |outs| == |ts| && forall j :: 0 <= j < |ts| ==> outs[j] == Alone(env, f0, ts[j])
  }

  /** The loop's result computed from the targets' own outcomes alone. */
  function Combine(outs: seq<FieldOutcome>, n: nat): Option<bool>
    requires n <= |outs|
  {
    if n == 0 then Some(true)
    else match Combine(outs, n - 1)
      case None => None
      case Some(v) => match outs[n - 1]
        case Threw => None
        case Reported(e) => Some(v && !e)
  }

  /** Combining returns iff no outcome is a throw, and is then true iff
      no outcome reports an error. */
  lemma {:induction false} CombineSpec(outs: seq<FieldOutcome>, n: nat)
    requires n <= |outs|
    ensures Combine(outs, n).Some? <==> forall j :: 0 <= j < n ==> outs[j].Reported?
    ensures Combine(outs, n).Some? ==> (Combine(outs, n).value <==> forall j :: 0 <= j < n ==> outs[j] == Reported(false))
  {
    if n > 0 {
      CombineSpec(outs, n - 1);
    }
  }

  /** A loop whose steps, on any form satisfying `inv`, give the listed
      outcomes and keep `inv`, yields the combination of those outcomes. */
  lemma {:induction false} RunCombines(step: (FormData, string) -> CheckResult, inv: FormData -> bool, f0: FormData,
                                       ts: seq<string>, outs: seq<FieldOutcome>, n: nat)
    requires n <= |ts| == |outs| && inv(f0)
    requires forall g, j {:trigger step(g, ts[j])} :: 0 <= j < |ts| && inv(g) ==> step(g, ts[j]).outcome == outs[j] && inv(step(g, ts[j]).form)
    ensures var r := GroupRun(step, f0, ts, n);
      r.valid == Combine(outs, n) && inv(r.form)
  {
    if n > 0 {
      RunCombines(step, inv, f0, ts, outs, n - 1);
    }
  }

  /** A loop whose steps keep `inv`, settle the target they evaluate when
      they return, and keep other names settled, settles every target
      when it returns. */
  lemma {:induction false} RunSettles(step: (FormData, string) -> CheckResult, inv: FormData -> bool, f0: FormData,
                                      ts: seq<string>, settled: (FormData, string) -> bool, n: nat)
    requires n <= |ts| && inv(f0)
    requires forall g, j {:trigger step(g, ts[j])} :: 0 <= j < |ts| && inv(g) ==> inv(step(g, ts[j]).form)
    requires forall g, j {:trigger step(g, ts[j])} :: 0 <= j < |ts| && inv(g) && !IsMeta(ts[j]) && step(g, ts[j]).outcome.Reported? ==>
      settled(step(g, ts[j]).form, ts[j])
    requires forall g, j, k {:trigger settled(step(g, ts[j]).form, k)} :: 0 <= j < |ts| && inv(g) && k != ts[j] && settled(g, k) ==>
      settled(step(g, ts[j]).form, k)
    ensures var r := GroupRun(step, f0, ts, n);
      inv(r.form) && (r.valid.Some? ==> forall j :: 0 <= j < n && !IsMeta(ts[j]) ==> settled(r.form, ts[j]))
  {
    if n > 0 {
      RunSettles(step, inv, f0, ts, settled, n - 1);
      var prev := GroupRun(step, f0, ts, n - 1);
      if prev.valid.Some? {
        var t := ts[n - 1];
        var s := step(prev.form, t);
        if s.outcome.Reported? {
          forall j | 0 <= j < n && !IsMeta(ts[j]) ensures settled(s.form, ts[j]) {
            if ts[j] != t {
              assert settled(prev.form, ts[j]);
            }
          }
        }
      }
    }
  }

  /** Plain targets evaluated on forms agreeing with the armed form give
      their own outcomes and keep the agreement. */
  lemma PlainSteps(env: Env, f0: FormData, ts: seq<string>, outs: seq<FieldOutcome>)
    requires PlainGroup(f0, ts) && OutcomesOf(env, f0, ts, outs)
    ensures forall g, j :: 0 <= j < |ts| && AgreesWith(f0)(g) ==>
      Stepper(env)(g, ts[j]).outcome == outs[j] && AgreesWith(f0)(Stepper(env)(g, ts[j]).form)
  {
    forall g, j | 0 <= j < |ts| && AgreesWith(f0)(g)
      ensures Stepper(env)(g, ts[j]).outcome == outs[j] && AgreesWith(f0)(Stepper(env)(g, ts[j]).form)
    {
      if !IsMeta(ts[j]) {
        PlainStep(env, f0, g, ts[j]);
      }
    }
  }

  /** Plain targets settle themselves and keep other names settled. */
  lemma PlainSettles(env: Env, f0: FormData, ts: seq<string>)
    requires PlainGroup(f0, ts)
    ensures forall g, j :: 0 <= j < |ts| && AgreesWith(f0)(g) && !IsMeta(ts[j]) && Stepper(env)(g, ts[j]).outcome.Reported? ==>
      SettledIn(env, f0)(Stepper(env)(g, ts[j]).form, ts[j])
    ensures forall g, j, k :: 0 <= j < |ts| && AgreesWith(f0)(g) && k != ts[j] && SettledIn(env, f0)(g, k) ==>
      SettledIn(env, f0)(Stepper(env)(g, ts[j]).form, k)
  {
    forall g, j | 0 <= j < |ts| && AgreesWith(f0)(g) && !IsMeta(ts[j]) && Stepper(env)(g, ts[j]).outcome.Reported?
      ensures SettledIn(env, f0)(Stepper(env)(g, ts[j]).form, ts[j])
    {
      PlainStep(env, f0, g, ts[j]);
    }
    forall g, j, k | 0 <= j < |ts| && AgreesWith(f0)(g) && k != ts[j] && SettledIn(env, f0)(g, k)
      ensures SettledIn(env, f0)(Stepper(env)(g, ts[j]).form, k)
    {
      if !IsMeta(ts[j]) {
        PlainStepKeeps(env, f0, g, ts[j], k);
      }
    }
  }

  /** One plain target, evaluated on a form that agrees with `f0`: the
      outcome is that of evaluating the target on `f0`, the agreement
      stays, and the target is settled when the evaluation returns. */
  lemma PlainStep(env: Env, f0: FormData, g: FormData, t: string)
    requires f0.armed && Agrees(f0, g)
    requires !IsMeta(t) && !Dotted(t)
    ensures var s := GroupStep(env, g, t);
      s.outcome == CheckField(Solid, env, f0, t).outcome
      && Agrees(f0, s.form)
      && (s.outcome.Reported? ==> Settled(env, f0, s.form, t))
  {
    var s := GroupStep(env, g, t);
    assert s == CheckField(Solid, env, g, t);
    CheckFieldDependsOnData(Solid, env, f0, g, t);
    FieldIndexSameKeys(f0.fields, g.fields, t);
  }

  /** Evaluating one plain target leaves the fields of the other names
      as they were. */
  lemma PlainStepKeeps(env: Env, f0: FormData, g: FormData, t: string, k: string)
    requires f0.armed && Agrees(f0, g)
    requires !IsMeta(t) && !Dotted(t) && k != t
    requires Settled(env, f0, g, k)
    ensures Settled(env, f0, GroupStep(env, g, t).form, k)
  {
    var s := GroupStep(env, g, t);
    assert s == CheckField(Solid, env, g, t);
    var i := FieldIndex(f0.fields, k).value;
    assert g.fields[i].key == k;
    assert s.form.fields[i] == g.fields[i];
  }

  /** An exception ends the loop: the later targets are not evaluated. */
  lemma {:induction false} RunThrown(step: (FormData, string) -> CheckResult, f: FormData, ts: seq<string>, m: nat, n: nat)
    requires m <= n <= |ts| && GroupRun(step, f, ts, m).valid.None?
    ensures GroupRun(step, f, ts, n) == GroupRun(step, f, ts, m)
  {
    if m < n {
      RunThrown(step, f, ts, m, n - 1);
    }
  }

  /** A loop whose every step returns, returns. */
  lemma {:induction false} RunReturns(step: (FormData, string) -> CheckResult, f: FormData, ts: seq<string>, n: nat)
    requires n <= |ts|
    requires forall g, j :: 0 <= j < |ts| ==> step(g, ts[j]).outcome.Reported?
    ensures GroupRun(step, f, ts, n).valid.Some?
  {
    if n > 0 {
      RunReturns(step, f, ts, n - 1);
    }
  }

  /** Dotted targets never make groupIsValid throw: when every target is a
      `$` name or a dotted name, it always returns. */
  lemma DottedTargetsNeverThrow(env: Env, f: FormData, names: seq<string>)
    requires forall k :: k in GroupTargets(f, names) ==> IsMeta(k) || Dotted(k)
    ensures GroupIsValid(env, f, names).valid.Some?
  {
    var ts := GroupTargets(f, names);
    RunReturns(Stepper(env), f.(armed := true), ts, |ts|);
  }

  /** groupIsValid does not arm nested forms: a dotted target whose parent
      holds a nested form that was never armed leaves the form as it is and
      does not fail. */
  lemma NestedUnarmedPasses(env: Env, f: FormData, key: string)
    requires Dotted(key)
    requires var p := FieldIndex(f.fields, SplitKey(key).0);
      p.Some? ==> f.fields[p.value].value.Sub? ==> !f.fields[p.value].value.form.armed
    ensures GroupStep(env, f, key) == CheckResult(f, Reported(false))
  {
    if !IsMeta(key) {
      var (parent, child) := SplitKey(key);
      if parent != "" && FieldIndex(f.fields, parent).Some? {
        var p := FieldIndex(f.fields, parent).value;
        if f.fields[p].value.Sub? {
          assert f.fields[p := f.fields[p].(value := f.fields[p].value)] == f.fields;
        }
      }
    }
  }

  /** A loop whose every step leaves `f` as it is and reports no error
      returns `f` and true. */
  lemma {:induction false} RunIdle(step: (FormData, string) -> CheckResult, f: FormData, ts: seq<string>, n: nat)
    requires n <= |ts|
    requires forall j :: 0 <= j < |ts| ==> step(f, ts[j]) == CheckResult(f, Reported(false))
    ensures GroupRun(step, f, ts, n) == GroupResult(f, Some(true))
  {
    if n > 0 {
      RunIdle(step, f, ts, n - 1);
    }
  }

  /** A group made only of dotted names into nested forms that were never
      armed is true and changes nothing but the armed flag. */
  lemma UnarmedNestedGroup(env: Env, f: FormData, names: seq<string>)
    requires forall k :: k in GroupTargets(f, names) ==> Dotted(k)
    requires forall i :: 0 <= i < |f.fields| && f.fields[i].value.Sub? ==> !f.fields[i].value.form.armed
    ensures GroupIsValid(env, f, names) == GroupResult(f.(armed := true), Some(true))
  {
    var f0 := f.(armed := true);
    var ts := GroupTargets(f, names);
    forall j | 0 <= j < |ts| ensures Stepper(env)(f0, ts[j]) == CheckResult(f0, Reported(false)) {
      NestedUnarmedPasses(env, f0, ts[j]);
    }
    RunIdle(Stepper(env), f0, ts, |ts|);
  }
}
