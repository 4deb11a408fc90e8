/** Data ingestion (`setData`): copying the properties of a plain object
    into the fields of a form, normalising each key with headLower, letting
    per-key override callbacks take over, and building sub-forms from the
    class's `gen` factory, filled recursively. */
module Ingestion {
  import opened Text
  import opened Values

  /** What the override dictionary holds under a name: an own property
      whose value is `null` or `undefined`, another value that is not a
      function, or a callback. A callback's effect on the form is the list of field writes
      it makes for the value it receives, or `None` when it throws. */
  datatype Override = NullishFn | NotCallable | Callback(run: Value -> Option<seq<(string, Value)>>)

  /** The form after ingestion, and whether ingestion stopped by throwing
      (writes made before the throw stay in place). */
  datatype Ingested = Ingested(form: FormData, threw: bool)

  /** The two forms differ at most in field values. */
  predicate OnlyValues(f: FormData, g: FormData) {
    g.armed == f.armed && g.emits == f.emits && |g.fields| == |f.fields|
    && forall i :: 0 <= i < |f.fields| ==> g.fields[i] == f.fields[i].(value := g.fields[i].value)
  }

  /** The form with field `i` holding `x`. */
  function SetValue(f: FormData, i: nat, x: Value): (g: FormData)
    requires i < |f.fields|
    ensures OnlyValues(f, g) && g.fields[i].value == x
    ensures forall j :: 0 <= j < |f.fields| && j != i ==> g.fields[j] == f.fields[j]
  {
    f.(fields := f.fields[i := f.fields[i].(value := x)])
  }

  /** How many properties `for...in` visits: an object's entries, an
      array's indices; other values have none. */
  function EntryCount(v: Value): nat {
    match v
    case Obj(es) => |es|
    case Arr(items) => |items|
    case _ => 0
  }

  /** The override that applies to property `key`: the one registered
      under the head-lowered key, else the one under the key as given. */
  function OverrideFor(ovs: map<string, Override>, key: string): (r: Option<Override>)
    ensures r.None? <==> HeadLower(key) !in ovs && key !in ovs
    ensures HeadLower(key) in ovs ==> r == Some(ovs[HeadLower(key)])
    ensures HeadLower(key) !in ovs && key in ovs ==> r == Some(ovs[key])
  {
    var fk := HeadLower(key);
    if fk in ovs then Some(ovs[fk]) else if key in ovs then Some(ovs[key]) else None
  }

  /** A field definition for which setData stores any value as given. */
  predicate PlainSlot(cfg: FieldConfig) {
    !cfg.kind.FormType? && !(cfg.kind == ArrayType && cfg.subKind.FormType?)
  }

  /** setData(obj, overrides): a falsy input is ignored; otherwise every
      property is ingested in order until one throws. */
  function Ingest(variant: Variant, f: FormData, ovs: map<string, Override>, v: Value): (r: Ingested)
    decreases v, 2
  {
    if !Truthy(v) then Ingested(f, false) else IngestEntries(variant, f, ovs, v, EntryCount(v))
  }

  /** The first `n` properties of `v`, ingested in order. */
  function IngestEntries(variant: Variant, f: FormData, ovs: map<string, Override>, v: Value, n: nat): (r: Ingested)
    requires n <= EntryCount(v)
    decreases v, 1, n
  {
    if n == 0 then Ingested(f, false)
    else
      var prev := IngestEntries(variant, f, ovs, v, n - 1);
      if prev.threw then prev
      else match v
        case Obj(es) => IngestKey(variant, prev.form, ovs, es[n - 1].0, es[n - 1].1)
        case Arr(items) => IngestKey(variant, prev.form, ovs, NatText(n - 1), items[n - 1])
  }

  /** One property: an override replaces the default assignment. Calling
      a `null` or `undefined` override throws in the Solid adapter and is
      skipped in the Vue adapter (optional call); any other non-function
      always throws. */
  function IngestKey(variant: Variant, f: FormData, ovs: map<string, Override>, key: string, w: Value): (r: Ingested)
    decreases w, 6
  {
    match OverrideFor(ovs, key)
    case Some(NullishFn) => Ingested(f, variant == Solid)
    case Some(NotCallable) => Ingested(f, true)
    case Some(Callback(run)) =>
      (match run(w)
       case None => Ingested(f, true)
       case Some(ws) => Ingested(f.(fields := WriteAll(f.fields, ws, |ws|)), false))
    case None => Store(variant, f, HeadLower(key), w)
  }

  /** The field table after the field writes a callback makes; names that
      are not fields are ignored. */
  function WriteAll(fs: seq<Field>, ws: seq<(string, Value)>, n: nat): seq<Field>
    requires n <= |ws|
  {
    if n == 0 then fs
    else
      var g := WriteAll(fs, ws, n - 1);
      match FieldIndex(g, ws[n - 1].0)
      case None => g
      case Some(i) => g[i := g[i].(value := ws[n - 1].1)]
  }

  /** The default assignment: nothing happens for a name that is not a
      field; otherwise the field takes the value AssignDefault builds, or
      ingestion throws when building it throws. */
  function Store(variant: Variant, f: FormData, name: string, w: Value): (r: Ingested)
    decreases w, 5
  {
    match FieldIndex(f.fields, name)
    case None => Ingested(f, false)
    case Some(i) =>
      match AssignDefault(variant, f.fields[i].config, w)
      case None => Ingested(f, true)
      case Some(x) => Ingested(SetValue(f, i, x), false)
  }

  /** The value stored for `w` in a field with definition `cfg` (`None`:
      it throws). A truthy value for a sub-form field becomes a fresh
      instance from the class's factory, filled with `w`; a truthy array
      for an array-of-sub-forms field becomes one filled instance per
      element; anything else is stored as it is. */
  function AssignDefault(variant: Variant, cfg: FieldConfig, w: Value): (r: Option<Value>)
    decreases w, 4
  {
    if Truthy(w) && cfg.kind.FormType? then
      match cfg.kind.factory
      case Unimplemented => None
      case Gen(blank, derived) =>
        var g := Ingest(variant, blank, map[], w);
        if g.threw then None else Some(Sub(g.form, derived))
    else if Truthy(w) && w.Arr? && cfg.kind == ArrayType && cfg.subKind.FormType? then
      match GenItems(variant, cfg.subKind.factory, w, |w.items|)
      case None => None
      case Some(forms) => Some(Arr(forms))
    else Some(w)
  }

  /** The filled instances for the first `n` elements of the array `w`. */
  function GenItems(variant: Variant, factory: Factory, w: Value, n: nat): (r: Option<seq<Value>>)
    requires w.Arr? && n <= |w.items|
    decreases w, 3, n
  {
    if n == 0 then Some([])
    else match GenItems(variant, factory, w, n - 1)
      case None => None
      case Some(done) =>
        match factory
        case Unimplemented => None
        case Gen(blank, derived) =>
          var g := Ingest(variant, blank, map[], w.items[n - 1]);
          if g.threw then None else Some(done + [Sub(g.form, derived)])
  }

  // ---------------------------------------------------------------------
  // Properties
  // ---------------------------------------------------------------------

  /** setData changes field values only: the field table keeps its names,
      definitions, verdicts and marks, and the armed flag and handlers stay
      as they were. A falsy input changes nothing at all. */
  lemma IngestShape(variant: Variant, f: FormData, ovs: map<string, Override>, v: Value)
    ensures OnlyValues(f, Ingest(variant, f, ovs, v).form)
    ensures !Truthy(v) ==> Ingest(variant, f, ovs, v) == Ingested(f, false)
  {
    if Truthy(v) {
      EntriesShape(variant, f, ovs, v, EntryCount(v));
    }
  }

  lemma {:induction false} EntriesShape(variant: Variant, f: FormData, ovs: map<string, Override>, v: Value, n: nat)
    requires n <= EntryCount(v)
    ensures OnlyValues(f, IngestEntries(variant, f, ovs, v, n).form)
  {
    if n > 0 {
      EntriesShape(variant, f, ovs, v, n - 1);
      var prev := IngestEntries(variant, f, ovs, v, n - 1);
      if !prev.threw {
        match v
        case Obj(es) => KeyShape(variant, prev.form, ovs, es[n - 1].0, es[n - 1].1);
        case Arr(items) => KeyShape(variant, prev.form, ovs, NatText(n - 1), items[n - 1]);
      }
    }
  }

  lemma {:induction false} WritesShape(f: FormData, ws: seq<(string, Value)>, n: nat)
    requires n <= |ws|
    ensures OnlyValues(f, f.(fields := WriteAll(f.fields, ws, n)))
  {
    if n > 0 {
      WritesShape(f, ws, n - 1);
    }
  }

  lemma KeyShape(variant: Variant, f: FormData, ovs: map<string, Override>, key: string, w: Value)
    ensures OnlyValues(f, IngestKey(variant, f, ovs, key, w).form)
  {
    match OverrideFor(ovs, key)
    case Some(NullishFn) =>
    case Some(NotCallable) =>
    case Some(Callback(run)) =>
      if run(w).Some? {
        WritesShape(f, run(w).value, |run(w).value|);
      }
    case None =>
      var name := HeadLower(key);
      match FieldIndex(f.fields, name)
      case None =>
      case Some(i) =>
        match AssignDefault(variant, f.fields[i].config, w)
        case None =>
        case Some(x) => assert Store(variant, f, name, w).form == SetValue(f, i, x);
  }

  /** A value stored in a plain field is stored as given, uncoerced. */
  lemma PlainSlotStoresAsIs(variant: Variant, cfg: FieldConfig, w: Value)
    requires PlainSlot(cfg)
    ensures AssignDefault(variant, cfg, w) == Some(w)
  {
  }

  /** A falsy value is stored as given even in a sub-form field. */
  lemma FalsyStoredAsIs(variant: Variant, cfg: FieldConfig, w: Value)
    requires !Truthy(w)
    ensures AssignDefault(variant, cfg, w) == Some(w)
  {
  }

  /** A truthy value for a sub-form field: the base class's factory
      throws; an implemented one yields its blank instance filled with the
      value, and throws only when filling it throws. */
  lemma SubFormSlot(variant: Variant, cfg: FieldConfig, w: Value)
    requires Truthy(w) && cfg.kind.FormType?
    ensures cfg.kind.factory.Unimplemented? ==> AssignDefault(variant, cfg, w).None?
    ensures cfg.kind.factory.Gen? ==>
      var g := Ingest(variant, cfg.kind.factory.blank, map[], w);
      AssignDefault(variant, cfg, w) == if g.threw then None else Some(Sub(g.form, cfg.kind.factory.derived))
  {
  }

  /** The instances built for an array: one per element, in order, each
      the factory's blank instance filled with that element; building
      fails iff the factory is the base one (and there is an element) or
      filling some element throws. */
  lemma {:induction false} GenItemsSpec(variant: Variant, factory: Factory, w: Value, n: nat)
    requires w.Arr? && n <= |w.items|
    ensures GenItems(variant, factory, w, n).Some? <==>
      n == 0 || (factory.Gen? && forall j :: 0 <= j < n ==> !Ingest(variant, factory.blank, map[], w.items[j]).threw)
    ensures GenItems(variant, factory, w, n).Some? ==>
      var forms := GenItems(variant, factory, w, n).value;
      |forms| == n && forall j :: 0 <= j < n ==> forms[j] == Sub(Ingest(variant, factory.blank, map[], w.items[j]).form, factory.derived)
  {
    if n > 0 {
      GenItemsSpec(variant, factory, w, n - 1);
    }
  }

  /** An array for an array-of-sub-forms field becomes one filled instance
      per element. */
  lemma ArrayOfSubFormsSlot(variant: Variant, cfg: FieldConfig, items: seq<Value>)
    requires cfg.kind == ArrayType && cfg.subKind.FormType? && cfg.subKind.factory.Gen?
    requires forall j :: 0 <= j < |items| ==> !Ingest(variant, cfg.subKind.factory.blank, map[], items[j]).threw
    ensures AssignDefault(variant, cfg, Arr(items)).Some?
    ensures var x := AssignDefault(variant, cfg, Arr(items)).value;
      x.Arr? && |x.items| == |items|
      && forall j :: 0 <= j < |items| ==> x.items[j] == Sub(Ingest(variant, cfg.subKind.factory.blank, map[], items[j]).form, cfg.subKind.factory.derived)
  {
    GenItemsSpec(variant, cfg.subKind.factory, Arr(items), |items|);
  }

  /** The value field `key` ends up with when the properties `es[..n]`
      are written in order: the last property whose head-lowered name is
      `key`, if any. */
  function LastWrite(es: seq<(string, Value)>, key: string, n: nat): Option<Value>
    requires n <= |es|
  {
    if n == 0 then None
    else if HeadLower(es[n - 1].0) == key then Some(es[n - 1].1)
    else LastWrite(es, key, n - 1)
  }

  /** The value a field holds after the properties `es[..n]` are
      written: the last one written to it, else the value it had. */
  function LastOr(es: seq<(string, Value)>, fld: Field, n: nat): Value
    requires n <= |es|
  {
    match LastWrite(es, fld.key, n)
    case Some(x) => x
    case None => fld.value
  }

  /** Ingesting a plain object without overrides into a form with plain
      fields never throws, and leaves every field holding the last value
      written to it (properties are matched by head-lowered name; the rest
      are ignored), or its old value. */
  lemma PlainObjectValues(variant: Variant, f: FormData, es: seq<(string, Value)>)
    requires UniqueKeys(f.fields)
    requires forall i :: 0 <= i < |f.fields| ==> PlainSlot(f.fields[i].config)
    ensures !Ingest(variant, f, map[], Obj(es)).threw
    ensures |Ingest(variant, f, map[], Obj(es)).form.fields| == |f.fields|
    ensures forall i :: 0 <= i < |f.fields| ==>
      Ingest(variant, f, map[], Obj(es)).form.fields[i].value == LastOr(es, f.fields[i], |es|)
  {
    PlainEntries(variant, f, es, |es|);
  }

  lemma {:induction false} PlainEntries(variant: Variant, f: FormData, es: seq<(string, Value)>, n: nat)
    requires UniqueKeys(f.fields) && n <= |es|
    requires forall i :: 0 <= i < |f.fields| ==> PlainSlot(f.fields[i].config)
    ensures !IngestEntries(variant, f, map[], Obj(es), n).threw
    ensures OnlyValues(f, IngestEntries(variant, f, map[], Obj(es), n).form)
    ensures forall i :: 0 <= i < |f.fields| ==>
      IngestEntries(variant, f, map[], Obj(es), n).form.fields[i].value == LastOr(es, f.fields[i], n)
  {
    if n > 0 {
      PlainEntries(variant, f, es, n - 1);
      EntriesNext(variant, f, map[], Obj(es), n - 1);
      var prev := IngestEntries(variant, f, map[], Obj(es), n - 1);
      var key, w := es[n - 1].0, es[n - 1].1;
      assert IngestKey(variant, prev.form, map[], key, w) == Store(variant, prev.form, HeadLower(key), w);
      PlainWrite(variant, f, prev.form, es, n);
    }
  }

  /** Writing property `n - 1` into a form that holds the values of the
      first `n - 1` properties gives the values of the first `n`. */
  lemma PlainWrite(variant: Variant, f: FormData, g: FormData, es: seq<(string, Value)>, n: nat)
    requires UniqueKeys(f.fields) && 0 < n <= |es| && OnlyValues(f, g)
    requires forall i :: 0 <= i < |f.fields| ==> PlainSlot(f.fields[i].config)
    requires forall i :: 0 <= i < |f.fields| ==> g.fields[i].value == LastOr(es, f.fields[i], n - 1)
    ensures var r := Store(variant, g, HeadLower(es[n - 1].0), es[n - 1].1);
      !r.threw && OnlyValues(f, r.form)
      && forall i :: 0 <= i < |f.fields| ==> r.form.fields[i].value == LastOr(es, f.fields[i], n)
  {
    var name := HeadLower(es[n - 1].0);
    OnlyValuesSameIndex(f, g, name);
    match FieldIndex(f.fields, name)
    case None =>
    case Some(k) =>
      StorePlain(variant, g, name, es[n - 1].1, k);
      forall i | 0 <= i < |f.fields| && i != k
        ensures f.fields[i].key != name
      {
      }
  }

  /** Forms that differ only in values find every name at the same place. */
  lemma OnlyValuesSameIndex(f: FormData, g: FormData, name: string)
    requires OnlyValues(f, g)
    ensures FieldIndex(g.fields, name) == FieldIndex(f.fields, name)
  {
    forall i | 0 <= i < |g.fields| ensures g.fields[i].key == f.fields[i].key {
      assert g.fields[i] == f.fields[i].(value := g.fields[i].value);
    }
    FieldIndexSameKeys(g.fields, f.fields, name);
  }

  /** The default assignment to a plain field stores the value as given. */
  lemma StorePlain(variant: Variant, g: FormData, name: string, w: Value, k: nat)
    requires FieldIndex(g.fields, name) == Some(k) && PlainSlot(g.fields[k].config)
    ensures Store(variant, g, name, w) == Ingested(SetValue(g, k, w), false)
  {
    PlainSlotStoresAsIs(variant, g.fields[k].config, w);
  }

  /** Properties that name no field and have no override change nothing. */
  lemma {:induction false} UnknownKeysIgnored(variant: Variant, f: FormData, ovs: map<string, Override>, v: Value, n: nat)
    requires n <= EntryCount(v)
    requires forall j :: 0 <= j < n ==> Unknown(f, ovs, EntryAt(v, j))
    ensures IngestEntries(variant, f, ovs, v, n) == Ingested(f, false)
  {
    if n > 0 {
      UnknownKeysIgnored(variant, f, ovs, v, n - 1);
      var key := EntryAt(v, n - 1);
      assert Unknown(f, ovs, key);
      match v
      case Obj(es) =>
        assert IngestKey(variant, f, ovs, key, es[n - 1].1) == Store(variant, f, HeadLower(key), es[n - 1].1);
      case Arr(items) =>
        assert IngestKey(variant, f, ovs, key, items[n - 1]) == Store(variant, f, HeadLower(key), items[n - 1]);
    }
  }

  /** The name of property `j` of `v` as `for...in` visits it. */
  function EntryAt(v: Value, j: nat): string
    requires j < EntryCount(v)
  {
    match v
    case Obj(es) => es[j].0
    case Arr(_) => NatText(j)
  }

  /** The value of property `j` of `v` as `for...in` visits it. */
  function EntryValue(v: Value, j: nat): Value
    requires j < EntryCount(v)
  {
    match v
    case Obj(es) => es[j].1
    case Arr(items) => items[j]
  }

  /** One more property: ingested unless an earlier one threw. */
  lemma EntriesNext(variant: Variant, f: FormData, ovs: map<string, Override>, v: Value, n: nat)
    requires n < EntryCount(v)
    ensures var prev := IngestEntries(variant, f, ovs, v, n);
      IngestEntries(variant, f, ovs, v, n + 1)
      == if prev.threw then prev else IngestKey(variant, prev.form, ovs, EntryAt(v, n), EntryValue(v, n))
  {
  }

  /** The same step, as a loop that has ingested `n` properties without a
      throw and then ingests the next one sees it. */
  lemma EntriesStep(variant: Variant, f: FormData, ovs: map<string, Override>, v: Value, n: nat, g: FormData, r: Ingested)
    requires n < EntryCount(v) && IngestEntries(variant, f, ovs, v, n) == Ingested(g, false)
    requires IngestKey(variant, g, ovs, EntryAt(v, n), EntryValue(v, n)) == r
    ensures IngestEntries(variant, f, ovs, v, n + 1) == r
  {
    EntriesNext(variant, f, ovs, v, n);
  }

  /** A property name with no override whose head-lowered form is not a
      field of `f`. */
  predicate Unknown(f: FormData, ovs: map<string, Override>, key: string) {
    OverrideFor(ovs, key).None? && FieldIndex(f.fields, HeadLower(key)).None?
  }

  /** In the Solid adapter a `null` or `undefined` override throws, and
      nothing after it is ingested; in the Vue adapter it is skipped. */
  lemma NullishOverride(f: FormData, ovs: map<string, Override>, key: string, w: Value)
    requires OverrideFor(ovs, key) == Some(NullishFn)
    ensures IngestKey(Solid, f, ovs, key, w) == Ingested(f, true)
    ensures IngestKey(Vue, f, ovs, key, w) == Ingested(f, false)
  {
  }

  /** Once a property throws, the later ones are not ingested. */
  lemma {:induction false} ThrowStops(variant: Variant, f: FormData, ovs: map<string, Override>, v: Value, m: nat, n: nat)
    requires m <= n <= EntryCount(v)
    requires IngestEntries(variant, f, ovs, v, m).threw
    ensures IngestEntries(variant, f, ovs, v, n) == IngestEntries(variant, f, ovs, v, m)
    decreases n - m
  {
    if m < n {
      ThrowKept(variant, f, ovs, v, m);
      ThrowStops(variant, f, ovs, v, m + 1, n);
    }
  }

  /** A throw among the first `n` properties is the result of the first
      `n + 1` as well. */
  lemma ThrowKept(variant: Variant, f: FormData, ovs: map<string, Override>, v: Value, n: nat)
    requires n < EntryCount(v) && IngestEntries(variant, f, ovs, v, n).threw
    ensures IngestEntries(variant, f, ovs, v, n + 1) == IngestEntries(variant, f, ovs, v, n)
  {
  }
}
