/** Extraction of a form's data to plain values: the choice of target
    fields (getValueJson's `keys`/`exceptKeys`), the per-field filtering
    (extractData), the per-value conversion (formatValue), and the key
    renaming (`format`, getJsonHeadUpper). Nested forms are extracted
    recursively through their getJson(). */
module Extraction {
  import opened Text
  import opened Values

  /** The options of getValueJson; `format` is absent or a key mapping. */
  datatype Options = Options(keys: seq<string>, exceptKeys: seq<string>, format: Option<string -> string>, ignoreBlank: bool)

  /** The options getJson() passes: no key lists, no format, blanks ignored. */
  const DefaultOptions := Options([], [], None, true)

  /** Field names starting with `$` are internal and never extracted. */
  predicate IsMeta(k: string) { |k| > 0 && k[0] == '$' }

  /** The field names getValueJson extracts, in order: a non-empty `keys`
      list wins over `exceptKeys`; otherwise every field except those in
      `exceptKeys`. Names that are not fields are dropped, and a repeated
      name is taken once, at its first position. */
  function FilteredKeys(fields: seq<Field>, opts: Options): (r: seq<string>)
    ensures forall i, j :: 0 <= i < j < |r| ==> r[i] != r[j]
    ensures forall k :: k in r ==> FieldIndex(fields, k).Some?
    ensures |opts.keys| > 0 ==> forall k :: k in r <==> k in opts.keys && FieldIndex(fields, k).Some?
    ensures |opts.keys| == 0 ==> forall k :: k in r <==> FieldIndex(fields, k).Some? && k !in opts.exceptKeys
  {
    var targets := if |opts.keys| > 0 then opts.keys else Except(Keys(fields), opts.exceptKeys);
    KeepFields(fields, targets, |targets|)
  }

  /** `keys.filter(k => except.indexOf(k) < 0)`. */
  function Except(keys: seq<string>, except: seq<string>): (r: seq<string>)
    ensures forall k :: k in r <==> k in keys && k !in except
  {
    if keys == [] then []
    else (if keys[0] in except then [] else [keys[0]]) + Except(keys[1..], except)
  }

  /** The first `n` targets that name fields, each once. */
  function KeepFields(fields: seq<Field>, targets: seq<string>, n: nat): (r: seq<string>)
    requires n <= |targets|
    ensures forall i, j :: 0 <= i < j < |r| ==> r[i] != r[j]
    ensures forall k :: k in r <==> k in targets[..n] && FieldIndex(fields, k).Some?
  {
    if n == 0 then []
    else
      var prev := KeepFields(fields, targets, n - 1);
      var k := targets[n - 1];
      assert targets[..n] == targets[..n - 1] + [k];
      if FieldIndex(fields, k).Some? && k !in prev then prev + [k] else prev
  }

  /** Number coercion of a value of a Number-typed field. The Solid engine
      keeps NaN and turns a conversion that throws into null; the Vue
      engine turns NaN into null and lets the exception escape (`None`).
      Fields of other types keep their value. */
  function Coerce(variant: Variant, kind: TypeTag, v: Value): (r: Option<Value>)
    ensures kind != NumberType ==> r == Some(v)
    ensures variant == Solid ==> r.Some?
    ensures kind == NumberType && NumberOf(v).Finite? ==> r == Some(Num(NumberOf(v).x))
    ensures kind == NumberType && NumberOf(v).NotANumber? ==> r == Some(if variant == Solid then NaN else Null)
    ensures kind == NumberType && NumberOf(v).TypeError? ==> r == (if variant == Solid then Some(Null) else None)
  {
    if kind != NumberType then Some(v)
    else match NumberOf(v)
      case Finite(x) => Some(Num(x))
      case NotANumber => if variant == Solid then Some(NaN) else Some(Null)
      case TypeError => if variant == Solid then Some(Null) else None
  }

  /** formatValue: arrays are converted element by element, untyped; a
      nested form whose class derives from VufForm becomes its getJson()
      (the test is on the instance's prototype, so a form built directly
      from VufForm is not converted); anything else is coerced by the
      field's type. `None`: an exception escaped. */
  function FormatValue(variant: Variant, kind: TypeTag, v: Value): (r: Option<Value>)
    decreases v, 1
    ensures variant == Solid ==> r.Some?
    ensures r.Some? && v.Arr? ==> r.value.Arr? && |r.value.items| == |v.items|
    ensures r.Some? && v.Sub? && v.derived ==> r.value.Obj?
    ensures v.Sub? && v.derived ==> r == GetValueJson(variant, v.form, DefaultOptions)
    ensures !v.Arr? && !(v.Sub? && v.derived) ==> r == Coerce(variant, kind, v)
  {
    match v
    case Arr(items) =>
      (match FormatItems(variant, items)
       case None => None
       case Some(xs) => Some(Arr(xs)))
    case Sub(g, derived) => if derived then GetValueJson(variant, g, DefaultOptions) else Coerce(variant, kind, v)
    case _ => Coerce(variant, kind, v)
  }

  /** The elements of an array, each formatted without a type. */
  function FormatItems(variant: Variant, items: seq<Value>): (r: Option<seq<Value>>)
    decreases items, 0
    ensures variant == Solid ==> r.Some?
    ensures r.Some? ==> |r.value| == |items|
    ensures r.Some? ==> forall i :: 0 <= i < |items| ==> Some(r.value[i]) == FormatValue(variant, Untyped, items[i])
  {
    if items == [] then Some([])
    else match (FormatValue(variant, Untyped, items[0]), FormatItems(variant, items[1..]))
      case (Some(x), Some(xs)) => Some([x] + xs)
      case _ => None
  }

  /** Inside an array, a form built from a subclass of VufForm becomes its
      getJson(), while one built from VufForm itself is left as it is. */
  lemma ArrayFormElements(variant: Variant, g: FormData)
    ensures FormatValue(variant, Untyped, Arr([Sub(g, false)])) == Some(Arr([Sub(g, false)]))
    ensures var json := GetValueJson(variant, g, DefaultOptions);
      FormatValue(variant, Untyped, Arr([Sub(g, true)])) == if json.None? then None else Some(Arr([json.value]))
  {
    var base, sub := Sub(g, false), Sub(g, true);
    assert [base][1..] == [] && [sub][1..] == [];
    assert FormatItems(variant, []) == Some([]);
    assert [base][0] == base && [sub][0] == sub;
    assert FormatValue(variant, Untyped, base) == Some(base);
    var t := (FormatValue(variant, Untyped, [base][0]), FormatItems(variant, [base][1..]));
    assert t == (Some(base), Some([]));
    assert FormatItems(variant, [base]) == match t case (Some(x), Some(xs)) => Some([x] + xs) case _ => None;
    assert [base] + [] == [base];
    assert FormatItems(variant, [base]) == Some([base]);
    var json := GetValueJson(variant, g, DefaultOptions);
    assert FormatValue(variant, Untyped, sub) == json;
    var u := (FormatValue(variant, Untyped, [sub][0]), FormatItems(variant, [sub][1..]));
    assert u == (json, Some([]));
    assert FormatItems(variant, [sub]) == match u case (Some(x), Some(xs)) => Some([x] + xs) case _ => None;
    assert json.Some? ==> [json.value] + [] == [json.value];
  }

  /** Whether extractData keeps a stored value: blank strings are dropped
      when `ignoreBlank`, null and undefined always. */
  predicate Included(v: Value, ignoreBlank: bool) {
    if ignoreBlank && v.Str? then v.s != "" else !Nullish(v)
  }

  /** An escaping exception, or a value that is kept. */
  function Kept(x: Option<Value>): Option<Option<Value>> {
    match x
    case None => None
    case Some(y) => Some(Some(y))
  }

  /** extractData's treatment of one field: `Some(None)` drops it,
      `Some(Some(x))` stores `x`, `None` is an escaping exception. A
      nested form contributes its getJson(), coerced by the field's type. */
  function ExtractValue(variant: Variant, kind: TypeTag, v: Value, ignoreBlank: bool): (r: Option<Option<Value>>)
    decreases v, 3
    ensures variant == Solid ==> r.Some?
    ensures r.Some? ==> (r.value.Some? <==> Included(v, ignoreBlank))
    ensures Included(v, ignoreBlank) && !v.Arr? && !v.Sub? && kind != NumberType ==> r == Some(Some(v))
    ensures !Included(v, ignoreBlank) ==> r == Some(None)
    ensures Included(v, ignoreBlank) && !v.Sub? ==> r == Kept(FormatValue(variant, kind, v))
    ensures v.Sub? ==> var json := GetValueJson(variant, v.form, DefaultOptions);
      r == (if json.None? then None else Kept(Coerce(variant, kind, json.value)))
  {
    if ignoreBlank && v.Str? then
      (if v.s != "" then
         match FormatValue(variant, kind, v)
         case None => None
         case Some(x) => Some(Some(x))
       else Some(None))
    else if v.Sub? then
      (match GetValueJson(variant, v.form, DefaultOptions)
       case None => None
       case Some(json) =>
         match Coerce(variant, kind, json)
         case None => None
         case Some(x) => Some(Some(x)))
    else if !Nullish(v) then
      (match FormatValue(variant, kind, v)
       case None => None
       case Some(x) => Some(Some(x)))
    else Some(None)
  }

  /** extractData's treatment of the name `k`: `$` names and names that
      are not fields are dropped (`Some(None)`), every other field is
      treated as ExtractValue says. */
  function FieldEntry(variant: Variant, g: FormData, k: string, ignoreBlank: bool): (r: Option<Option<Value>>)
    decreases g, 0
    ensures variant == Solid ==> r.Some?
    ensures r.Some? ==> (r.value.Some? <==>
      !IsMeta(k) && ValueOf(g.fields, k).Some? && Included(ValueOf(g.fields, k).value, ignoreBlank))
  {
    if IsMeta(k) then Some(None)
    else match FieldIndex(g.fields, k)
      case None => Some(None)
      case Some(i) => ExtractValue(variant, g.fields[i].config.kind, g.fields[i].value, ignoreBlank)
  }

  /** extractData: the given names in order, each treated as FieldEntry
      says; dropped values leave no entry, the rest are stored under their
      field name. */
  function ExtractData(variant: Variant, g: FormData, keys: seq<string>, ignoreBlank: bool): (r: Option<seq<(string, Value)>>)
    decreases g, 1
    ensures variant == Solid ==> r.Some?
  {
    Collect(keys, k => FieldEntry(variant, g, k, ignoreBlank), |keys|)
  }

  /** The loop of extractData over the first `n` names, given what each
      name contributes: nothing, a value, or an escaping exception. */
  function Collect(keys: seq<string>, entry: string -> Option<Option<Value>>, n: nat): (r: Option<seq<(string, Value)>>)
    requires n <= |keys|
    ensures r.Some? <==> forall j :: 0 <= j < n ==> entry(keys[j]).Some?
  {
    if n == 0 then Some([])
    else
      match Collect(keys, entry, n - 1)
      case None => None
      case Some(prev) =>
        match entry(keys[n - 1])
        case None => None
        case Some(None) => Some(prev)
        case Some(Some(x)) => Some(Put(prev, keys[n - 1], x))
  }

  /** `for (key in obj) out[fmt(key)] = obj[key]` over the first `n`
      entries: a later entry whose name maps to the same key overwrites. */
  function Rename(es: seq<(string, Value)>, fmt: string -> string, n: nat): (r: seq<(string, Value)>)
    requires n <= |es|
  {
    if n == 0 then []
    else Put(Rename(es, fmt, n - 1), fmt(es[n - 1].0), es[n - 1].1)
  }

  /** getValueJson: the filtered fields extracted, then renamed by `format`
      when one is given. `None`: an exception escaped. */
  function GetValueJson(variant: Variant, g: FormData, opts: Options): (r: Option<Value>)
    decreases g, 2
    ensures variant == Solid ==> r.Some?
    ensures r.Some? ==> r.value.Obj?
  {
    var keys := FilteredKeys(g.fields, opts);
    match ExtractData(variant, g, keys, opts.ignoreBlank)
    case None => None
    case Some(es) =>
      if opts.format.Some? then Some(Obj(Rename(es, opts.format.value, |es|))) else Some(Obj(es))
  }

  /** getJsonHeadUpper: getValueJson with every key's head upper-cased. */
  function GetJsonHeadUpper(variant: Variant, g: FormData, opts: Options): (r: Option<Value>)
    ensures r.Some? <==> GetValueJson(variant, g, opts).Some?
    ensures r.Some? ==> r.value.Obj?
  {
    match GetValueJson(variant, g, opts)
    case None => None
    case Some(json) =>
      var es := json.entries;
      Some(Obj(Rename(es, HeadUpper, |es|)))
  }

  // ---------------------------------------------------------------------
  // Properties
  // ---------------------------------------------------------------------

  /** A name is present in the loop's result iff it is among the names
      given and its entry is a value. */
  lemma {:induction false} CollectMembers(keys: seq<string>, entry: string -> Option<Option<Value>>, n: nat, k: string)
    requires n <= |keys| && Collect(keys, entry, n).Some?
    ensures Lookup(Collect(keys, entry, n).value, k).Some? <==> k in keys[..n] && entry(k).value.Some?
  {
    if n > 0 {
      CollectMembers(keys, entry, n - 1, k);
      assert keys[..n] == keys[..n - 1] + [keys[n - 1]];
      var prev := Collect(keys, entry, n - 1).value;
      match entry(keys[n - 1])
      case Some(Some(x)) => PutSpec(prev, keys[n - 1], x);
      case _ =>
    }
  }

  /** What the loop stores under a name is that name's entry, and nothing
      is stored under a name that was not given. */
  lemma {:induction false} CollectValues(keys: seq<string>, entry: string -> Option<Option<Value>>, n: nat, k: string)
    requires n <= |keys| && Collect(keys, entry, n).Some?
    ensures Lookup(Collect(keys, entry, n).value, k) == if k in keys[..n] then entry(k).value else None
  {
    if n > 0 {
      CollectValues(keys, entry, n - 1, k);
      assert keys[..n] == keys[..n - 1] + [keys[n - 1]];
      var prev := Collect(keys, entry, n - 1).value;
      match entry(keys[n - 1])
      case Some(Some(x)) => PutSpec(prev, keys[n - 1], x);
      case _ =>
    }
  }

  /** Each name appears in the loop's result at most once. */
  lemma {:induction false} CollectUnique(keys: seq<string>, entry: string -> Option<Option<Value>>, n: nat)
    requires n <= |keys| && Collect(keys, entry, n).Some?
    ensures UniqueNames(Collect(keys, entry, n).value)
  {
    if n > 0 {
      CollectUnique(keys, entry, n - 1);
      var prev := Collect(keys, entry, n - 1).value;
      match entry(keys[n - 1])
      case Some(Some(x)) => PutSpec(prev, keys[n - 1], x);
      case _ =>
    }
  }

  /** The loop depends only on what each name contributes. */
  lemma {:induction false} CollectSameEntries(keys: seq<string>, e1: string -> Option<Option<Value>>,
                                              e2: string -> Option<Option<Value>>, n: nat)
    requires n <= |keys|
    requires forall j :: 0 <= j < n ==> e1(keys[j]) == e2(keys[j])
    ensures Collect(keys, e1, n) == Collect(keys, e2, n)
  {
    if n > 0 {
      CollectSameEntries(keys, e1, e2, n - 1);
    }
  }

  /** A field name is present in extractData's result iff it is among the
      names given, does not start with `$`, names a field, and that
      field's value is kept: not null or undefined, and not '' when blanks
      are ignored. */
  lemma ExtractDataMembers(variant: Variant, g: FormData, keys: seq<string>, ignoreBlank: bool, k: string)
    requires ExtractData(variant, g, keys, ignoreBlank).Some?
    ensures Lookup(ExtractData(variant, g, keys, ignoreBlank).value, k).Some? <==>
      k in keys && !IsMeta(k) && ValueOf(g.fields, k).Some? && Included(ValueOf(g.fields, k).value, ignoreBlank)
  {
    var e := k => FieldEntry(variant, g, k, ignoreBlank);
    CollectMembers(keys, e, |keys|, k);
    assert keys[..|keys|] == keys;
    if k in keys {
      var j :| 0 <= j < |keys| && keys[j] == k;
      assert e(keys[j]).Some?;
    }
  }

  /** extractData stores under each name given what FieldEntry gives it;
      for a non-`$` field that is what ExtractValue gives its value, and
      nothing is stored under a name that was not given. */
  lemma ExtractDataValues(variant: Variant, g: FormData, keys: seq<string>, ignoreBlank: bool, k: string)
    requires ExtractData(variant, g, keys, ignoreBlank).Some?
    ensures Lookup(ExtractData(variant, g, keys, ignoreBlank).value, k) ==
      if k in keys then FieldEntry(variant, g, k, ignoreBlank).value else None
    ensures k in keys && !IsMeta(k) && FieldIndex(g.fields, k).Some? ==>
      var i := FieldIndex(g.fields, k).value;
      Some(Lookup(ExtractData(variant, g, keys, ignoreBlank).value, k))
        == ExtractValue(variant, g.fields[i].config.kind, g.fields[i].value, ignoreBlank)
  {
    CollectValues(keys, k => FieldEntry(variant, g, k, ignoreBlank), |keys|, k);
    assert keys[..|keys|] == keys;
  }

  /** Without `format`, getValueJson stores under each extracted field name
      what ExtractValue gives that field's value: the formatted value, or
      for a nested form its getJson() coerced by the field's type. */
  lemma GetValueJsonValues(variant: Variant, g: FormData, opts: Options, k: string)
    requires opts.format.None? && GetValueJson(variant, g, opts).Some?
    ensures k !in FilteredKeys(g.fields, opts) ==> Lookup(GetValueJson(variant, g, opts).value.entries, k).None?
    ensures k in FilteredKeys(g.fields, opts) ==>
      FieldEntry(variant, g, k, opts.ignoreBlank) == Some(Lookup(GetValueJson(variant, g, opts).value.entries, k))
    ensures k in FilteredKeys(g.fields, opts) && !IsMeta(k) ==>
      var i := FieldIndex(g.fields, k).value;
      Some(Lookup(GetValueJson(variant, g, opts).value.entries, k))
        == ExtractValue(variant, g.fields[i].config.kind, g.fields[i].value, opts.ignoreBlank)
  {
    ExtractDataValues(variant, g, FilteredKeys(g.fields, opts), opts.ignoreBlank, k);
  }

  /** Each name appears in extractData's result at most once. */
  lemma ExtractDataUnique(variant: Variant, g: FormData, keys: seq<string>, ignoreBlank: bool)
    requires ExtractData(variant, g, keys, ignoreBlank).Some?
    ensures UniqueNames(ExtractData(variant, g, keys, ignoreBlank).value)
  {
    CollectUnique(keys, k => FieldEntry(variant, g, k, ignoreBlank), |keys|);
  }

  /** The keys `fmt` sends the first `n` names to. */
  function Images(es: seq<(string, Value)>, fmt: string -> string, n: nat): set<string>
    requires n <= |es|
  {
    if n == 0 then {} else Images(es, fmt, n - 1) + {fmt(es[n - 1].0)}
  }

  /** A key is an image iff some name among the first `n` is sent to it. */
  lemma {:induction false} ImagesSpec(es: seq<(string, Value)>, fmt: string -> string, n: nat, k: string)
    requires n <= |es|
    ensures k in Images(es, fmt, n) <==> exists i :: 0 <= i < n && fmt(es[i].0) == k
  {
    if n > 0 {
      ImagesSpec(es, fmt, n - 1, k);
      if fmt(es[n - 1].0) == k {
        assert 0 <= n - 1 < n && fmt(es[n - 1].0) == k;
      }
    }
  }

  /** Renaming produces exactly the images of the names present. */
  lemma {:induction false} RenameNames(es: seq<(string, Value)>, fmt: string -> string, n: nat)
    requires n <= |es|
    ensures NameSet(Rename(es, fmt, n)) == Images(es, fmt, n)
  {
    if n > 0 {
      RenameNames(es, fmt, n - 1);
      PutSpec(Rename(es, fmt, n - 1), fmt(es[n - 1].0), es[n - 1].1);
    }
  }

  /** `fmt` sends no two different names present to the same key. */
  predicate InjectiveOn(es: seq<(string, Value)>, fmt: string -> string) {
    forall i, j :: 0 <= i < |es| && 0 <= j < |es| && fmt(es[i].0) == fmt(es[j].0) ==> es[i].0 == es[j].0
  }

  /** With a key mapping that is one-to-one on the names present, renaming
      moves every value to its new name unchanged. */
  lemma {:induction false} RenameInjective(es: seq<(string, Value)>, fmt: string -> string, n: nat, i: nat)
    requires n <= |es| && i < |es| && UniqueNames(es) && InjectiveOn(es, fmt)
    ensures Lookup(Rename(es, fmt, n), fmt(es[i].0)) == Lookup(es[..n], es[i].0)
  {
    if n > 0 {
      var k := es[i].0;
      var last := es[n - 1];
      RenameInjective(es, fmt, n - 1, i);
      PutSpec(Rename(es, fmt, n - 1), fmt(last.0), last.1);
      assert es[..n] == es[..n - 1] + [last];
      LookupAppend(es[..n - 1], last, k);
      if fmt(last.0) == fmt(k) {
        assert last.0 == k;
        forall j | 0 <= j < n - 1 ensures es[j].0 != k {
          UniqueAt(es, j, n - 1);
        }
        LookupAbsent(es, n - 1, k);
      }
    }
  }

  /** Renaming never produces a name twice. */
  lemma {:induction false} RenameUnique(es: seq<(string, Value)>, fmt: string -> string, n: nat)
    requires n <= |es|
    ensures UniqueNames(Rename(es, fmt, n))
  {
    if n > 0 {
      RenameUnique(es, fmt, n - 1);
      PutSpec(Rename(es, fmt, n - 1), fmt(es[n - 1].0), es[n - 1].1);
    }
  }

  /** getValueJson's result names each key once. */
  lemma JsonUnique(variant: Variant, g: FormData, opts: Options)
    requires GetValueJson(variant, g, opts).Some?
    ensures UniqueNames(GetValueJson(variant, g, opts).value.entries)
  {
    var keys := FilteredKeys(g.fields, opts);
    ExtractDataUnique(variant, g, keys, opts.ignoreBlank);
    var es := ExtractData(variant, g, keys, opts.ignoreBlank).value;
    if opts.format.Some? {
      RenameUnique(es, opts.format.value, |es|);
    }
  }

  /** With a `format`, getValueJson's keys are exactly the images of the
      extracted names: `format(k)` for every extracted `k`, and `k` itself
      only when some extracted name is sent to it. */
  lemma FormatKeys(variant: Variant, g: FormData, opts: Options, es: seq<(string, Value)>, k: string)
    requires opts.format.Some?
    requires ExtractData(variant, g, FilteredKeys(g.fields, opts), opts.ignoreBlank) == Some(es)
    ensures GetValueJson(variant, g, opts).Some?
    ensures k in NameSet(GetValueJson(variant, g, opts).value.entries) <==>
      exists i :: 0 <= i < |es| && opts.format.value(es[i].0) == k
  {
    var fmt := opts.format.value;
    assert GetValueJson(variant, g, opts) == Some(Obj(Rename(es, fmt, |es|)));
    RenameNames(es, fmt, |es|);
    ImagesSpec(es, fmt, |es|, k);
  }

  /** getJsonHeadUpper's keys are exactly the headUpper images of
      getValueJson's keys, each once. */
  lemma HeadUpperKeys(variant: Variant, g: FormData, opts: Options, k: string)
    requires GetValueJson(variant, g, opts).Some?
    ensures var es := GetValueJson(variant, g, opts).value.entries;
      var up := GetJsonHeadUpper(variant, g, opts).value.entries;
      UniqueNames(up) && (k in NameSet(up) <==> exists i :: 0 <= i < |es| && HeadUpper(es[i].0) == k)
  {
    var es := GetValueJson(variant, g, opts).value.entries;
    RenameUnique(es, HeadUpper, |es|);
    RenameNames(es, HeadUpper, |es|);
    ImagesSpec(es, HeadUpper, |es|, k);
  }

  /** When no two of getValueJson's keys differ only in the case of their
      first letter, getJsonHeadUpper keeps every value under the renamed
      key. */
  lemma HeadUpperValues(variant: Variant, g: FormData, opts: Options, i: nat)
    requires GetValueJson(variant, g, opts).Some?
    requires var es := GetValueJson(variant, g, opts).value.entries;
      i < |es| && InjectiveOn(es, HeadUpper)
    ensures var es := GetValueJson(variant, g, opts).value.entries;
      Lookup(GetJsonHeadUpper(variant, g, opts).value.entries, HeadUpper(es[i].0)) == Some(es[i].1)
  {
    var es := GetValueJson(variant, g, opts).value.entries;
    JsonUnique(variant, g, opts);
    RenameInjective(es, HeadUpper, |es|, i);
    assert es[..|es|] == es;
    LookupUnique(es, i);
  }

  /** In an object whose names are unique, the entry at `i` is what its
      name reads. */
  lemma {:induction false} LookupUnique(es: seq<(string, Value)>, i: nat)
    requires i < |es| && UniqueNames(es)
    ensures Lookup(es, es[i].0) == Some(es[i].1)
  {
    if i > 0 {
      NameSetHas(es[1..], i - 1);
      LookupUnique(es[1..], i - 1);
    }
  }

  /** getValueJson reads only the fields' keys, values and types: forms
      that differ only in verdicts, marks, arming or handlers extract alike. */
  lemma JsonIgnoresVerdicts(variant: Variant, f: FormData, g: FormData, opts: Options)
    requires SameData(f.fields, g.fields)
    ensures GetValueJson(variant, f, opts) == GetValueJson(variant, g, opts)
  {
    FilteredKeysSameData(f.fields, g.fields, opts);
    ExtractDataSameData(variant, f, g, FilteredKeys(f.fields, opts), opts.ignoreBlank);
  }

  lemma FilteredKeysSameData(a: seq<Field>, b: seq<Field>, opts: Options)
    requires SameData(a, b)
    ensures FilteredKeys(a, opts) == FilteredKeys(b, opts)
  {
    assert Keys(a) == Keys(b);
    var targets := if |opts.keys| > 0 then opts.keys else Except(Keys(a), opts.exceptKeys);
    KeepFieldsSameData(a, b, targets, |targets|);
  }

  lemma {:induction false} KeepFieldsSameData(a: seq<Field>, b: seq<Field>, targets: seq<string>, n: nat)
    requires SameData(a, b) && n <= |targets|
    ensures KeepFields(a, targets, n) == KeepFields(b, targets, n)
  {
    if n > 0 {
      KeepFieldsSameData(a, b, targets, n - 1);
      FieldIndexSameKeys(a, b, targets[n - 1]);
      assert FieldIndex(a, targets[n - 1]).Some? == FieldIndex(b, targets[n - 1]).Some?;
    }
  }

  lemma ExtractDataSameData(variant: Variant, f: FormData, g: FormData, keys: seq<string>, ignoreBlank: bool)
    requires SameData(f.fields, g.fields)
    ensures ExtractData(variant, f, keys, ignoreBlank) == ExtractData(variant, g, keys, ignoreBlank)
  {
    var e1 := k => FieldEntry(variant, f, k, ignoreBlank);
    var e2 := k => FieldEntry(variant, g, k, ignoreBlank);
    forall j | 0 <= j < |keys| ensures e1(keys[j]) == e2(keys[j]) {
      FieldEntrySameData(variant, f, g, keys[j], ignoreBlank);
    }
    CollectSameEntries(keys, e1, e2, |keys|);
  }

  lemma FieldEntrySameData(variant: Variant, f: FormData, g: FormData, k: string, ignoreBlank: bool)
    requires SameData(f.fields, g.fields)
    ensures FieldEntry(variant, f, k, ignoreBlank) == FieldEntry(variant, g, k, ignoreBlank)
  {
    FieldIndexSameKeys(f.fields, g.fields, k);
  }

  lemma UniqueAt(es: seq<(string, Value)>, i: nat, j: nat)
    requires UniqueNames(es) && i < j < |es|
    ensures es[i].0 != es[j].0
  {
    if i > 0 {
      UniqueAt(es[1..], i - 1, j - 1);
    } else {
      NameSetHas(es[1..], j - 1);
    }
  }

  lemma LookupAppend(es: seq<(string, Value)>, e: (string, Value), k: string)
    ensures Lookup(es + [e], k) == if Lookup(es, k).Some? then Lookup(es, k) else if e.0 == k then Some(e.1) else None
  {
    if es != [] {
      assert (es + [e])[1..] == es[1..] + [e];
      LookupAppend(es[1..], e, k);
    }
  }

  lemma LookupAbsent(es: seq<(string, Value)>, m: nat, k: string)
    requires m <= |es|
    requires forall i :: 0 <= i < m ==> es[i].0 != k
    ensures Lookup(es[..m], k).None?
  {
    forall i | 0 <= i < m ensures es[..m][i].0 != k { assert es[..m][i] == es[i]; }
    LookupSpec(es[..m], k);
  }
}
