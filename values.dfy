/** The loosely typed values the form engine stores, validates, ingests
    and extracts; the form data a value can nest (a sub-form); and the
    JavaScript conversions the engine applies to values: String(),
    implicit string conversion, Number() and truthiness. */
module Values {
  import opened Text

  /** Which adapter copy of the engine is modelled. `Solid` stands for the
      Solid entry point and its legacy copy (their logic is the same);
      `Vue` for the Vue adapter, which stores values directly. */
  datatype Variant = Solid | Vue

  /** An emit handler: a host function, known to the engine only by
      identity. What calling it returns is supplied from outside. */
  type HandlerId = nat

  /** A value as the engine sees it. `Sub` is a form instance; `derived`
      says whether its class is a subclass of VufForm rather than VufForm
      itself, which formatValue's prototype test distinguishes. */
  datatype Value =
    | Undefined
    | Null
    | Bool(b: bool)
    | Num(x: real)
    | NaN
    | Str(s: string)
    | Sym(description: string)
    | Arr(items: seq<Value>)
    | Obj(entries: seq<(string, Value)>)
    | Sub(form: FormData, derived: bool)

  /** How a call ended: with a result, or by throwing. */
  datatype Completion = Normal(result: Value) | Abrupt

  /** One validation rule of a field: a bare rule name, a `[name, ...params]`
      tuple, or an empty tuple. */
  datatype Rule = Named(name: string) | Tuple(name: string, params: seq<Value>) | EmptyTuple

  /** The static `gen` factory of a sub-form class: the base class's throws;
      an overriding one yields a fresh, blank instance, of a subclass of
      VufForm when `derived`. */
  datatype Factory = Unimplemented | Gen(blank: FormData, derived: bool)

  /** The `type`/`subType` tag of a field: Number, Array, a sub-form class,
      another constructor (String, Date, ...), or none. */
  datatype TypeTag = Untyped | NumberType | ArrayType | FormType(factory: Factory) | OtherType

  /** A field definition: initial value, optional rule list, type tags. */
  datatype FieldConfig = FieldConfig(initial: Value, validate: Option<seq<Rule>>, kind: TypeTag, subKind: TypeTag)

  /** The validation result `{ error, message }` of a field. */
  datatype Verdict = Verdict(error: bool, message: string)

  /** One entry of a form's field table. `started` is the per-field
      `$startValid` mark set once the field has been evaluated. */
  datatype Field = Field(key: string, value: Value, config: FieldConfig, verdict: Verdict, started: bool)

  /** The state of a form: the ordered field table, the armed flag and the
      emit-handler dictionary. */
  datatype FormData = FormData(fields: seq<Field>, armed: bool, emits: map<string, HandlerId>)

  /** The form handle a validator receives: `emit` through the form's
      handlers, and the form's data (each field's name, value and
      definition), from which its getJson() is computed. */
  datatype Handle = Handle(emits: map<string, HandlerId>, call: (HandlerId, seq<Value>) -> Completion,
                           data: seq<(string, Value, FieldConfig)>)

  // ---------------------------------------------------------------------
  // Field tables and plain objects
  // ---------------------------------------------------------------------

  predicate UniqueKeys(fields: seq<Field>) {
    forall i, j :: 0 <= i < j < |fields| ==> fields[i].key != fields[j].key
  }

  /** No name occurs twice, checked from the front: the first field's
      name does not recur later, and the rest has no repeats either. */
  predicate NoRepeats(fields: seq<Field>) {
    fields == [] || (Absent(fields[1..], fields[0].key) && NoRepeats(fields[1..]))
  }

  /** No field is named `key`. */
  predicate Absent(fields: seq<Field>, key: string) {
    fields == [] || (fields[0].key != key && Absent(fields[1..], key))
  }

  lemma {:induction false} AbsentSpec(fields: seq<Field>, key: string)
    ensures Absent(fields, key) <==> forall j :: 0 <= j < |fields| ==> fields[j].key != key
  {
    if fields != [] {
      AbsentSpec(fields[1..], key);
      if !Absent(fields, key) && fields[0].key != key {
        var j :| 0 <= j < |fields[1..]| && fields[1..][j].key == key;
        assert fields[j + 1].key == key;
      }
    }
  }

  /** The check from the front agrees with the pairwise statement. */
  lemma {:induction false} NoRepeatsUnique(fields: seq<Field>)
    ensures NoRepeats(fields) <==> UniqueKeys(fields)
  {
    if fields != [] {
      var rest := fields[1..];
      NoRepeatsUnique(rest);
      AbsentSpec(rest, fields[0].key);
      if NoRepeats(fields) {
        forall i, j | 0 <= i < j < |fields| ensures fields[i].key != fields[j].key {
          assert fields[j] == rest[j - 1];
          if i > 0 { assert fields[i] == rest[i - 1]; }
        }
      }
      if UniqueKeys(fields) {
        forall j | 0 <= j < |rest| ensures rest[j].key != fields[0].key {
          assert rest[j] == fields[j + 1];
        }
        assert UniqueKeys(rest) by {
          forall i, j | 0 <= i < j < |rest| ensures rest[i].key != rest[j].key {
            assert rest[i] == fields[i + 1] && rest[j] == fields[j + 1];
          }
        }
      }
    }
  }

  /** A table with the same names in the same positions as a table
      without repeated names has none either. */
  lemma NoRepeatsKept(a: seq<Field>, b: seq<Field>)
    requires NoRepeats(a) && |a| == |b| && forall i :: 0 <= i < |a| ==> a[i].key == b[i].key
    ensures NoRepeats(b)
  {
    NoRepeatsUnique(a);
    NoRepeatsUnique(b);
  }

  /** Replacing one field by one of the same name keeps the table free of
      repeats. */
  lemma NoRepeatsUpdate(a: seq<Field>, i: nat, x: Field)
    requires NoRepeats(a) && i < |a| && x.key == a[i].key
    ensures NoRepeats(a[i := x])
  {
    NoRepeatsKept(a, a[i := x]);
  }

  /** The position of the field named `key`. */
  function FieldIndex(fields: seq<Field>, key: string): (r: Option<nat>)
    ensures r.Some? ==> r.value < |fields| && fields[r.value].key == key
    ensures r.Some? ==> forall j :: 0 <= j < r.value ==> fields[j].key != key
    ensures r.None? ==> forall j :: 0 <= j < |fields| ==> fields[j].key != key
  {
    if fields == [] then None
    else if fields[0].key == key then Some(0)
    else match FieldIndex(fields[1..], key)
      case None => None
      case Some(i) => Some(i + 1)
  }

  /** The stored value of the field named `key`, if there is one. */
  function ValueOf(fields: seq<Field>, key: string): (r: Option<Value>)
    ensures r.None? <==> FieldIndex(fields, key).None?
    ensures r.Some? ==> r.value == fields[FieldIndex(fields, key).value].value
  {
    match FieldIndex(fields, key)
    case None => None
    case Some(i) => Some(fields[i].value)
  }

  /** Two field tables that agree on every key, value and configuration,
      position by position (they may differ in verdicts and marks). */
  predicate SameData(a: seq<Field>, b: seq<Field>) {
    |a| == |b| && forall i :: 0 <= i < |a| ==>
      a[i].key == b[i].key && a[i].value == b[i].value && a[i].config == b[i].config
  }

  /** Two field tables with the same keys in the same order find the same
      position for every name. */
  lemma {:induction false} FieldIndexSameKeys(a: seq<Field>, b: seq<Field>, name: string)
    requires |a| == |b| && forall i :: 0 <= i < |a| ==> a[i].key == b[i].key
    ensures FieldIndex(a, name) == FieldIndex(b, name)
  {
    if a != [] {
      FieldIndexSameKeys(a[1..], b[1..], name);
    }
  }

  /** The name, value and definition of each field, in order. */
  function DataOf(fields: seq<Field>): (r: seq<(string, Value, FieldConfig)>)
    ensures |r| == |fields|
    ensures forall i :: 0 <= i < |fields| ==> r[i] == (fields[i].key, fields[i].value, fields[i].config)
  {
    seq(|fields|, i requires 0 <= i < |fields| => (fields[i].key, fields[i].value, fields[i].config))
  }

  function Keys(fields: seq<Field>): (r: seq<string>)
    ensures |r| == |fields| && forall i :: 0 <= i < |r| ==> r[i] == fields[i].key
  {
    if fields == [] then [] else [fields[0].key] + Keys(fields[1..])
  }

  /** The value of property `k` of a plain object. */
  function Lookup(es: seq<(string, Value)>, k: string): Option<Value>
  {
    if es == [] then None
    else if es[0].0 == k then Some(es[0].1)
    else Lookup(es[1..], k)
  }

  /** A property is found iff some entry carries its name, and what is
      found is the value of such an entry. */
  lemma {:induction false} LookupSpec(es: seq<(string, Value)>, k: string)
    ensures Lookup(es, k).None? <==> forall i :: 0 <= i < |es| ==> es[i].0 != k
    ensures Lookup(es, k).Some? ==> exists i :: 0 <= i < |es| && es[i] == (k, Lookup(es, k).value)
  {
    if es != [] && es[0].0 != k {
      LookupSpec(es[1..], k);
      if Lookup(es, k).Some? {
        var i :| 0 <= i < |es[1..]| && es[1..][i] == (k, Lookup(es, k).value);
        assert es[i + 1] == es[1..][i];
      }
    }
  }

  /** No property name occurs twice. */
  predicate UniqueNames(es: seq<(string, Value)>) {
    es == [] || (es[0].0 !in NameSet(es[1..]) && UniqueNames(es[1..]))
  }

  /** The names of a plain object's properties. */
  function NameSet(es: seq<(string, Value)>): set<string>
  {
    if es == [] then {} else {es[0].0} + NameSet(es[1..])
  }

  lemma {:induction false} NameSetHas(es: seq<(string, Value)>, i: nat)
    requires i < |es|
    ensures es[i].0 in NameSet(es)
  {
    if i > 0 {
      NameSetHas(es[1..], i - 1);
    }
  }

  /** Property assignment `obj[k] = v`: an existing property keeps its
      place and takes the new value; a new one is appended. */
  function Put(es: seq<(string, Value)>, k: string, v: Value): seq<(string, Value)>
  {
    if es == [] then [(k, v)]
    else if es[0].0 == k then [(k, v)] + es[1..]
    else [es[0]] + Put(es[1..], k, v)
  }

  /** After the assignment the property reads `v`, every other property
      reads as before, the names are the old ones plus `k`, and names
      stay unique. */
  lemma {:induction false} PutSpec(es: seq<(string, Value)>, k: string, v: Value)
    ensures UniqueNames(es) ==> UniqueNames(Put(es, k, v))
    ensures Lookup(Put(es, k, v), k) == Some(v)
    ensures forall k' :: k' != k ==> Lookup(Put(es, k, v), k') == Lookup(es, k')
    ensures NameSet(Put(es, k, v)) == NameSet(es) + {k}
  {
    if es != [] && es[0].0 != k {
      PutSpec(es[1..], k, v);
      assert Put(es, k, v)[1..] == Put(es[1..], k, v);
    } else if es != [] {
      assert Put(es, k, v)[1..] == es[1..];
    }
  }

  // ---------------------------------------------------------------------
  // Conversions
  // ---------------------------------------------------------------------

  /** `x == null`: null or undefined. */
  predicate Nullish(v: Value) { v.Null? || v.Undefined? }

  /** JavaScript truthiness. */
  predicate Truthy(v: Value) {
    match v
    case Undefined => false
    case Null => false
    case NaN => false
    case Bool(b) => b
    case Num(x) => x != 0.0
    case Str(s) => s != ""
    case _ => true
  }

  /** The falsy values are exactly undefined, null, false, 0, NaN and the
      empty string; in particular null and undefined are falsy, and every
      array, object and nested form is truthy. */
  lemma FalsyValues(v: Value)
    ensures !Truthy(v) <==> v == Undefined || v == Null || v == Bool(false) || v == Num(0.0) || v == NaN || v == Str("")
    ensures Nullish(v) ==> !Truthy(v)
    ensures v.Arr? || v.Obj? || v.Sub? || v.Sym? ==> Truthy(v)
  {
  }

  /** The implicit string conversion (ToString): throws (`None`) on a
      Symbol, and on an array holding one anywhere, since arrays convert
      by joining their elements' conversions with commas. */
  function ToStr(v: Value): (r: Option<string>)
    ensures v.Sym? ==> r.None?
    ensures !v.Sym? && !v.Arr? ==> r.Some?
    ensures v.Str? ==> r == Some(v.s)
  {
    match v
    case Undefined => Some("undefined")
    case Null => Some("null")
    case Bool(b) => Some(if b then "true" else "false")
    case Num(x) => Some(NumberText(x))
    case NaN => Some("NaN")
    case Str(s) => Some(s)
    case Sym(_) => None
    case Arr(items) => JoinItems(items)
    case Obj(_) => Some("[object Object]")
    case Sub(_, _) => Some("[object Object]")
  }

  /** Array.prototype.join(","): null and undefined elements join as ''. */
  function JoinItems(items: seq<Value>): Option<string>
  {
    if items == [] then Some("")
    else
      var head := if Nullish(items[0]) then Some("") else ToStr(items[0]);
      if |items| == 1 then head
      else match (head, JoinItems(items[1..]))
        case (Some(h), Some(t)) => Some(h + "," + t)
        case _ => None
  }

  /** The String() function: like ToStr, except that a Symbol converts to
      its description text instead of throwing. */
  function StringOf(v: Value): (r: Option<string>)
    ensures !v.Arr? ==> r.Some?
    ensures !v.Arr? && !v.Str? ==> |r.value| > 0
  {
    match v
    case Sym(d) => Some("Symbol(" + d + ")")
    case _ => ToStr(v)
  }

  /** The Number() function. */
  function NumberOf(v: Value): (r: NumResult)
    ensures r.TypeError? <==> v.Sym? || (v.Arr? && ToStr(v).None?)
  {
    match v
    case Undefined => NotANumber
    case Null => Finite(0.0)
    case Bool(b) => Finite(if b then 1.0 else 0.0)
    case Num(x) => Finite(x)
    case NaN => NotANumber
    case Str(s) => ParseNumber(s)
    case Sym(_) => TypeError
    case _ => match ToStr(v)
      case None => TypeError
      case Some(t) => ParseNumber(t)
  }

  /** `form.emit(name, ...args)`: the registered handler's result, or null
      (and no call) when no handler is registered under `name`. */
  function Emit(emits: map<string, HandlerId>, call: (HandlerId, seq<Value>) -> Completion,
                name: string, args: seq<Value>): (r: Completion)
    ensures name !in emits ==> r == Normal(Null)
    ensures name in emits ==> r == call(emits[name], args)
  {
    if name in emits then call(emits[name], args) else Normal(Null)
  }
}
