/** The built-in validators: predicates over a field's value (and the
    form handle and the rule's parameters) whose outcome is pass, fail,
    or an exception that escapes the validator. */
module Validators {
  import opened Text
  import opened Values

  /** How a validator call ends: a truthy result, a falsy one, or a throw. */
  datatype Outcome = Pass | Fail | Throw

  /** An entry of the validator map: what the validator returns for a
      value, the form handle and the rule's parameters. */
  type ValidatorFn = (Value, Handle, seq<Value>) -> Outcome

  /** Parameter `i` of a rule; a missing one reads as undefined. */
  function Param(params: seq<Value>, i: nat): (r: Value)
    ensures i < |params| ==> r == params[i]
    ensures i >= |params| ==> r == Undefined
  {
    if i < |params| then params[i] else Undefined
  }

  /** required: null and undefined fail; anything else passes iff its
      String() text is non-empty. String() of an array throws when an
      element's conversion does. */
  function RequiredCheck(v: Value): (r: Outcome)
    ensures Nullish(v) ==> r == Fail
    ensures r == Throw ==> v.Arr?
    ensures v.Num? || v.NaN? || v.Bool? || v.Sym? || v.Obj? || v.Sub? ==> r == Pass
    ensures v.Str? ==> (r == Pass <==> v.s != "")
    ensures v == Arr([]) ==> r == Fail
    ensures !Nullish(v) ==> (r == Throw <==> StringOf(v).None?)
    ensures !Nullish(v) && StringOf(v).Some? ==> (r == Pass <==> StringOf(v).value != "")
  {
    if Nullish(v) then Fail
    else match StringOf(v)
      case None => Throw
      case Some(s) => if |s| >= 1 then Pass else Fail
  }

  /** The relational comparison `len <= limit` inside the rule: the limit
      is converted to a number; NaN, and a conversion that throws (which
      the rule swallows), compare false. */
  predicate AtMost(len: nat, limit: Value) {
    var n := NumberOf(limit);
    n.Finite? && len as real <= n.x
  }

  /** maxLength: String(value) has at most `limit` UTF-16 code units. */
  function MaxLengthCheck(v: Value, limit: Value): (r: Outcome)
    ensures r == Throw <==> StringOf(v).None?
    ensures StringOf(v).Some? && limit.Num? ==> (r == Pass <==> Utf16Length(StringOf(v).value) as real <= limit.x)
    ensures !limit.Num? && !limit.Null? && !limit.Bool? && !limit.Str? && !limit.Arr? && !limit.Obj? && !limit.Sub? ==> r != Pass
  {
    assert limit.Num? ==> NumberOf(limit) == Finite(limit.x);
    match StringOf(v)
    case None => Throw
    case Some(s) => if AtMost(Utf16Length(s), limit) then Pass else Fail
  }

  /** length: String(value) has exactly `n` UTF-16 code units, `n` compared
      strictly (a numeric string never matches). */
  function LengthCheck(v: Value, n: Value): (r: Outcome)
    ensures r == Throw <==> StringOf(v).None?
    ensures r == Pass <==> StringOf(v).Some? && n == Num(Utf16Length(StringOf(v).value) as real)
  {
    match StringOf(v)
    case None => Throw
    case Some(s) => if n == Num(Utf16Length(s) as real) then Pass else Fail
  }

  /** anyCondition(funcName, message): null, undefined and '' pass without
      an emit; otherwise the value and the message are emitted under
      `funcName` and the outcome is the result's truthiness (an emit that
      throws, throws). */
  function AnyConditionCheck(v: Value, h: Handle, params: seq<Value>): (r: Outcome)
    ensures Nullish(v) || v == Str("") ==> r == Pass
    ensures !Nullish(v) && v != Str("") && Param(params, 0).Str? ==>
      var c := Emit(h.emits, h.call, Param(params, 0).s, [v, Param(params, 1)]);
      r == (if c.Abrupt? then Throw else if Truthy(c.result) then Pass else Fail)
  {
    if Nullish(v) || v == Str("") then Pass
    else match EventKey(Param(params, 0))
      case None => Throw
      case Some(None) => Fail
      case Some(Some(name)) =>
        match Emit(h.emits, h.call, name, [v, Param(params, 1)])
        case Abrupt => Throw
        case Normal(res) => if Truthy(res) then Pass else Fail
  }

  /** The property key an event name is looked up under: a string is
      itself; a symbol names no string-keyed handler (`Some(None)`);
      anything else is converted to text, which can throw (`None`). */
  function EventKey(name: Value): (r: Option<Option<string>>)
    ensures name.Str? ==> r == Some(Some(name.s))
    ensures name.Sym? ==> r == Some(None)
  {
    match name
    case Str(s) => Some(Some(s))
    case Sym(_) => Some(None)
    case _ => match ToStr(name)
      case None => None
      case Some(k) => Some(Some(k))
  }

  /** integer: Number(value) is an integer; a conversion that throws makes
      it false instead of escaping. */
  function IntegerCheck(v: Value): (r: Outcome)
    ensures r != Throw
    ensures r == Pass <==> NumberOf(v).Finite? && NumberOf(v).x == NumberOf(v).x.Floor as real
  {
    match NumberOf(v)
    case Finite(x) => if x == x.Floor as real then Pass else Fail
    case _ => Fail
  }

  /** positiveInteger: Number(value) is an integer and not negative (zero
      passes); a conversion that throws makes it false. */
  function PositiveIntegerCheck(v: Value): (r: Outcome)
    ensures r != Throw
    ensures r == Pass <==> IntegerCheck(v) == Pass && NumberOf(v).x >= 0.0
  {
    match NumberOf(v)
    case Finite(x) => if x == x.Floor as real && x >= 0.0 then Pass else Fail
    case _ => Fail
  }

  // ---------------------------------------------------------------------
  // isEmail: /[^\s@]+@[^\s@]+\.[^\s@]+/, unanchored
  // ---------------------------------------------------------------------

  /** A character of the class `[^\s@]`. */
  predicate IsWord(c: char) { !IsWhiteSpace(c) && c != '@' }

  predicate AllWord(s: string) { forall i :: 0 <= i < |s| ==> IsWord(s[i]) }

  /** The pattern matches `s[a..e]`, with its `@` at index `at` and its
      escaped dot at index `dot`: three non-empty runs of word characters
      separated by those two characters. */
  predicate EmailAt(s: string, a: int, at: int, dot: int, e: int) {
    0 <= a < at && at + 1 < dot && dot + 1 < e <= |s|
    && AllWord(s[a..at]) && s[at] == '@' && AllWord(s[at + 1..dot])
    && s[dot] == '.' && AllWord(s[dot + 1..e])
  }

  /** Some substring of `s` matches the pattern. */
  ghost predicate MatchesEmail(s: string) {
    exists a, at, dot, e :: EmailAt(s, a, at, dot, e)
  }

  /** Scanning the domain run that started at `p` and has reached `i`: a
      dot followed by a word character ends the match. */
  function DomainScan(s: string, p: nat, i: nat): bool
    requires p < i <= |s|
    decreases |s| - i
  {
    if i + 1 >= |s| then false
    else if s[i] == '.' && IsWord(s[i + 1]) then true
    else if IsWord(s[i]) then DomainScan(s, p, i + 1)
    else false
  }

  /** The first `@` position at or after `at` that starts a match, tried
      in turn: a word character before it and a domain run after it. */
  function EmailScan(s: string, at: nat): bool
    decreases |s| - at
  {
    if at >= |s| then false
    else (s[at] == '@' && at >= 1 && IsWord(s[at - 1]) && at + 1 < |s| && IsWord(s[at + 1])
          && DomainScan(s, at + 1, at + 2))
         || EmailScan(s, at + 1)
  }

  /** isEmail: not null, a string of at least 5 UTF-16 code units, and
      matched by the pattern somewhere. */
  function IsEmailCheck(v: Value): (r: Outcome)
    ensures r != Throw
    ensures !v.Str? ==> r == Fail
    ensures v.Str? && Utf16Length(v.s) < 5 ==> r == Fail
  {
    if v.Str? && Utf16Length(v.s) >= 5 && EmailScan(v.s, 0) then Pass else Fail
  }

  lemma AllWordSlice(s: string, i: int, j: int, k: int)
    requires 0 <= i <= j <= k <= |s|
    requires AllWord(s[i..j]) && AllWord(s[j..k])
    ensures AllWord(s[i..k])
  {
    forall m | 0 <= m < k - i ensures IsWord(s[i..k][m]) {
      if m < j - i { assert s[i..k][m] == s[i..j][m]; }
      else { assert s[i..k][m] == s[j..k][m - (j - i)]; }
    }
  }

  /** A dot at or after `i`, reached from `p` through word characters
      only, and followed by a word character. */
  predicate DomainDot(s: string, p: nat, i: nat, dot: int) {
    i <= dot && dot + 1 < |s| && p <= dot && AllWord(s[p..dot]) && s[dot] == '.' && IsWord(s[dot + 1])
  }

  /** A successful domain scan stops at such a dot. */
  lemma {:induction false} DomainScanSound(s: string, p: nat, i: nat) returns (dot: nat)
    requires p < i <= |s| && AllWord(s[p..i]) && DomainScan(s, p, i)
    decreases |s| - i
    ensures DomainDot(s, p, i, dot)
  {
    if s[i] == '.' && IsWord(s[i + 1]) {
      dot := i;
    } else {
      assert AllWord(s[i..i + 1]);
      AllWordSlice(s, p, i, i + 1);
      dot := DomainScanSound(s, p, i + 1);
    }
  }

  /** The domain scan reaches any such dot. */
  lemma {:induction false} DomainScanComplete(s: string, p: nat, i: nat, dot: nat)
    requires p < i <= |s| && DomainDot(s, p, i, dot)
    decreases |s| - i
    ensures DomainScan(s, p, i)
  {
    if !(s[i] == '.' && IsWord(s[i + 1])) {
      assert dot != i;
      assert IsWord(s[p..dot][i - p]);
      DomainScanComplete(s, p, i + 1, dot);
    }
  }

  /** The domain scan succeeds exactly when a dot at or after `i`, reached
      through word characters only, is followed by a word character. */
  lemma DomainScanSpec(s: string, p: nat, i: nat)
    requires p < i <= |s| && AllWord(s[p..i])
    ensures DomainScan(s, p, i) <==> exists dot :: DomainDot(s, p, i, dot)
  {
    if DomainScan(s, p, i) {
      var dot := DomainScanSound(s, p, i);
    }
    if exists dot :: DomainDot(s, p, i, dot) {
      var dot :| DomainDot(s, p, i, dot);
      DomainScanComplete(s, p, i, dot);
    }
  }

  /** A match with its `@` at `at` exists iff the scan's test at `at`
      succeeds: the runs around it can always be shrunk to one word
      character before the `@` and one after the dot. */
  lemma MatchAtSpec(s: string, at: nat)
    requires at < |s|
    ensures (exists a, dot, e :: EmailAt(s, a, at, dot, e)) <==>
      (s[at] == '@' && at >= 1 && IsWord(s[at - 1]) && at + 1 < |s| && IsWord(s[at + 1])
       && DomainScan(s, at + 1, at + 2))
  {
    if exists a, dot, e :: EmailAt(s, a, at, dot, e) {
      var a, dot, e :| EmailAt(s, a, at, dot, e);
      assert s[at - 1] == s[a..at][at - 1 - a];
      assert s[at + 1] == s[at + 1..dot][0];
      assert s[dot + 1] == s[dot + 1..e][0];
      DomainScanComplete(s, at + 1, at + 2, dot);
    }
    if s[at] == '@' && at >= 1 && IsWord(s[at - 1]) && at + 1 < |s| && IsWord(s[at + 1])
       && DomainScan(s, at + 1, at + 2) {
      assert AllWord(s[at + 1..at + 2]);
      var dot := DomainScanSound(s, at + 1, at + 2);
      assert AllWord(s[at - 1..at]);
      assert AllWord(s[dot + 1..dot + 2]);
      assert EmailAt(s, at - 1, at, dot, dot + 2);
    }
  }

  /** The scan from `from` finds a match iff the pattern matches with its
      `@` at or after `from`. */
  lemma {:induction false} EmailScanSpec(s: string, from: nat)
    decreases |s| - from
    ensures EmailScan(s, from) <==> exists a, at, dot, e :: from <= at && EmailAt(s, a, at, dot, e)
  {
    if from < |s| {
      MatchAtSpec(s, from);
      EmailScanSpec(s, from + 1);
      if exists a, at, dot, e :: from <= at && EmailAt(s, a, at, dot, e) {
        var a, at, dot, e :| from <= at && EmailAt(s, a, at, dot, e);
        if at == from {
          assert exists a', d', e' :: EmailAt(s, a', from, d', e');
        } else {
          assert from + 1 <= at;
        }
      }
    }
  }

  /** isEmail passes exactly for strings of at least five code units in
      which the pattern matches somewhere. */
  lemma IsEmailSpec(v: Value)
    ensures IsEmailCheck(v) == Pass <==> v.Str? && Utf16Length(v.s) >= 5 && MatchesEmail(v.s)
  {
    if v.Str? { EmailScanSpec(v.s, 0); }
  }

  // ---------------------------------------------------------------------
  // The validator map
  // ---------------------------------------------------------------------

  /** The validator record the engine starts from, each entry called with
      the value, the form handle and the rule's parameters. */
  const BaseValidators: map<string, ValidatorFn> := map[
    "required" := (v, h, p) => RequiredCheck(v),
    "maxLength" := (v, h, p) => MaxLengthCheck(v, Param(p, 0)),
    "length" := (v, h, p) => LengthCheck(v, Param(p, 0)),
    "anyCondition" := (v, h, p) => AnyConditionCheck(v, h, p),
    "sameAs" := (v, h, p) => Throw,
    "integer" := (v, h, p) => IntegerCheck(v),
    "positiveInteger" := (v, h, p) => PositiveIntegerCheck(v),
    "isEmail" := (v, h, p) => IsEmailCheck(v)
  ]

  /** What the built-in entries promise whatever they are called with:
      sameAs always throws, integer, positiveInteger and isEmail never do,
      and required fails on null and undefined. */
  lemma BaseValidatorsSpec(v: Value, h: Handle, p: seq<Value>)
    ensures BaseValidators.Keys == {"required", "maxLength", "length", "anyCondition", "sameAs",
                                    "integer", "positiveInteger", "isEmail"}
    ensures BaseValidators["sameAs"](v, h, p) == Throw
    ensures BaseValidators["integer"](v, h, p) != Throw
    ensures BaseValidators["positiveInteger"](v, h, p) != Throw
    ensures BaseValidators["isEmail"](v, h, p) != Throw
    ensures Nullish(v) ==> BaseValidators["required"](v, h, p) == Fail
    ensures Nullish(v) || v == Str("") ==> BaseValidators["anyCondition"](v, h, p) == Pass
  {
  }

  /** The boundary behaviour of the length checks on a string: a text of
      exactly `n` code units is within maxLength(n) and has length n, and
      one of n + 1 code units is not within maxLength(n). */
  lemma LengthBoundaries(s: string, n: nat)
    ensures Utf16Length(s) == n ==> MaxLengthCheck(Str(s), Num(n as real)) == Pass
    ensures Utf16Length(s) == n + 1 ==> MaxLengthCheck(Str(s), Num(n as real)) == Fail
    ensures LengthCheck(Str(s), Num(n as real)) == Pass <==> Utf16Length(s) == n
  {
  }

  /** A character outside the Basic Multilingual Plane counts twice: a
      one-emoji string exceeds maxLength(1) and has length 2. */
  lemma AstralLength()
    ensures MaxLengthCheck(Str("\U{1F600}"), Num(1.0)) == Fail
    ensures LengthCheck(Str("\U{1F600}"), Num(2.0)) == Pass
  {
    assert Utf16Length("\U{1F600}") == 2;
  }

  /** required on arrays: the joined text decides, so `[""]` fails and
      `["", ""]` (text `","`) passes. */
  lemma RequiredArrays()
    ensures RequiredCheck(Arr([Str("")])) == Fail
    ensures RequiredCheck(Arr([Str(""), Str("")])) == Pass
  {
    assert JoinItems([Str(""), Str("")][1..]) == Some("");
  }

  /** positiveInteger accepts zero and rejects every negative integer;
      integer accepts both. */
  lemma IntegerSigns(i: int)
    ensures PositiveIntegerCheck(Num(i as real)) == Pass <==> i >= 0
    ensures IntegerCheck(Num(i as real)) == Pass
  {
    assert (i as real).Floor == i;
  }

  /** Integer texts pass integer: Number() reads them back exactly. */
  lemma IntegerTextPasses(i: int)
    ensures IntegerCheck(Str(NumberText(i as real))) == Pass
    ensures PositiveIntegerCheck(Str(NumberText(i as real))) == Pass <==> i >= 0
  {
    IntegerTextRoundTrip(i);
    var s := NumberText(i as real);
    assert NumberOf(Str(s)) == Finite(i as real);
    assert (i as real).Floor == i;
    assert IntegerCheck(Str(s)) == Pass;
  }
}
