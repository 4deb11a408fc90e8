/** ASCII text helpers shared by the form engine: decimal rendering of
    numbers (what JavaScript's String() produces for them), the decimal
    subset of JavaScript's Number() parsing, first-character case changes
    and first-occurrence search and replace. */
module Text {

  /** The result of converting something to a number: a finite number, NaN,
      or a TypeError (JavaScript throws when a Symbol is converted). */
  datatype NumResult = Finite(x: real) | NotANumber | TypeError

  datatype Option<T> = None | Some(value: T)

  predicate IsDigit(c: char) { '0' <= c <= '9' }

  /** JavaScript white space and line terminators: what `\s` matches in a
      regular expression and what Number() trims. */
  predicate IsWhiteSpace(c: char) {
    c == ' ' || c == '\t' || c == '\n' || c == '\r' || c == '\U{B}' || c == '\U{C}'
    || c == '\U{A0}' || c == '\U{1680}' || '\U{2000}' <= c <= '\U{200A}'
    || c == '\U{2028}' || c == '\U{2029}' || c == '\U{202F}' || c == '\U{205F}'
    || c == '\U{3000}' || c == '\U{FEFF}'
  }

  predicate AllDigits(s: string) { forall i :: 0 <= i < |s| ==> IsDigit(s[i]) }

  function DigitChar(d: int): (c: char)
    requires 0 <= d <= 9
    ensures IsDigit(c) && c as int - '0' as int == d
  {
    ('0' as int + d) as char
  }

  /** The value of a string of decimal digits, read left to right. */
  function DigitsValue(s: string): nat
    requires AllDigits(s)
  {
    if s == [] then 0
    else DigitsValue(s[..|s| - 1]) * 10 + (s[|s| - 1] as int - '0' as int)
  }

  function Pow10(n: nat): (r: nat)
    ensures r >= 1
  {
    if n == 0 then 1 else 10 * Pow10(n - 1)
  }

  /** Decimal text of a natural number, without leading zeros. */
  function NatText(n: nat): (r: string)
    ensures |r| >= 1 && AllDigits(r)
    ensures r[0] == '0' ==> n == 0
  {
    if n < 10 then [DigitChar(n)] else NatText(n / 10) + [DigitChar(n % 10)]
  }

  /** Reading back the decimal text of a natural number gives the number. */
  lemma {:induction false} NatTextValue(n: nat)
    ensures DigitsValue(NatText(n)) == n
  {
    if n >= 10 {
      var t := NatText(n / 10) + [DigitChar(n % 10)];
      assert t[..|t| - 1] == NatText(n / 10);
      NatTextValue(n / 10);
    }
  }

  /** Decimal text of a number as String() renders it: a minus sign for
      negatives, the integral part, and the fractional digits when there
      are any (at most 20 of them). */
  function NumberText(x: real): (r: string)
    ensures |r| >= 1
    ensures x >= 0.0 ==> IsDigit(r[0])
    ensures x < 0.0 ==> r[0] == '-'
  {
    if x < 0.0 then "-" + Magnitude(-x) else Magnitude(x)
  }

  function Magnitude(x: real): (r: string)
    requires x >= 0.0
    ensures |r| >= 1 && IsDigit(r[0])
    ensures x == x.Floor as real ==> r == NatText(x.Floor)
  {
    var i := x.Floor;
    var f := x - i as real;
    NatText(i) + (if f == 0.0 then "" else "." + FractionDigits(f, 20))
  }

  function FractionDigits(f: real, fuel: nat): (r: string)
    requires 0.0 <= f < 1.0
    decreases fuel
    ensures AllDigits(r) && |r| <= fuel
  {
    if fuel == 0 || f == 0.0 then ""
    else
      var t := f * 10.0;
      var d := t.Floor;
      [DigitChar(d)] + FractionDigits(t - d as real, fuel - 1)
  }

  /** The string without its leading and trailing white space. */
  function Trim(s: string): (r: string)
    ensures |r| <= |s|
    ensures r != [] ==> !IsWhiteSpace(r[0]) && !IsWhiteSpace(r[|r| - 1])
    ensures (forall i :: 0 <= i < |s| ==> !IsWhiteSpace(s[i])) ==> r == s
  {
    if s == [] then s
    else if IsWhiteSpace(s[0]) then Trim(s[1..])
    else if IsWhiteSpace(s[|s| - 1]) then Trim(s[..|s| - 1])
    else s
  }

  /** `pat` occurs in `s` starting at index `j`. */
  predicate OccursAt(s: string, pat: string, j: int) {
    0 <= j && j + |pat| <= |s| && s[j..j + |pat|] == pat
  }

  /** The first index at or after `from` where `pat` occurs in `s`. */
  function IndexFrom(s: string, pat: string, from: nat): (r: Option<nat>)
    requires from <= |s|
    decreases |s| - from
    ensures r.Some? ==> from <= r.value && OccursAt(s, pat, r.value)
    ensures r.Some? ==> forall j :: from <= j < r.value ==> !OccursAt(s, pat, j)
    ensures r.None? ==> forall j :: from <= j ==> !OccursAt(s, pat, j)
  {
    if from + |pat| > |s| then None
    else if s[from..from + |pat|] == pat then Some(from)
    else IndexFrom(s, pat, from + 1)
  }

  /** The first occurrence of `pat` in `s`, as String.prototype.indexOf finds it. */
  function IndexOf(s: string, pat: string): (r: Option<nat>)
    ensures r.Some? ==> OccursAt(s, pat, r.value)
    ensures r.Some? ==> forall j :: 0 <= j < r.value ==> !OccursAt(s, pat, j)
    ensures r.None? ==> forall j :: !OccursAt(s, pat, j)
  {
    IndexFrom(s, pat, 0)
  }

  /** String.prototype.replace with a string pattern: only the first
      occurrence is replaced (the replacement is taken literally). */
  function ReplaceFirst(s: string, pat: string, rep: string): string
  {
    match IndexOf(s, pat)
    case None => s
    case Some(i) => s[..i] + rep + s[i + |pat|..]
  }

  /** What ReplaceFirst does, stated by cases: an absent pattern leaves the
      text alone; otherwise the text before the first occurrence and the
      text after it are kept and only that occurrence is replaced. */
  lemma ReplaceFirstSpec(s: string, pat: string, rep: string, i: int)
    ensures (forall j :: !OccursAt(s, pat, j)) ==> ReplaceFirst(s, pat, rep) == s
    ensures OccursAt(s, pat, i) && (forall j :: 0 <= j < i ==> !OccursAt(s, pat, j))
            ==> ReplaceFirst(s, pat, rep) == s[..i] + rep + s[i + |pat|..]
  {
    match IndexOf(s, pat)
    case None =>
    case Some(k) =>
      if OccursAt(s, pat, i) && (forall j :: 0 <= j < i ==> !OccursAt(s, pat, j)) {
        assert !(k < i) && !(i < k);
      }
  }

  /** ASCII-only case changes of one character. */
  function LowerChar(c: char): char { if 'A' <= c <= 'Z' then (c as int + 32) as char else c }
  function UpperChar(c: char): char { if 'a' <= c <= 'z' then (c as int - 32) as char else c }

  /** headLower: the first character lower-cased, the empty string unchanged. */
  function HeadLower(s: string): (r: string)
    ensures |r| == |s|
    ensures s != [] ==> r[0] == LowerChar(s[0]) && r[1..] == s[1..]
    ensures s == [] ==> r == s
  {
    if s == [] then s else [LowerChar(s[0])] + s[1..]
  }

  /** headUpper: the first character upper-cased, the empty string unchanged. */
  function HeadUpper(s: string): (r: string)
    ensures |r| == |s|
    ensures s != [] ==> r[0] == UpperChar(s[0]) && r[1..] == s[1..]
    ensures s == [] ==> r == s
  {
    if s == [] then s else [UpperChar(s[0])] + s[1..]
  }

  /** Changing the head's case twice in the same direction changes nothing
      more, and the two directions undo each other on ASCII letters. */
  lemma HeadCaseFacts(s: string)
    ensures HeadLower(HeadLower(s)) == HeadLower(s)
    ensures HeadUpper(HeadUpper(s)) == HeadUpper(s)
    ensures s != [] && 'a' <= s[0] <= 'z' ==> HeadLower(HeadUpper(s)) == s
    ensures s != [] && 'A' <= s[0] <= 'Z' ==> HeadUpper(HeadLower(s)) == s
  {
  }

  /** A character outside the Basic Multilingual Plane: JavaScript stores
      it as a surrogate pair, two UTF-16 code units. */
  predicate IsAstral(c: char) { c as int > 0xFFFF }

  /** JavaScript's `.length` of a string: its number of UTF-16 code units. */
  function Utf16Length(s: string): (r: nat)
    ensures |s| <= r <= 2 * |s|
  {
    if s == [] then 0 else (if IsAstral(s[0]) then 2 else 1) + Utf16Length(s[1..])
  }

  /** `.length` counts characters exactly when none of them is astral. */
  lemma {:induction false} Utf16LengthCounts(s: string)
    ensures Utf16Length(s) == |s| <==> forall i :: 0 <= i < |s| ==> !IsAstral(s[i])
  {
    if s != [] {
      Utf16LengthCounts(s[1..]);
      if !IsAstral(s[0]) && forall i :: 0 <= i < |s[1..]| ==> !IsAstral(s[1..][i]) {
        forall i | 0 <= i < |s| ensures !IsAstral(s[i]) {
          if i > 0 { assert s[i] == s[1..][i - 1]; }
        }
      }
    }
  }

  // ---------------------------------------------------------------------
  // Number(): the decimal subset of JavaScript's string-to-number grammar
  // ---------------------------------------------------------------------

  /** The value of `ip.fp` for digit strings `ip` and `fp`. */
  function DecimalValue(ip: string, fp: string): real
    requires AllDigits(ip) && AllDigits(fp)
  {
    DigitsValue(ip) as real + DigitsValue(fp) as real / Pow10(|fp|) as real
  }

  /** An unsigned decimal literal: digits, optionally a point and more
      digits, with at least one digit in all. */
  function ParseUnsigned(t: string): (r: NumResult)
    ensures r != TypeError
  {
    match IndexOf(t, ".")
    case None =>
      if t != [] && AllDigits(t) then Finite(DigitsValue(t) as real) else NotANumber
    case Some(p) =>
      var ip := t[..p];
      var fp := t[p + 1..];
      if |ip| + |fp| > 0 && AllDigits(ip) && AllDigits(fp) then Finite(DecimalValue(ip, fp))
      else NotANumber
  }

  /** Number(s) for a string: surrounding white space is ignored, the empty
      string is 0, an optional sign precedes an unsigned decimal literal,
      and anything else is NaN. Never a TypeError. */
  function ParseNumber(s: string): (r: NumResult)
    ensures r != TypeError
    ensures Trim(s) == [] ==> r == Finite(0.0)
  {
    var t := Trim(s);
    if t == [] then Finite(0.0)
    else
      var body := if t[0] == '-' || t[0] == '+' then t[1..] else t;
      var u := ParseUnsigned(body);
      if t[0] == '-' && u.Finite? then Finite(-u.x) else u
  }

  /** A digit string has no white space to trim and no decimal point, so
      Number() reads it as the integer it spells. */
  lemma DigitsParse(t: string)
    requires t != [] && AllDigits(t)
    ensures Trim(t) == t
    ensures ParseUnsigned(t) == Finite(DigitsValue(t) as real)
  {
    forall k | 0 <= k < |t| ensures !IsWhiteSpace(t[k]) { assert IsDigit(t[k]); }
    forall j | 0 <= j < |t| ensures !OccursAt(t, ".", j) {
      if j + 1 <= |t| { assert t[j..j + 1][0] == t[j]; }
    }
  }

  /** Number() of a digit string, with or without a leading minus sign. */
  lemma SignedDigitsParse(t: string, negative: bool)
    requires t != [] && AllDigits(t)
    ensures ParseNumber(if negative then "-" + t else t)
            == Finite(if negative then -(DigitsValue(t) as real) else DigitsValue(t) as real)
  {
    DigitsParse(t);
    if negative {
      var u := "-" + t;
      forall k | 0 <= k < |u| ensures !IsWhiteSpace(u[k]) {
        if k > 0 { assert u[k] == t[k - 1]; assert IsDigit(t[k - 1]); }
      }
      assert Trim(u) == u;
      assert u[1..] == t;
    } else {
      assert IsDigit(t[0]);
    }
  }

  /** The text of a whole number is the decimal text of that number. */
  lemma WholeNumberText(n: nat)
    ensures NumberText(n as real) == NatText(n)
    ensures n > 0 ==> NumberText(-(n as real)) == "-" + NatText(n)
  {
    assert (n as real).Floor == n;
  }

  /** Number(String(i)) == i for every integer: the decimal text of an
      integer parses back to that integer. */
  lemma {:induction false} IntegerTextRoundTrip(i: int)
    ensures ParseNumber(NumberText(i as real)) == Finite(i as real)
  {
    var n: nat := if i < 0 then -i else i;
    WholeNumberText(n);
    NatTextValue(n);
    SignedDigitsParse(NatText(n), i < 0);
    if i < 0 {
      assert i as real == -(n as real);
    } else {
      assert i as real == n as real;
    }
  }
}
