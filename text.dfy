/**
 * String operations of the .NET base library that the core relies on:
 * `Trim`, `IsNullOrWhiteSpace`, ordinal and ordinal-ignore-case
 * comparison, `Contains`, `string.Join`, and the decimal rendering and
 * parsing of integers. Strings are sequences of Unicode scalar values.
 */
module Text {
  import opened Wrappers

  /** `char.IsWhiteSpace`: the characters of Unicode's White_Space property. */
  predicate IsWhiteSpace(c: char) {
    c == ' ' || ('\t' <= c <= '\r') || c == '\U{0085}' || c == '\U{00A0}' || c == '\U{1680}'
    || ('\U{2000}' <= c <= '\U{200A}') || c == '\U{2028}' || c == '\U{2029}'
    || c == '\U{202F}' || c == '\U{205F}' || c == '\U{3000}'
  }

  /** Every character of `s` is white space (true of the empty string). */
  predicate IsBlank(s: string) {
    forall i :: 0 <= i < |s| ==> IsWhiteSpace(s[i])
  }

  /** `string.IsNullOrWhiteSpace`. */
  predicate IsNullOrWhiteSpace(s: Option<string>) {
    s.None? || IsBlank(s.value)
  }

  /** The number of white-space characters `s` starts with. */
  function LeadingBlanks(s: string): (n: nat)
    ensures n <= |s|
    ensures forall k :: 0 <= k < n ==> IsWhiteSpace(s[k])
    ensures n < |s| ==> !IsWhiteSpace(s[n])
  {
    if s != [] && IsWhiteSpace(s[0]) then 1 + LeadingBlanks(s[1..]) else 0
  }

  /** The number of white-space characters `s` ends with. */
  function TrailingBlanks(s: string): (n: nat)
    ensures n <= |s|
    ensures forall k :: |s| - n <= k < |s| ==> IsWhiteSpace(s[k])
    ensures n < |s| ==> !IsWhiteSpace(s[|s| - 1 - n])
  {
    if s != [] && IsWhiteSpace(s[|s| - 1]) then 1 + TrailingBlanks(s[..|s| - 1]) else 0
  }

  /** `string.Trim()`: drops leading and trailing white space and nothing else. */
  function Trim(s: string): (r: string)
    ensures |r| <= |s|
    ensures r == [] || (!IsWhiteSpace(r[0]) && !IsWhiteSpace(r[|r| - 1]))
    ensures r == [] <==> IsBlank(s)
  {
    var a := LeadingBlanks(s);
    if a == |s| then []
    else
      var b := TrailingBlanks(s);
      assert !IsWhiteSpace(s[a]);
      s[a..|s| - b]
  }

  /** The trimmed string is blank exactly when the string is. */
  lemma TrimBlank(s: string)
    ensures IsBlank(Trim(s)) <==> IsBlank(s)
  {
    if Trim(s) != [] {
      assert !IsWhiteSpace(Trim(s)[0]);
    }
  }

  /** What `Trim` keeps is a slice of `s` with blank margins on both sides. */
  lemma TrimShape(s: string) returns (i: nat)
    ensures i + |Trim(s)| <= |s| && Trim(s) == s[i..i + |Trim(s)|]
    ensures IsBlank(s[..i]) && IsBlank(s[i + |Trim(s)|..])
  {
    i := LeadingBlanks(s);
    if i < |s| {
      var b := TrailingBlanks(s);
      assert !IsWhiteSpace(s[i]);
      assert i + |Trim(s)| == |s| - b;
    }
  }

  lemma BlankSplit(s: string, i: int)
    requires 0 <= i <= |s| && IsBlank(s[..i]) && IsBlank(s[i..])
    ensures IsBlank(s)
  {
    forall k | 0 <= k < |s| ensures IsWhiteSpace(s[k]) {
      if k < i { assert s[k] == s[..i][k]; } else { assert s[k] == s[i..][k - i]; }
    }
  }

  lemma BlankConcat(x: string, y: string)
    requires IsBlank(x) && IsBlank(y)
    ensures IsBlank(x + y)
  {
    assert (x + y)[..|x|] == x && (x + y)[|x|..] == y;
    BlankSplit(x + y, |x|);
  }

  lemma {:induction false} LeadingBlanksOfBlankPrefix(x: string, t: string)
    requires IsBlank(x) && t != [] && !IsWhiteSpace(t[0])
    ensures LeadingBlanks(x + t) == |x|
  {
    if x != [] {
      assert (x + t)[0] == x[0] && (x + t)[1..] == x[1..] + t;
      LeadingBlanksOfBlankPrefix(x[1..], t);
    } else {
      assert x + t == t;
    }
  }

  lemma {:induction false} TrailingBlanksOfBlankSuffix(t: string, y: string)
    requires IsBlank(y) && t != [] && !IsWhiteSpace(t[|t| - 1])
    ensures TrailingBlanks(t + y) == |y|
  {
    if y != [] {
      var s := t + y;
      assert s[|s| - 1] == y[|y| - 1] && s[..|s| - 1] == t + y[..|y| - 1];
      TrailingBlanksOfBlankSuffix(t, y[..|y| - 1]);
    } else {
      assert t + y == t;
    }
  }

  /** Trimming removes exactly the blank margins around a core that neither starts nor ends with white space. */
  lemma TrimUnique(x: string, r: string, y: string)
    requires IsBlank(x) && IsBlank(y)
    requires r == [] || (!IsWhiteSpace(r[0]) && !IsWhiteSpace(r[|r| - 1]))
    ensures Trim(x + r + y) == r
  {
    var s := x + r + y;
    if r == [] {
      assert s == x + y;
      BlankConcat(x, y);
    } else {
      assert s == x + (r + y) && (r + y)[0] == r[0];
      LeadingBlanksOfBlankPrefix(x, r + y);
      assert s == (x + r) + y && (x + r)[|x + r| - 1] == r[|r| - 1];
      TrailingBlanksOfBlankSuffix(x + r, y);
      assert s[|x|..|s| - |y|] == r;
    }
  }

  /** A string without white space at either end is its own trim. */
  lemma TrimNoWhiteSpace(s: string)
    requires s == [] || (!IsWhiteSpace(s[0]) && !IsWhiteSpace(s[|s| - 1]))
    ensures Trim(s) == s
  {
    TrimUnique("", s, "");
    assert "" + s + "" == s;
  }

  /** Trimming twice is trimming once. */
  lemma TrimIdempotent(s: string)
    ensures Trim(Trim(s)) == Trim(s)
  {
    TrimNoWhiteSpace(Trim(s));
  }

  /** Surrounding a string with more white space does not change its trim. */
  lemma TrimSurrounded(before: string, s: string, after: string)
    requires IsBlank(before) && IsBlank(after)
    ensures Trim(before + s + after) == Trim(s)
  {
    var r := Trim(s);
    var i := TrimShape(s);
    var x := before + s[..i];
    var y := s[i + |r|..] + after;
    BlankConcat(before, s[..i]);
    BlankConcat(s[i + |r|..], after);
    assert s == s[..i] + r + s[i + |r|..];
    Regroup(before, s[..i], r, s[i + |r|..], after);
    TrimUnique(x, r, y);
  }

  lemma Regroup(a: string, p: string, r: string, q: string, b: string)
    ensures a + (p + r + q) + b == (a + p) + r + (q + b)
  {
  }

  /** `(s ?? fallback).Trim()`. */
  function TrimOr(s: Option<string>, fallback: string): string {
    Trim(s.GetOr(fallback))
  }

  /** ASCII upper-casing of one character; every other character is its own upper case. */
  function ToUpperChar(c: char): char {
    if 'a' <= c <= 'z' then (c as int - 32) as char else c
  }

  function ToLowerChar(c: char): char {
    if 'A' <= c <= 'Z' then (c as int + 32) as char else c
  }

  function ToUpper(s: string): (r: string)
    ensures |r| == |s| && forall i :: 0 <= i < |s| ==> r[i] == ToUpperChar(s[i])
  {
    seq(|s|, i requires 0 <= i < |s| => ToUpperChar(s[i]))
  }

  /** `ToLowerInvariant()`, on ASCII letters. */
  function ToLower(s: string): (r: string)
    ensures |r| == |s| && forall i :: 0 <= i < |s| ==> r[i] == ToLowerChar(s[i])
  {
    seq(|s|, i requires 0 <= i < |s| => ToLowerChar(s[i]))
  }

  /** A string without upper-case ASCII letters is its own lower case. */
  lemma ToLowerNoUpper(s: string)
    requires forall i :: 0 <= i < |s| ==> !('A' <= s[i] <= 'Z')
    ensures ToLower(s) == s
  {
  }

  /** `t` occurs in `s` at position `i`. */
  predicate OccursAt(s: string, t: string, i: int) {
    0 <= i <= |s| - |t| && s[i..i + |t|] == t
  }

  /** Ordinal `s.Contains(t)`. */
  predicate Contains(s: string, t: string) {
    exists i | 0 <= i <= |s| - |t| :: OccursAt(s, t, i)
  }

  /** `s.Contains(t, StringComparison.OrdinalIgnoreCase)`. */
  predicate ContainsIgnoreCase(s: string, t: string) {
    Contains(ToUpper(s), ToUpper(t))
  }

  /** `string.Equals(a, b, StringComparison.OrdinalIgnoreCase)`. */
  predicate EqualsIgnoreCase(a: string, b: string) {
    ToUpper(a) == ToUpper(b)
  }

  /** Upper-casing one lower-case letter of a trimmed string gives a different trimmed string, equal to it ignoring case. */
  lemma UpperOneLetter(s: string, i: int)
    requires Trim(s) == s && 0 <= i < |s| && 'a' <= s[i] <= 'z'
    ensures var t := s[i := ToUpperChar(s[i])];
      Trim(t) == t && t != s && EqualsIgnoreCase(s, t)
  {
    var t := s[i := ToUpperChar(s[i])];
    LetterNotWhiteSpace(t[i]);
    assert !IsWhiteSpace(t[0]) && !IsWhiteSpace(t[|t| - 1]);
    TrimNoWhiteSpace(t);
    assert t[i] != s[i];
    UpperOfUpperOneLetter(s, i);
  }

  lemma LetterNotWhiteSpace(c: char)
    requires 'A' <= c <= 'Z'
    ensures !IsWhiteSpace(c)
  {
  }

  lemma UpperOfUpperOneLetter(s: string, i: int)
    requires 0 <= i < |s|
    ensures ToUpper(s) == ToUpper(s[i := ToUpperChar(s[i])])
  {
    var t := s[i := ToUpperChar(s[i])];
    assert forall k :: 0 <= k < |s| ==> ToUpper(t)[k] == ToUpper(s)[k];
  }

  /** Equal strings, ignoring case, have equal slices, ignoring case. */
  lemma EqualsIgnoreCaseSlice(a: string, b: string, i: int, j: int)
    requires EqualsIgnoreCase(a, b) && 0 <= i <= j <= |a|
    ensures EqualsIgnoreCase(a[i..j], b[i..j])
  {
    assert |a| == |ToUpper(a)| == |ToUpper(b)| == |b|;
    forall k | 0 <= k < j - i ensures ToUpper(a[i..j])[k] == ToUpper(b[i..j])[k] {
      assert ToUpper(a)[i + k] == ToUpper(b)[i + k];
    }
  }

  /** A string contains, ignoring case, every word it is built around that equals `t` ignoring case. */
  lemma ContainsIgnoreCaseIn(a: string, w: string, b: string, t: string)
    requires EqualsIgnoreCase(w, t)
    ensures ContainsIgnoreCase(a + w + b, t)
  {
    var u := ToUpper(a + w + b);
    assert u[|a|..|a| + |w|] == ToUpper(w);
    assert OccursAt(u, ToUpper(t), |a|);
  }

  /** A string none of whose characters matches `t[j]`, ignoring case, does not contain `t`, ignoring case. */
  lemma NotContainsIgnoreCaseWithout(s: string, t: string, j: int)
    requires 0 <= j < |t| && forall i :: 0 <= i < |s| ==> ToUpperChar(s[i]) != ToUpperChar(t[j])
    ensures !ContainsIgnoreCase(s, t)
  {
    var u := ToUpper(s);
    var v := ToUpper(t);
    forall i | 0 <= i <= |u| - |v| ensures !OccursAt(u, v, i) {
      assert u[i + j] != v[j];
    }
  }

  /** A string that contains `t` is at least as long as `t`. */
  lemma ContainsLength(s: string, t: string)
    requires Contains(s, t)
    ensures |t| <= |s|
  {
  }

  /** Every string contains its own prefixes. */
  lemma ContainsPrefix(s: string, t: string)
    requires t <= s
    ensures Contains(s, t)
  {
    assert OccursAt(s, t, 0);
  }

  /** A string contains whatever a part of it contains. */
  lemma ContainsInPart(a: string, b: string, c: string, t: string)
    requires Contains(b, t)
    ensures Contains(a + b + c, t)
  {
    var i :| 0 <= i <= |b| - |t| && OccursAt(b, t, i);
    assert (a + b + c)[|a| + i..|a| + i + |t|] == b[i..i + |t|];
    assert OccursAt(a + b + c, t, |a| + i);
  }

  /** `string.Join(sep, parts)`. */
  function Join(sep: string, parts: seq<string>): (r: string)
    ensures parts != [] ==> parts[0] <= r
    ensures |parts| > 1 ==> parts[0] + sep <= r
  {
    if |parts| == 0 then ""
    else if |parts| == 1 then parts[0]
    else parts[0] + sep + Join(sep, parts[1..])
  }

  /** `s.Split(sep)`: the pieces between the occurrences of `sep`, at least one. */
  function Split(sep: char, s: string): (r: seq<string>)
    ensures |r| >= 1
  {
    if s == [] then [""]
    else
      var rest := Split(sep, s[1..]);
      if s[0] == sep then [""] + rest else [[s[0]] + rest[0]] + rest[1..]
  }

  /** A piece without the separator splits into itself, and splitting stops at the separator after it. */
  lemma {:induction false} SplitPiece(sep: char, p: string, t: string)
    requires sep !in p
    ensures Split(sep, p) == [p]
    ensures Split(sep, p + [sep] + t) == [p] + Split(sep, t)
  {
    if p != [] {
      SplitPiece(sep, p[1..], t);
      assert (p + [sep] + t)[1..] == p[1..] + [sep] + t;
      assert [p[0]] + p[1..] == p;
    } else {
      assert p + [sep] + t == [sep] + t;
      assert ([sep] + t)[1..] == t;
    }
  }

  /** Joining with a one-character separator that no part contains is undone by splitting on it. */
  lemma {:induction false} SplitJoin(sep: char, parts: seq<string>)
    requires |parts| >= 1
    requires forall i :: 0 <= i < |parts| ==> sep !in parts[i]
    ensures Split(sep, Join([sep], parts)) == parts
  {
    if |parts| == 1 {
      SplitPiece(sep, parts[0], "");
    } else {
      SplitJoin(sep, parts[1..]);
      SplitPiece(sep, parts[0], Join([sep], parts[1..]));
      assert [parts[0]] + parts[1..] == parts;
    }
  }

  function DigitChar(d: nat): char
    requires d < 10
  {
    "0123456789"[d]
  }

  predicate IsDigit(c: char) {
    '0' <= c <= '9'
  }

  function DigitValue(c: char): nat
    requires IsDigit(c)
  {
    c as int - '0' as int
  }

  /** The decimal digits of `n`, most significant first, without leading zeros. */
  function NatDigits(n: nat): (r: string)
    ensures r != [] && forall i :: 0 <= i < |r| ==> IsDigit(r[i])
    ensures n > 0 ==> r[0] != '0'
  {
    if n < 10 then [DigitChar(n)] else NatDigits(n / 10) + [DigitChar(n % 10)]
  }

  /** `long.ToString()` / `int.ToString()` in the invariant culture. */
  function DecimalString(n: int): (r: string)
    ensures r != []
  {
    if n < 0 then "-" + NatDigits(-n) else NatDigits(n)
  }

  /** The value of a string of decimal digits. */
  function DigitsValue(s: string): nat
    requires forall i :: 0 <= i < |s| ==> IsDigit(s[i])
  {
    if s == [] then 0 else 10 * DigitsValue(s[..|s| - 1]) + DigitValue(s[|s| - 1])
  }

  lemma {:induction false} DigitsValueOfNatDigits(n: nat)
    ensures DigitsValue(NatDigits(n)) == n
  {
    if n >= 10 {
      var r := NatDigits(n);
      assert r[..|r| - 1] == NatDigits(n / 10);
      DigitsValueOfNatDigits(n / 10);
    }
  }

  const MinLong: int := -0x8000_0000_0000_0000
  const MaxLong: int := 0x7FFF_FFFF_FFFF_FFFF

  /** The white space `NumberStyles.Integer` lets surround a number. */
  predicate IsNumberWhite(c: char) {
    c == ' ' || ('\t' <= c <= '\r')
  }

  function StripNumberWhite(s: string): (r: string)
    ensures |r| <= |s|
    ensures r == [] || (!IsNumberWhite(r[0]) && !IsNumberWhite(r[|r| - 1]))
  {
    if s != [] && IsNumberWhite(s[0]) then StripNumberWhite(s[1..])
    else if s != [] && IsNumberWhite(s[|s| - 1]) then StripNumberWhite(s[..|s| - 1])
    else s
  }

  /**
   * `long.TryParse(s, out v)` with `NumberStyles.Integer`: optional
   * surrounding white space, an optional sign, one or more ASCII digits,
   * and a value within the 64-bit range.
   */
  function TryParseLong(s: string): (r: Option<int>)
    ensures r.Some? ==> MinLong <= r.value <= MaxLong
  {
    var t := StripNumberWhite(s);
    var negative := t != [] && t[0] == '-';
    var digits := if t != [] && (t[0] == '-' || t[0] == '+') then t[1..] else t;
    if digits == [] || exists i | 0 <= i < |digits| :: !IsDigit(digits[i]) then None
    else
      var v: int := if negative then -(DigitsValue(digits) as int) else DigitsValue(digits);
      if MinLong <= v <= MaxLong then Some(v) else None
  }

  /** A string with no surrounding number white space is left as it is. */
  lemma StripNothing(t: string)
    requires t != [] && !IsNumberWhite(t[0]) && !IsNumberWhite(t[|t| - 1])
    ensures StripNumberWhite(t) == t
  {
  }

  /** `TryParseLong` on an already stripped, optionally signed run of digits. */
  lemma ParseStripped(sign: string, digits: string)
    requires sign == "" || sign == "-"
    requires digits != [] && forall i :: 0 <= i < |digits| ==> IsDigit(digits[i])
    requires StripNumberWhite(sign + digits) == sign + digits
    ensures var v: int := if sign == "-" then -(DigitsValue(digits) as int) else DigitsValue(digits);
      TryParseLong(sign + digits) == if MinLong <= v <= MaxLong then Some(v) else None
  {
    var t := sign + digits;
    assert t != [] && (t[0] == '-' <==> sign == "-");
    assert (if t[0] == '-' || t[0] == '+' then t[1..] else t) == digits;
  }

  lemma ParseNatDigits(n: nat)
    requires n <= MaxLong
    ensures TryParseLong(NatDigits(n)) == Some(n)
  {
    DigitsValueOfNatDigits(n);
    var d := NatDigits(n);
    StripNothing(d);
    assert "" + d == d;
    ParseStripped("", d);
  }

  lemma ParseNegatedDigits(m: nat)
    requires 0 < m <= -MinLong
    ensures TryParseLong("-" + NatDigits(m)) == Some(-(m as int))
  {
    DigitsValueOfNatDigits(m);
    var d := NatDigits(m);
    StripNothing("-" + d);
    ParseStripped("-", d);
  }

  /** Parsing the decimal rendering of a 64-bit value gives the value back. */
  lemma ParseDecimalRoundTrip(n: int)
    requires MinLong <= n <= MaxLong
    ensures TryParseLong(DecimalString(n)) == Some(n)
  {
    if n < 0 { ParseNegatedDigits(-n); } else { ParseNatDigits(n); }
  }
}
