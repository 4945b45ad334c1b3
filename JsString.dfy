/**
 * The string operations the components use: `toLowerCase`, `includes`,
 * the regular-expression class `\s`, `parseInt(text, 10)`, the decimal
 * rendering of a number in a template literal, and `split(':')` as used by
 * a two-element destructuring.
 */
module JsString {
  import opened Wrappers

  /** `toLowerCase` of one character; only the ASCII letters A-Z are mapped. */
  function LowerChar(c: char): (r: char)
    ensures !('A' <= r <= 'Z')
    ensures 'A' <= c <= 'Z' ==> r as int == c as int + 32
    ensures !('A' <= c <= 'Z') ==> r == c
  {
    if 'A' <= c <= 'Z' then (c as int + 32) as char else c
  }

  /** `s.toLowerCase()` (ASCII case mapping). */
  function ToLower(s: string): (r: string)
    ensures |r| == |s|
    ensures forall i :: 0 <= i < |s| ==> r[i] == LowerChar(s[i])
    decreases |s|
  {
    if s == [] then [] else [LowerChar(s[0])] + ToLower(s[1..])
  }

  /** Lower-casing twice is lower-casing once. */
  lemma ToLowerIdempotent(s: string)
    ensures ToLower(ToLower(s)) == ToLower(s)
  {
    var l := ToLower(s);
    assert forall i :: 0 <= i < |l| ==> ToLower(l)[i] == l[i];
  }

  /** `s.includes(q)`: `q` occurs in `s` at some position. */
  function Includes(s: string, q: string): (b: bool)
    ensures b <==> exists i :: 0 <= i <= |s| && q <= s[i..]
    decreases |s|
  {
    if q <= s then
      assert q <= s[0..];
      true
    else if s == [] then
      false
    else
      var b := Includes(s[1..], q);
      assert forall i :: 1 <= i <= |s| ==> s[i..] == s[1..][i - 1..];
      if b then
        var i :| 0 <= i <= |s[1..]| && q <= s[1..][i..];
        assert q <= s[i + 1..];
        b
      else
        b
  }

  /** The search used by every filter: case-insensitive `includes`. */
  predicate MatchesIgnoringCase(field: string, query: string) {
    Includes(ToLower(field), ToLower(query))
  }

  /** The empty query occurs in every field. */
  lemma EmptyQueryMatches(field: string)
    ensures MatchesIgnoringCase(field, "")
  {
    assert ToLower("") == "";
  }

  /** A field matches every query it contains, whatever the case of either. */
  lemma {:induction false} FieldMatchesItself(field: string, upper: string)
    requires ToLower(upper) == ToLower(field)
    ensures MatchesIgnoringCase(field, upper)
  {
    var l := ToLower(field);
    assert l <= l[0..];
  }

  /**
   * A member of the class `\s` of JavaScript regular expressions: the
   * white-space and line-terminator characters of ECMAScript.
   */
  predicate IsJsSpace(c: char) {
    c == '\t' || c == '\n' || c == '\U{B}' || c == '\U{C}' || c == '\r' || c == ' '
    || c == '\U{A0}' || c == '\U{1680}' || ('\U{2000}' <= c <= '\U{200A}')
    || c == '\U{2028}' || c == '\U{2029}' || c == '\U{202F}' || c == '\U{205F}'
    || c == '\U{3000}' || c == '\U{FEFF}'
  }

  predicate IsDigit(c: char) { '0' <= c <= '9' }

  function DigitValue(c: char): (d: nat)
    requires IsDigit(c)
    ensures d < 10
  {
    c as int - '0' as int
  }

  function DigitChar(d: nat): (c: char)
    requires d < 10
    ensures IsDigit(c) && DigitValue(c) == d
  {
    ('0' as int + d) as char
  }

  /** The longest prefix of `s` made of decimal digits. */
  function DigitPrefix(s: string): (r: string)
    ensures r <= s
    ensures forall i :: 0 <= i < |r| ==> IsDigit(r[i])
    ensures |r| < |s| ==> !IsDigit(s[|r|])
    decreases |s|
  {
    if s == [] || !IsDigit(s[0]) then [] else [s[0]] + DigitPrefix(s[1..])
  }

  /** The value of a string of decimal digits, most significant first. */
  function DigitsValue(ds: string): nat
    requires forall i :: 0 <= i < |ds| ==> IsDigit(ds[i])
    decreases |ds|
  {
    if ds == [] then 0 else DigitsValue(ds[..|ds| - 1]) * 10 + DigitValue(ds[|ds| - 1])
  }

  /** `s` with its leading white space removed, as `parseInt` does. */
  function TrimStart(s: string): (r: string)
    ensures |r| <= |s| && r == s[|s| - |r|..]
    ensures r != [] ==> !IsJsSpace(r[0])
    ensures forall i :: 0 <= i < |s| - |r| ==> IsJsSpace(s[i])
    decreases |s|
  {
    if s != [] && IsJsSpace(s[0]) then TrimStart(s[1..]) else s
  }

  /**
   * `parseInt(s, 10)`: leading white space, an optional sign, then as many
   * decimal digits as follow. `None` stands for `NaN` (no digit at all).
   */
  function ParseInt(s: string): Option<int>
  {
    var t := TrimStart(s);
    var ds := DigitPrefix(Unsigned(t));
    if ds == [] then None
    else if t[0] == '-' then Some(-(DigitsValue(ds) as int))
    else Some(DigitsValue(ds))
  }

  /** Text after an optional leading sign. */
  function Unsigned(t: string): (r: string)
    ensures t != [] && (t[0] == '-' || t[0] == '+') ==> r == t[1..]
    ensures !(t != [] && (t[0] == '-' || t[0] == '+')) ==> r == t
  {
    if t != [] && (t[0] == '-' || t[0] == '+') then t[1..] else t
  }

  /** The decimal text of a natural number, as a template literal renders it. */
  function NatText(n: nat): (r: string)
    ensures r != []
    ensures forall i :: 0 <= i < |r| ==> IsDigit(r[i])
    decreases n
  {
    if n < 10 then [DigitChar(n)] else NatText(n / 10) + [DigitChar(n % 10)]
  }

  /** The decimal text of an integer (`${n}`). */
  function IntText(n: int): (r: string)
    ensures r != []
    ensures r[0] == '-' <==> n < 0
    ensures n >= 0 ==> r == NatText(n)
  {
    if n < 0 then "-" + NatText(-n) else NatText(n)
  }

  /** Reading back the digits of a number gives the number. */
  lemma {:induction false} NatTextValue(n: nat)
    ensures DigitsValue(NatText(n)) == n
    decreases n
  {
    if n >= 10 {
      NatTextValue(n / 10);
      var t := NatText(n);
      assert t[..|t| - 1] == NatText(n / 10);
      assert t[|t| - 1] == DigitChar(n % 10);
    }
  }

  /** `parseInt` inverts the rendering of an integer to text. */
  lemma ParseIntText(n: int)
    ensures ParseInt(IntText(n)) == Some(n)
  {
    var m: nat := if n < 0 then -n else n;
    var digits := NatText(m);
    var t := IntText(n);
    assert Unsigned(t) == digits by {
      if n < 0 {
        assert t == "-" + digits;
      } else {
        assert IsDigit(digits[0]);
      }
    }
    assert TrimStart(t) == t by {
      assert n >= 0 ==> IsDigit(t[0]);
      assert !IsJsSpace(t[0]);
    }
    assert DigitPrefix(digits) == digits by {
      DigitPrefixOfDigits(digits);
    }
    assert DigitsValue(digits) == m by {
      NatTextValue(m);
    }
    assert t[0] == '-' <==> n < 0;
  }

  /** A string of digits is its own digit prefix. */
  lemma {:induction false} DigitPrefixOfDigits(ds: string)
    requires forall i :: 0 <= i < |ds| ==> IsDigit(ds[i])
    ensures DigitPrefix(ds) == ds
    decreases |ds|
  {
    if ds != [] {
      assert IsDigit(ds[0]);
      DigitPrefixOfDigits(ds[1..]);
    }
  }

  /** The text before the first `sep` (the whole text when there is none). */
  function UpTo(s: string, sep: char): (r: string)
    ensures r <= s
    ensures sep !in r
    ensures |r| < |s| ==> s[|r|] == sep
    ensures sep !in s ==> r == s
    decreases |s|
  {
    if s == [] || s[0] == sep then [] else [s[0]] + UpTo(s[1..], sep)
  }

  /** Text free of `sep` is read up to the `sep` that follows it. */
  lemma {:induction false} UpToOf(a: string, sep: char, b: string)
    requires sep !in a
    ensures UpTo(a + [sep] + b, sep) == a
    decreases |a|
  {
    if a != [] {
      assert (a + [sep] + b)[0] == a[0];
      assert (a + [sep] + b)[1..] == a[1..] + [sep] + b;
      UpToOf(a[1..], sep, b);
    }
  }

  /**
   * The two names bound by `const [first, second] = s.split(':')`:
   * `second` is `None` (undefined) when `s` holds no colon.
   */
  function SplitColonPair(s: string): (r: (string, Option<string>))
    ensures r.0 == UpTo(s, ':')
    ensures r.1.None? <==> ':' !in s
    ensures r.1.Some? ==> |r.0| < |s| && r.1.value == UpTo(s[|r.0| + 1..], ':')
    ensures r.0 + (if r.1.Some? then ":" + r.1.value else "") <= s
    ensures r.1.Some? ==> ':' !in r.1.value
  {
    var first := UpTo(s, ':');
    if |first| == |s| then
      assert first == s;
      (first, None)
    else
      var rest := s[|first| + 1..];
      var second := UpTo(rest, ':');
      assert s == first + ":" + rest;
      (first, Some(second))
  }
}
