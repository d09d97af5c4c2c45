/**
 * The JavaScript string builtins the sources rely on: `trim`, ASCII `toLowerCase`,
 * number-to-decimal conversion of naturals, `includes`, `startsWith`, and models of
 * `parseFloat` and `parseInt(·, 10)` over exact decimals.
 */
module Text {
  import opened Wrappers

  /** The characters JavaScript's `trim` and the regex class `\s` treat as white space. */
  predicate IsWhitespace(c: char) {
    ('\t' <= c <= '\r') || c == ' ' || c == '\U{00A0}' || c == '\U{1680}'
    || ('\U{2000}' <= c <= '\U{200A}') || c == '\U{2028}' || c == '\U{2029}'
    || c == '\U{202F}' || c == '\U{205F}' || c == '\U{3000}' || c == '\U{FEFF}'
  }

  function TrimStart(s: string): (r: string)
    ensures |r| <= |s|
    ensures r == [] || !IsWhitespace(r[0])
  {
    if s == [] || !IsWhitespace(s[0]) then s else TrimStart(s[1..])
  }

  function TrimEnd(s: string): (r: string)
    ensures |r| <= |s|
    ensures r == [] || !IsWhitespace(r[|r| - 1])
  {
    if s == [] || !IsWhitespace(s[|s| - 1]) then s else TrimEnd(s[..|s| - 1])
  }

  lemma {:induction false} TrimStartIsSuffix(s: string)
    ensures TrimStart(s) == s[|s| - |TrimStart(s)|..]
  {
    if s != [] && IsWhitespace(s[0]) {
      TrimStartIsSuffix(s[1..]);
    }
  }

  lemma {:induction false} TrimEndIsPrefix(s: string)
    ensures TrimEnd(s) == s[..|TrimEnd(s)|]
  {
    if s != [] && IsWhitespace(s[|s| - 1]) {
      TrimEndIsPrefix(s[..|s| - 1]);
    }
  }

  /** `String.prototype.trim`. */
  function Trim(s: string): (r: string)
    ensures r == [] || (!IsWhitespace(r[0]) && !IsWhitespace(r[|r| - 1]))
    ensures |r| <= |s|
  {
    var u := TrimStart(s);
    TrimEndIsPrefix(u);
    TrimEnd(u)
  }

  /** Where `Trim(s)` starts inside `s`. */
  function TrimOffset(s: string): (k: nat)
    ensures k + |Trim(s)| <= |s|
  {
    |s| - |TrimStart(s)|
  }

  /** `trim` returns a contiguous slice of its input. */
  lemma {:induction false} TrimIsSlice(s: string)
    ensures Trim(s) == s[TrimOffset(s)..TrimOffset(s) + |Trim(s)|]
  {
    var u := TrimStart(s);
    TrimStartIsSuffix(s);
    TrimEndIsPrefix(u);
    assert Trim(s) == u[..|Trim(s)|];
  }

  /** Leading white space is only stripped from the first part when the second starts with a non-space. */
  lemma {:induction false} TrimStartAppend(a: string, b: string)
    requires b != [] && !IsWhitespace(b[0])
    ensures TrimStart(a + b) == TrimStart(a) + b
  {
    if a != [] {
      assert (a + b)[0] == a[0];
      if IsWhitespace(a[0]) {
        assert (a + b)[1..] == a[1..] + b;
        TrimStartAppend(a[1..], b);
      }
    } else {
      assert a + b == b;
    }
  }

  lemma {:induction false} TrimEndNoOp(s: string)
    requires s != [] && !IsWhitespace(s[|s| - 1])
    ensures TrimEnd(s) == s
  {
  }

  lemma {:induction false} TrimNoOp(s: string)
    requires s == [] || (!IsWhitespace(s[0]) && !IsWhitespace(s[|s| - 1]))
    ensures Trim(s) == s
  {
  }

  lemma {:induction false} TrimIdempotent(s: string)
    ensures Trim(Trim(s)) == Trim(s)
  {
    TrimNoOp(Trim(s));
  }

  function LowerChar(c: char): char {
    if 'A' <= c <= 'Z' then (c as int + 32) as char else c
  }

  /** `toLowerCase`, for the ASCII letters. */
  function Lower(s: string): (r: string)
    ensures |r| == |s|
  {
    if s == [] then [] else [LowerChar(s[0])] + Lower(s[1..])
  }

  lemma {:induction false} LowerAt(s: string, i: nat)
    requires i < |s|
    ensures Lower(s)[i] == LowerChar(s[i])
  {
    if i > 0 {
      LowerAt(s[1..], i - 1);
    }
  }

  lemma {:induction false} LowerAppend(a: string, b: string)
    ensures Lower(a + b) == Lower(a) + Lower(b)
  {
    if a != [] {
      assert (a + b)[1..] == a[1..] + b;
      LowerAppend(a[1..], b);
    } else {
      assert a + b == b;
    }
  }

  predicate IsDigit(c: char) {
    '0' <= c <= '9'
  }

  function DigitChar(d: nat): char
    requires d < 10
  {
    ('0' as int + d) as char
  }

  function DigitValue(c: char): nat {
    if IsDigit(c) then c as int - '0' as int else 0
  }

  /** The decimal numeral of a natural number, as template literals write it. */
  function NatToString(n: nat): (r: string)
    ensures |r| >= 1
    ensures forall i :: 0 <= i < |r| ==> IsDigit(r[i])
    ensures n >= 10 ==> |r| >= 2
  {
    if n < 10 then [DigitChar(n)] else NatToString(n / 10) + [DigitChar(n % 10)]
  }

  /** Distinct numbers have distinct numerals. */
  lemma {:induction false} NatToStringInjective(a: nat, b: nat)
    requires NatToString(a) == NatToString(b)
    ensures a == b
  {
    if a >= 10 && b >= 10 {
      var sa, sb := NatToString(a), NatToString(b);
      assert sa[..|sa| - 1] == NatToString(a / 10);
      assert sb[..|sb| - 1] == NatToString(b / 10);
      NatToStringInjective(a / 10, b / 10);
      assert DigitChar(a % 10) == sa[|sa| - 1];
    }
  }

  /** The value of a run of decimal digits read left to right. */
  function DigitsValue(s: string): nat {
    if s == [] then 0 else DigitsValue(s[..|s| - 1]) * 10 + DigitValue(s[|s| - 1])
  }

  lemma {:induction false} DigitsValueOfNatToString(n: nat)
    ensures DigitsValue(NatToString(n)) == n
  {
    if n >= 10 {
      var s := NatToString(n);
      assert s[..|s| - 1] == NatToString(n / 10);
      DigitsValueOfNatToString(n / 10);
    }
  }

  /** The number of leading decimal digits of `s`. */
  function DigitSpan(s: string): (n: nat)
    ensures n <= |s|
    ensures forall i :: 0 <= i < n ==> IsDigit(s[i])
    ensures n == |s| || !IsDigit(s[n])
  {
    if s == [] || !IsDigit(s[0]) then 0 else 1 + DigitSpan(s[1..])
  }

  lemma {:induction false} DigitSpanAll(s: string, rest: string)
    requires forall i :: 0 <= i < |s| ==> IsDigit(s[i])
    requires rest == [] || !IsDigit(rest[0])
    ensures DigitSpan(s + rest) == |s|
  {
    if s != [] {
      assert (s + rest)[1..] == s[1..] + rest;
      DigitSpanAll(s[1..], rest);
    }
  }

  predicate StartsWith(s: string, prefix: string) {
    |prefix| <= |s| && s[..|prefix|] == prefix
  }

  predicate EndsWith(s: string, suffix: string) {
    |suffix| <= |s| && s[|s| - |suffix|..] == suffix
  }

  /** `s.includes(sub)`. */
  predicate Contains(s: string, sub: string) {
    exists i :: 0 <= i <= |s| && StartsWith(s[i..], sub)
  }

  function Pow10(e: nat): (r: real)
    ensures r >= 1.0
  {
    if e == 0 then 1.0 else 10.0 * Pow10(e - 1)
  }

  /** Strips an optional `+` or `-`; says whether it was `-`. */
  function SplitSign(s: string): (bool, string) {
    if |s| > 0 && (s[0] == '+' || s[0] == '-') then (s[0] == '-', s[1..]) else (false, s)
  }

  /** The power of ten an exponent part `e[+-]?digits` at the head of `s` denotes (1 when there is none). */
  function ExponentScale(s: string): real {
    if |s| > 0 && (s[0] == 'e' || s[0] == 'E') then
      var (neg, digits) := SplitSign(s[1..]);
      var k := DigitSpan(digits);
      if k == 0 then 1.0
      else if neg then 1.0 / Pow10(DigitsValue(digits[..k]))
      else Pow10(DigitsValue(digits[..k]))
    else 1.0
  }

  /**
   * `Number.parseFloat`: leading white space is skipped, then the longest prefix that is a
   * decimal literal (sign, digits, fraction, exponent) is read. `None` stands for NaN and
   * for the infinities (the literal `Infinity`), i.e. for every result that is not finite.
   */
  function ParseFloat(s: string): Option<real> {
    var (neg, u) := SplitSign(TrimStart(s));
    var intLen := DigitSpan(u);
    var w := u[intLen..];
    var fracLen := if |w| > 0 && w[0] == '.' then DigitSpan(w[1..]) else 0;
    if intLen == 0 && fracLen == 0 then None
    else
      var mantissaEnd := if |w| > 0 && w[0] == '.' then intLen + 1 + fracLen else intLen;
      var frac := if fracLen == 0 then 0.0 else DigitsValue(w[1..1 + fracLen]) as real / Pow10(fracLen);
      var magnitude := (DigitsValue(u[..intLen]) as real + frac) * ExponentScale(u[mantissaEnd..]);
      Some(if neg then -magnitude else magnitude)
  }

  /** `Number.parseInt(s, 10)`: `None` stands for NaN. */
  function ParseInt(s: string): Option<int> {
    var (neg, u) := SplitSign(TrimStart(s));
    var k := DigitSpan(u);
    if k == 0 then None
    else Some(if neg then -(DigitsValue(u[..k]) as int) else DigitsValue(u[..k]) as int)
  }

  lemma {:induction false} ParseIntOfNatToString(n: nat)
    ensures ParseInt(NatToString(n)) == Some(n as int)
  {
    var s := NatToString(n);
    assert TrimStart(s) == s;
    assert SplitSign(s) == (false, s);
    DigitSpanAll(s, []);
    assert s + [] == s;
    assert s[..|s|] == s;
    DigitsValueOfNatToString(n);
  }

  /** `parseFloat` reads a plain numeral back as the number it names. */
  lemma {:induction false} ParseFloatOfNatToString(n: nat)
    ensures ParseFloat(NatToString(n)) == Some(n as real)
  {
    var s := NatToString(n);
    assert TrimStart(s) == s;
    assert SplitSign(s) == (false, s);
    DigitSpanAll(s, []);
    assert s + [] == s;
    assert s[..|s|] == s;
    DigitsValueOfNatToString(n);
  }
}
