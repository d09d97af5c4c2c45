/**
 * The time column of logger/app.js's importers: `parseTimeToSec`, and how it reads back the
 * texts the exporter's `formatSeconds` writes. The CSV reader, the row grammar and the sheet
 * readers are in the modules LoggerCsv, LoggerRows and LoggerSheets.
 */
module LoggerDecode {
  import opened Wrappers
  import opened Text
  import opened LoggerLabels
  import opened LoggerXlsx

  // ------------------------------------------------------------------ parseTimeToSec

  /** `parseTimeToSec(raw)`: a non-negative number of seconds, with or without a trailing `s`. */
  function ParseTimeToSec(raw: string): (r: Option<real>)
    ensures r.Some? ==> r.value >= 0.0
    ensures Trim(raw) == "" ==> r == None
  {
    var value := Lower(Trim(raw));
    if value == "" then None
    else
      var trimmed := if EndsWith(value, "s") then value[..|value| - 1] else value;
      match ParseFloat(trimmed)
      case None => None
      case Some(x) => if x < 0.0 then None else Some(x)
  }

  /** Text made of digits and dots only, starting with a digit. */
  predicate IsDecimalText(t: string) {
    t != [] && IsDigit(t[0]) && forall i :: 0 <= i < |t| ==> IsDigit(t[i]) || t[i] == '.'
  }

  lemma {:induction false} LowerNoOp(s: string)
    requires forall i :: 0 <= i < |s| ==> !('A' <= s[i] <= 'Z')
    ensures Lower(s) == s
  {
    forall i | 0 <= i < |s|
      ensures Lower(s)[i] == s[i]
    {
      LowerAt(s, i);
    }
  }

  /** A decimal followed by `s` reads back as the decimal. */
  lemma {:induction false} ParseTimeOfDecimal(t: string)
    requires IsDecimalText(t)
    requires ParseFloat(t).Some? && ParseFloat(t).value >= 0.0
    ensures ParseTimeToSec(t + "s") == ParseFloat(t)
  {
    DecimalWithUnit(t);
    ParseTimeOfUnit(t + "s", t);
  }

  /** A decimal followed by `s` needs neither trimming nor lower-casing. */
  lemma {:induction false} DecimalWithUnit(t: string)
    requires IsDecimalText(t)
    ensures Lower(Trim(t + "s")) == t + "s" && EndsWith(t + "s", "s") && (t + "s")[..|t + "s"| - 1] == t
  {
    var v := t + "s";
    assert v[0] == t[0] && v[|v| - 1] == 's';
    TrimNoOp(v);
    assert forall i :: 0 <= i < |v| ==> i < |t| ==> v[i] == t[i];
    LowerNoOp(v);
    assert v[..|v| - 1] == t;
  }

  /** `parseTimeToSec` of a text that is already trimmed and lower-case and ends in `s`. */
  lemma {:induction false} ParseTimeOfUnit(v: string, t: string)
    requires Lower(Trim(v)) == v && EndsWith(v, "s") && v != [] && v[..|v| - 1] == t
    requires ParseFloat(t).Some? && ParseFloat(t).value >= 0.0
    ensures ParseTimeToSec(v) == ParseFloat(t)
  {
  }

  /** `parseFloat` of `q.ds`: the numeral and the fraction its digits give. */
  lemma {:induction false} ParseFloatDecimal(q: nat, ds: string)
    requires ds != [] && forall i :: 0 <= i < |ds| ==> IsDigit(ds[i])
    ensures ParseFloat(NatToString(q) + "." + ds) == Some(q as real + DigitsValue(ds) as real / Pow10(|ds|))
  {
    var n := NatToString(q);
    var s := n + "." + ds;
    assert s[0] == n[0] && IsDigit(s[0]);
    assert TrimStart(s) == s;
    assert SplitSign(s) == (false, s);
    assert s == n + ("." + ds);
    DigitSpanAll(n, "." + ds);
    assert s[|n|..] == "." + ds;
    assert ("." + ds)[1..] == ds;
    DigitSpanAll(ds, []);
    assert ds + [] == ds;
    assert s[..|n|] == n;
    DigitsValueOfNatToString(q);
    var w := s[|n|..];
    assert DigitSpan(s) == |n| && DigitSpan(w[1..]) == |ds|;
    assert w[1..1 + |ds|] == ds;
    assert s[|n| + 1 + |ds|..] == [];
    assert ExponentScale([]) == 1.0;
    var frac := DigitsValue(ds) as real / Pow10(|ds|);
    assert ParseFloat(s) == Some((DigitsValue(n) as real + frac) * 1.0);
  }

  /** The seconds the corrected `formatSeconds` text stands for. */
  function Seconds(ms: nat): real {
    if ms % 1000 == 0 then (ms / 1000) as real else Hundredths(ms) as real / 100.0
  }

  /** The written seconds are within half a hundredth of the exact ones. */
  lemma {:induction false} SecondsClose(ms: nat)
    ensures ms as real / 1000.0 - 0.005 < Seconds(ms) <= ms as real / 1000.0 + 0.005
  {
    var h := Hundredths(ms);
    assert 10 * h <= ms + 5 < 10 * h + 10;
    if ms % 1000 == 0 {
      assert ms == 1000 * (ms / 1000);
    }
  }

  lemma {:induction false} DigitCharIsDigit(d: nat)
    requires d < 10
    ensures IsDigit(DigitChar(d)) && DigitValue(DigitChar(d)) == d
  {
  }

  lemma {:induction false} NatToStringDecimal(n: nat)
    ensures IsDecimalText(NatToString(n))
  {
  }

  lemma {:induction false} DigitsValueTwo(x: char, y: char)
    ensures DigitsValue([x, y]) == DigitValue(x) * 10 + DigitValue(y)
  {
    assert [x, y][..1] == [x];
    assert DigitsValue([x]) == DigitValue(x) by {
      assert [x][..0] == [];
    }
  }

  lemma {:induction false} DigitsValueOne(x: char)
    ensures DigitsValue([x]) == DigitValue(x)
  {
    assert [x][..0] == [];
  }

  /** Appending digits and dots to a decimal text keeps it one. */
  lemma {:induction false} DecimalAppend(a: string, b: string)
    requires IsDecimalText(a)
    requires forall i :: 0 <= i < |b| ==> IsDigit(b[i]) || b[i] == '.'
    ensures IsDecimalText(a + b)
  {
    assert forall i :: |a| <= i < |a + b| ==> (a + b)[i] == b[i - |a|];
  }

  lemma {:induction false} HundredthsDigits(h: nat)
    ensures h % 100 / 10 < 10 && h % 10 < 10
    ensures h == 100 * (h / 100) + 10 * (h % 100 / 10) + h % 10
  {
    var r := h % 100;
    assert h == 100 * (h / 100) + r;
    assert r == 10 * (r / 10) + r % 10;
    assert h == 10 * (10 * (h / 100) + r / 10) + r % 10;
    assert h % 10 == r % 10;
  }

  /** The two-decimal form with its zeros stripped reads back as the hundredths it shows. */
  lemma {:induction false} ParseStrippedFixed(h: nat)
    ensures IsDecimalText(StripZeros(FixedTwo(h)))
    ensures ParseFloat(StripZeros(FixedTwo(h))) == Some(h as real / 100.0)
  {
    if h % 10 != 0 {
      StrippedFixedTwoDigits(h);
    } else if h % 100 / 10 != 0 {
      StrippedFixedOneDigit(h);
    } else {
      StrippedFixedNoDigits(h);
    }
  }

  lemma {:induction false} StrippedFixedTwoDigits(h: nat)
    requires h % 10 != 0
    ensures IsDecimalText(StripZeros(FixedTwo(h)))
    ensures ParseFloat(StripZeros(FixedTwo(h))) == Some(h as real / 100.0)
  {
    var q, a, b := h / 100, h % 100 / 10, h % 10;
    HundredthsDigits(h);
    assert FixedTwo(h) == NatToString(q) + "." + [DigitChar(a), DigitChar(b)];
    assert (100 * q + 10 * a + b) as real / 100.0 == h as real / 100.0;
    StrippedTwoDigits(q, a, b);
  }

  lemma {:induction false} StrippedFixedOneDigit(h: nat)
    requires h % 10 == 0 && h % 100 / 10 != 0
    ensures IsDecimalText(StripZeros(FixedTwo(h)))
    ensures ParseFloat(StripZeros(FixedTwo(h))) == Some(h as real / 100.0)
  {
    var q, a := h / 100, h % 100 / 10;
    FixedTwoOneDigit(h, q, a);
    var x := (100 * q + 10 * a) as real / 100.0;
    StrippedOneDigitAt(q, a, FixedTwo(h), x);
  }

  lemma {:induction false} StrippedOneDigitAt(q: nat, a: nat, s: string, x: real)
    requires 0 < a < 10 && s == NatToString(q) + "." + [DigitChar(a), '0']
    requires x == (100 * q + 10 * a) as real / 100.0
    ensures IsDecimalText(StripZeros(s)) && ParseFloat(StripZeros(s)) == Some(x)
  {
    StrippedOneDigit(q, a);
  }

  /** The two-decimal form of hundredths ending in one zero: the numeral, a dot, a digit and `0`. */
  lemma {:induction false} FixedTwoOneDigit(h: nat, q: nat, a: nat)
    requires h % 10 == 0 && q == h / 100 && a == h % 100 / 10
    ensures a < 10
    ensures FixedTwo(h) == NatToString(q) + "." + [DigitChar(a), '0']
    ensures (100 * q + 10 * a) as real / 100.0 == h as real / 100.0
  {
    HundredthsDigits(h);
    assert DigitChar(0) == '0';
  }

  lemma {:induction false} StrippedFixedNoDigits(h: nat)
    requires h % 10 == 0 && h % 100 / 10 == 0
    ensures IsDecimalText(StripZeros(FixedTwo(h)))
    ensures ParseFloat(StripZeros(FixedTwo(h))) == Some(h as real / 100.0)
  {
    var q := h / 100;
    HundredthsDigits(h);
    assert DigitChar(0) == '0';
    assert FixedTwo(h) == NatToString(q) + "." + ['0', '0'];
    assert (100 * q) as real / 100.0 == h as real / 100.0;
    StrippedNoDigits(q);
  }

  lemma {:induction false} StrippedTwoDigits(q: nat, a: nat, b: nat)
    requires a < 10 && 0 < b < 10
    ensures var s := NatToString(q) + "." + [DigitChar(a), DigitChar(b)];
            StripZeros(s) == s && IsDecimalText(s) &&
            ParseFloat(s) == Some((100 * q + 10 * a + b) as real / 100.0)
  {
    var s := NatToString(q) + "." + [DigitChar(a), DigitChar(b)];
    DigitCharIsDigit(b);
    assert s[|s| - 1] == DigitChar(b) != '0';
    ParseTwoDigits(q, a, b);
  }

  lemma {:induction false} ParseTwoDigits(q: nat, a: nat, b: nat)
    requires a < 10 && b < 10
    ensures var s := NatToString(q) + "." + [DigitChar(a), DigitChar(b)];
            IsDecimalText(s) && ParseFloat(s) == Some((100 * q + 10 * a + b) as real / 100.0)
  {
    var ca, cb := DigitChar(a), DigitChar(b);
    DigitCharIsDigit(a);
    DigitCharIsDigit(b);
    DecimalWithDigits(q, [ca, cb]);
    ParseFloatDecimal(q, [ca, cb]);
    DigitsValueTwo(ca, cb);
    assert Pow10(2) == 100.0;
  }

  /** A numeral, a dot and digits form a decimal text. */
  lemma {:induction false} DecimalWithDigits(q: nat, ds: string)
    requires forall i :: 0 <= i < |ds| ==> IsDigit(ds[i])
    ensures IsDecimalText(NatToString(q) + "." + ds)
  {
    NatToStringDecimal(q);
    DecimalAppend(NatToString(q), "." + ds);
    assert NatToString(q) + "." + ds == NatToString(q) + ("." + ds);
  }

  lemma {:induction false} StrippedOneDigit(q: nat, a: nat)
    requires 0 < a < 10
    ensures var s := NatToString(q) + "." + [DigitChar(a), '0'];
            var t := NatToString(q) + "." + [DigitChar(a)];
            StripZeros(s) == t && IsDecimalText(t) &&
            ParseFloat(t) == Some((100 * q + 10 * a) as real / 100.0)
  {
    DigitCharIsDigit(a);
    StripOneZero(NatToString(q), DigitChar(a));
    ParseOneDigit(q, a);
  }

  /** Only the last zero goes when the digit before it is not a zero. */
  lemma {:induction false} StripOneZero(n: string, ca: char)
    requires ca != '0' && ca != '.'
    ensures StripZeros(n + "." + [ca, '0']) == n + "." + [ca]
  {
    var s := n + "." + [ca, '0'];
    var t := n + "." + [ca];
    assert s[..|s| - 1] == t && t[|t| - 1] == ca;
    assert TrailingZeros(s) == 1;
    assert s[|s| - 2] == ca;
  }

  lemma {:induction false} ParseOneDigit(q: nat, a: nat)
    requires a < 10
    ensures var t := NatToString(q) + "." + [DigitChar(a)];
            IsDecimalText(t) && ParseFloat(t) == Some((100 * q + 10 * a) as real / 100.0)
  {
    var ca := DigitChar(a);
    DigitCharIsDigit(a);
    DecimalWithDigits(q, [ca]);
    ParseFloatDecimal(q, [ca]);
    DigitsValueOne(ca);
    assert Pow10(1) == 10.0;
  }

  lemma {:induction false} StrippedNoDigits(q: nat)
    ensures var s := NatToString(q) + "." + ['0', '0'];
            StripZeros(s) == NatToString(q) && IsDecimalText(NatToString(q)) &&
            ParseFloat(NatToString(q)) == Some((100 * q) as real / 100.0)
  {
    StripDotZeros(NatToString(q));
    NatToStringDecimal(q);
    ParseFloatOfNatToString(q);
  }

  /** Both zeros and the dot go when nothing but zeros follows the dot. */
  lemma {:induction false} StripDotZeros(n: string)
    ensures StripZeros(n + "." + ['0', '0']) == n
  {
    var s := n + "." + ['0', '0'];
    assert s[..|s| - 1] == n + ".0" && s[..|s| - 2] == n + ".";
    assert (n + ".")[|n|] == '.';
    assert TrailingZeros(n + ".") == 0;
    assert TrailingZeros(n + ".0") == 1;
    assert TrailingZeros(s) == 2;
    assert s[|s| - 3] == '.';
    assert s[..|s| - 3] == n;
  }

  /** `parseTimeToSec` reads the corrected `formatSeconds` text back as its seconds. */
  lemma {:induction false} FormatSecondsReadBack(ms: nat)
    ensures ParseTimeToSec(FormatSeconds(ms)) == Some(Seconds(ms))
  {
    if ms % 1000 == 0 {
      WholeSecondsReadBack(ms);
    } else {
      FractionalSecondsReadBack(ms);
    }
  }

  lemma {:induction false} WholeSecondsReadBack(ms: nat)
    requires ms % 1000 == 0
    ensures ParseTimeToSec(FormatSeconds(ms)) == Some(Seconds(ms))
  {
    var n := NatToString(ms / 1000);
    if ms == 0 {
      NatToStringSmall(0);
      assert DigitChar(0) == '0';
    }
    assert FormatSeconds(ms) == n + "s";
    NatToStringDecimal(ms / 1000);
    ParseFloatOfNatToString(ms / 1000);
    ParseTimeOfDecimal(n);
  }

  lemma {:induction false} FractionalSecondsReadBack(ms: nat)
    requires ms % 1000 != 0
    ensures ParseTimeToSec(FormatSeconds(ms)) == Some(Seconds(ms))
  {
    FractionalSecondsText(ms);
    FractionalTextReadBack(ms, FormatSeconds(ms));
  }

  lemma {:induction false} FractionalTextReadBack(ms: nat, text: string)
    requires ms % 1000 != 0 && text == StripZeros(FixedTwo(Hundredths(ms))) + "s"
    ensures ParseTimeToSec(text) == Some(Seconds(ms))
  {
    var h := Hundredths(ms);
    FractionalSeconds(ms);
    ParseTimeStripped(h, StripZeros(FixedTwo(h)), text);
  }

  lemma {:induction false} FractionalSeconds(ms: nat)
    requires ms % 1000 != 0
    ensures Seconds(ms) == Hundredths(ms) as real / 100.0
  {
  }

  lemma {:induction false} FractionalSecondsText(ms: nat)
    requires ms % 1000 != 0
    ensures FormatSeconds(ms) == StripZeros(FixedTwo(Hundredths(ms))) + "s"
  {
    ParseStrippedFixed(Hundredths(ms));
  }

  lemma {:induction false} ParseTimeStripped(h: nat, t: string, text: string)
    requires t == StripZeros(FixedTwo(h)) && text == t + "s"
    ensures ParseTimeToSec(text) == Some(h as real / 100.0)
  {
    ParseStrippedFixed(h);
    ParseTimeOfDecimal(t);
  }

  /**
   * The seconds the written `formatSeconds` text stands for: a positive whole number of seconds
   * loses the zeros at the end of its numeral, every other time is as `Seconds` gives it.
   */
  function ShownSeconds(ms: nat): real {
    if ms > 0 && ms % 1000 == 0 then DropTens(ms / 1000) as real else Seconds(ms)
  }

  /** `parseTimeToSec` reads the written `formatSeconds` text back as the seconds it shows. */
  lemma {:induction false} FormatSecondsAsWrittenReadBackAll(ms: nat)
    ensures ParseTimeToSec(FormatSecondsAsWritten(ms)) == Some(ShownSeconds(ms))
  {
    if ms > 0 && ms % 1000 == 0 {
      FormatWholeSecondsAsWritten(ms);
      var m := DropTens(ms / 1000);
      NatToStringDecimal(m);
      ParseFloatOfNatToString(m);
      ParseTimeOfDecimal(NatToString(m));
    } else {
      FormatFractionalSeconds(ms);
      FormatSecondsReadBack(ms);
    }
  }

  /** A positive whole multiple of ten seconds: the times whose numeral ends in zeros. */
  predicate WholeTens(ms: nat) {
    ms > 0 && ms % 1000 == 0 && ms / 1000 % 10 == 0
  }

  /** The shown seconds are the exact ones except on the positive whole multiples of ten seconds. */
  lemma {:induction false} ShownSecondsExact(ms: nat)
    ensures ShownSeconds(ms) == Seconds(ms) <==> !WholeTens(ms)
  {
    if ms > 0 && ms % 1000 == 0 {
      var n := ms / 1000;
      if n % 10 == 0 {
        assert DropTens(n) == DropTens(n / 10) <= n / 10 < n;
      }
    }
  }

  /** `formatSeconds` as written loses the zeros of whole tens of seconds: 10 s reads back as 1 s. */
  lemma {:induction false} FormatSecondsAsWrittenReadBack()
    ensures ParseTimeToSec(FormatSecondsAsWritten(10000)) == Some(1.0)
    ensures ParseTimeToSec(FormatSeconds(10000)) == Some(10.0)
  {
    FormatSecondsTenSeconds();
    NatToStringSmall(1);
    assert DigitChar(1) == '1';
    NatToStringDecimal(1);
    ParseFloatOfNatToString(1);
    assert FormatSecondsAsWritten(10000) == NatToString(1) + "s";
    ParseTimeOfDecimal(NatToString(1));
    FormatSecondsReadBack(10000);
  }
}
