/**
 * The XLSX exporter of logger/app.js: the text helpers (`escapeXml`, `formatSeconds`,
 * `safeSheetName`), the worksheet (`buildSheetXml`), the Open Packaging Conventions parts
 * (ECMA-376 Part 2) and `buildXlsx`. That last one packs them with `buildZip`.
 *
 * A worksheet is described by the cell records a reader of its XML sees: each cell carries its
 * reference, its `t` attribute and its text. `RenderSheet` writes those records as the XML
 * the exporter emits.
 */
module LoggerXlsx {
  import opened Wrappers
  import opened Seqs
  import opened Text
  import opened Bytes
  import opened LoggerLabels
  import opened LoggerStore
  import opened LoggerColumns
  import opened LoggerTable
  import LoggerZip
  import LoggerCrc

  // ------------------------------------------------------------------ escapeXml

  /** The replacement `escapeXml` makes for one character. */
  function EscapeChar(c: char): string {
    if c == '&' then "&amp;"
    else if c == '<' then "&lt;"
    else if c == '>' then "&gt;"
    else if c == '"' then "&quot;"
    else if c == '\'' then "&apos;"
    else [c]
  }

  predicate IsMarkupFree(s: string) {
    forall i :: 0 <= i < |s| ==> s[i] != '<' && s[i] != '>' && s[i] != '"' && s[i] != '\''
  }

  /** The text `escapeXml` returns, character by character. */
  function EscapeXml(s: string): (r: string)
    ensures IsMarkupFree(r)
    ensures |r| >= |s|
    decreases |s|
  {
    if s == [] then "" else EscapeChar(s[0]) + EscapeXml(s[1..])
  }

  /** `s.replace(/c/g, rep)`. */
  function ReplaceAll(s: string, c: char, rep: string): string
    decreases |s|
  {
    if s == [] then "" else (if s[0] == c then rep else [s[0]]) + ReplaceAll(s[1..], c, rep)
  }

  lemma {:induction false} ReplaceAllAppend(a: string, b: string, c: char, rep: string)
    ensures ReplaceAll(a + b, c, rep) == ReplaceAll(a, c, rep) + ReplaceAll(b, c, rep)
    decreases |a|
  {
    if a != [] {
      var ab := a + b;
      assert ab[0] == a[0] && ab[1..] == a[1..] + b;
      assert ReplaceAll(ab, c, rep) == (if a[0] == c then rep else [a[0]]) + ReplaceAll(a[1..] + b, c, rep);
      ReplaceAllAppend(a[1..], b, c, rep);
    } else {
      assert a + b == b;
    }
  }

  lemma {:induction false} ReplaceAllAbsent(s: string, c: char, rep: string)
    requires c !in s
    ensures ReplaceAll(s, c, rep) == s
    decreases |s|
  {
    if s != [] {
      assert s[0] != c && c !in s[1..];
      ReplaceAllAbsent(s[1..], c, rep);
    }
  }

  lemma {:induction false} ReplaceAllOne(c: char, d: char, rep: string)
    ensures ReplaceAll([c], d, rep) == if c == d then rep else [c]
  {
    assert [c][1..] == [];
  }

  /** The five chained `.replace` calls of `escapeXml`, in their order. */
  function ReplaceChain(s: string): string {
    ReplaceAll(ReplaceAll(ReplaceAll(ReplaceAll(ReplaceAll(s, '&', "&amp;"), '<', "&lt;"), '>', "&gt;"), '"', "&quot;"), '\'', "&apos;")
  }

  lemma {:induction false} ReplaceChainAppend(a: string, b: string)
    ensures ReplaceChain(a + b) == ReplaceChain(a) + ReplaceChain(b)
  {
    var a1, b1 := ReplaceAll(a, '&', "&amp;"), ReplaceAll(b, '&', "&amp;");
    ReplaceAllAppend(a, b, '&', "&amp;");
    var a2, b2 := ReplaceAll(a1, '<', "&lt;"), ReplaceAll(b1, '<', "&lt;");
    ReplaceAllAppend(a1, b1, '<', "&lt;");
    var a3, b3 := ReplaceAll(a2, '>', "&gt;"), ReplaceAll(b2, '>', "&gt;");
    ReplaceAllAppend(a2, b2, '>', "&gt;");
    var a4, b4 := ReplaceAll(a3, '"', "&quot;"), ReplaceAll(b3, '"', "&quot;");
    ReplaceAllAppend(a3, b3, '"', "&quot;");
    ReplaceAllAppend(a4, b4, '\'', "&apos;");
  }

  /** Each step of the chain leaves a replacement made by an earlier step alone. */
  lemma {:induction false} ReplaceChainChar(c: char)
    ensures ReplaceChain([c]) == EscapeChar(c)
  {
    ReplaceAllOne(c, '&', "&amp;");
    if c == '&' {
      ChainRest("&amp;", true, true, true, true);
    } else {
      ReplaceAllOne(c, '<', "&lt;");
      if c == '<' {
        ChainRest("&lt;", false, true, true, true);
      } else {
        ReplaceAllOne(c, '>', "&gt;");
        if c == '>' {
          ChainRest("&gt;", false, false, true, true);
        } else {
          ReplaceAllOne(c, '"', "&quot;");
          if c == '"' {
            ChainRest("&quot;", false, false, false, true);
          } else {
            ReplaceAllOne(c, '\'', "&apos;");
          }
        }
      }
    }
  }

  /** The steps after the one that produced `e` change nothing, as `e` has none of their characters. */
  lemma {:induction false} ChainRest(e: string, lt: bool, gt: bool, quot: bool, apos: bool)
    requires forall i :: 0 <= i < |e| ==> e[i] != '<' && e[i] != '>' && e[i] != '"' && e[i] != '\''
    ensures lt ==> ReplaceAll(e, '<', "&lt;") == e
    ensures gt ==> ReplaceAll(e, '>', "&gt;") == e
    ensures quot ==> ReplaceAll(e, '"', "&quot;") == e
    ensures apos ==> ReplaceAll(e, '\'', "&apos;") == e
  {
    ReplaceAllAbsent(e, '<', "&lt;");
    ReplaceAllAbsent(e, '>', "&gt;");
    ReplaceAllAbsent(e, '"', "&quot;");
    ReplaceAllAbsent(e, '\'', "&apos;");
  }

  /**
   * Replacing `&` first is what makes the chain correct: no later replacement introduces a
   * character an earlier one handled, so the chain is the one-pass substitution.
   */
  lemma {:induction false} EscapeXmlIsReplaceChain(s: string)
    ensures EscapeXml(s) == ReplaceChain(s)
    decreases |s|
  {
    if s != [] {
      assert s == [s[0]] + s[1..];
      ReplaceChainAppend([s[0]], s[1..]);
      EscapeXmlIsReplaceChain(s[1..]);
      ReplaceChainChar(s[0]);
    }
  }

  /** How an XML reader turns character data back into text: the five predefined entities (section 4.6 of XML 1.0). */
  function Unescape(s: string): string
    decreases |s|
  {
    if s == [] then ""
    else if StartsWith(s, "&amp;") then "&" + Unescape(s[5..])
    else if StartsWith(s, "&lt;") then "<" + Unescape(s[4..])
    else if StartsWith(s, "&gt;") then ">" + Unescape(s[4..])
    else if StartsWith(s, "&quot;") then "\"" + Unescape(s[6..])
    else if StartsWith(s, "&apos;") then "'" + Unescape(s[6..])
    else [s[0]] + Unescape(s[1..])
  }

  lemma {:induction false} UnescapeChar(c: char, t: string)
    ensures Unescape(EscapeChar(c) + t) == [c] + Unescape(t)
  {
    var p := EscapeChar(c);
    var e := p + t;
    PrefixOf(p, t);
    if c == '&' {
    } else if c == '<' {
      DiffersAt(e, "&amp;", 1);
    } else if c == '>' {
      DiffersAt(e, "&amp;", 1);
      DiffersAt(e, "&lt;", 1);
    } else if c == '"' {
      DiffersAt(e, "&amp;", 1);
      DiffersAt(e, "&lt;", 1);
      DiffersAt(e, "&gt;", 1);
    } else if c == '\'' {
      DiffersAt(e, "&amp;", 2);
      DiffersAt(e, "&lt;", 1);
      DiffersAt(e, "&gt;", 1);
      DiffersAt(e, "&quot;", 1);
    } else {
      DiffersAt(e, "&amp;", 0);
      DiffersAt(e, "&lt;", 0);
      DiffersAt(e, "&gt;", 0);
      DiffersAt(e, "&quot;", 0);
      DiffersAt(e, "&apos;", 0);
    }
  }

  lemma {:induction false} PrefixOf(p: string, t: string)
    ensures StartsWith(p + t, p) && (p + t)[|p|..] == t
    ensures forall i :: 0 <= i < |p| ==> (p + t)[i] == p[i]
  {
    assert (p + t)[..|p|] == p;
  }

  lemma {:induction false} DiffersAt(e: string, p: string, i: nat)
    requires i < |p| && (i < |e| ==> e[i] != p[i])
    ensures !StartsWith(e, p)
  {
  }

  /** A reader recovers exactly the text `escapeXml` was given. */
  lemma {:induction false} UnescapeEscapeXml(s: string)
    ensures Unescape(EscapeXml(s)) == s
    decreases |s|
  {
    if s != [] {
      UnescapeChar(s[0], EscapeXml(s[1..]));
      UnescapeEscapeXml(s[1..]);
    }
  }

  // ------------------------------------------------------------------ formatSeconds

  /** The whole hundredths `n.toFixed(2)` shows for `n = ms / 1000`, rounding halves up. */
  function Hundredths(ms: nat): nat {
    (ms + 5) / 10
  }

  /** `toFixed(2)` of `h / 100`: the integer part, a dot and exactly two digits. */
  function FixedTwo(h: nat): (r: string)
    ensures |r| >= 4 && r[|r| - 3] == '.'
  {
    NatToString(h / 100) + "." + [DigitChar(h % 100 / 10), DigitChar(h % 10)]
  }

  /** `sec % 1 === 0 ? sec.toFixed(0) : sec.toFixed(2)` for `sec = ms / 1000`. */
  function ToFixed(ms: nat): string {
    if ms % 1000 == 0 then NatToString(ms / 1000) else FixedTwo(Hundredths(ms))
  }

  function TrailingZeros(s: string): (z: nat)
    ensures z <= |s|
    ensures forall i :: |s| - z <= i < |s| ==> s[i] == '0'
    ensures z < |s| ==> s[|s| - z - 1] != '0'
    decreases |s|
  {
    if s == [] || s[|s| - 1] != '0' then 0 else 1 + TrailingZeros(s[..|s| - 1])
  }

  /**
   * `s.replace(/\.?0+$/, '')`: the leftmost match of an optional dot and a run of zeros
   * reaching the end is the whole trailing run of zeros, together with the dot before it
   * when there is one.
   */
  function StripZeros(s: string): (r: string)
    ensures |r| <= |s| && r == s[..|r|]
    ensures |r| == |s| <==> (s == [] || s[|s| - 1] != '0')
    ensures forall i :: |r| < i < |s| ==> s[i] == '0'
    ensures |r| < |s| ==> s[|r|] == '0' || s[|r|] == '.'
    ensures |r| > 0 && r[|r| - 1] == '0' ==> |r| < |s| && s[|r|] == '.'
  {
    var z := TrailingZeros(s);
    if z == 0 then s
    else if z < |s| && s[|s| - z - 1] == '.' then s[..|s| - z - 1]
    else s[..|s| - z]
  }

  /** `formatSeconds(ms / 1000)` as logger/app.js:521-527 writes it. */
  function FormatSecondsAsWritten(ms: nat): string {
    if ms == 0 then "0s"
    else
      var trimmed := StripZeros(ToFixed(ms));
      (if trimmed == "" then "0" else trimmed) + "s"
  }

  /**
   * `formatSeconds(ms / 1000)` with the zero stripping applied to the two-decimal form only,
   * so that whole seconds keep their zeros (10 s is "10s").
   */
  function FormatSeconds(ms: nat): (r: string)
    ensures |r| >= 2 && r[|r| - 1] == 's'
  {
    if ms == 0 then "0s"
    else
      var trimmed := if ms % 1000 == 0 then NatToString(ms / 1000) else StripZeros(FixedTwo(Hundredths(ms)));
      (if trimmed == "" then "0" else trimmed) + "s"
  }

  lemma {:induction false} NatToStringLast(n: nat)
    ensures NatToString(n)[|NatToString(n)| - 1] == DigitChar(n % 10)
  {
  }

  lemma {:induction false} NatToStringSmall(d: nat)
    requires d < 10
    ensures NatToString(d) == [DigitChar(d)]
  {
  }

  /** The written helper writes 10 s as "1s"; the corrected one writes "10s". */
  lemma {:induction false} FormatSecondsTenSeconds()
    ensures FormatSecondsAsWritten(10000) == "1s"
    ensures FormatSeconds(10000) == "10s"
  {
    var s := NatToString(10);
    NatToStringSmall(1);
    assert DigitChar(1) == '1' && DigitChar(0) == '0';
    assert s == ['1', '0'];
    assert s[..1] == ['1'];
    assert TrailingZeros(s) == 1;
    assert StripZeros(s) == "1";
    FormatWholeSeconds(10000);
  }

  /** For whole seconds the written helper strips the zeros of the integer numeral too. */
  lemma {:induction false} FormatWholeSeconds(ms: nat)
    requires ms > 0 && ms % 1000 == 0
    ensures FormatSecondsAsWritten(ms) == (if StripZeros(NatToString(ms / 1000)) == "" then "0" else StripZeros(NatToString(ms / 1000))) + "s"
    ensures FormatSeconds(ms) == NatToString(ms / 1000) + "s"
  {
    assert ToFixed(ms) == NatToString(ms / 1000);
  }

  /** A whole number without the zeros at the end of its numeral (0 stays 0). */
  function DropTens(n: nat): (r: nat)
    ensures r <= n && (n > 0 ==> r > 0 && r % 10 != 0)
  {
    if n > 0 && n % 10 == 0 then DropTens(n / 10) else n
  }

  /** On a numeral the zero stripping is the cut before the trailing zeros: there is no dot. */
  lemma {:induction false} StripZerosOfDigits(s: string)
    requires forall i :: 0 <= i < |s| ==> IsDigit(s[i])
    ensures StripZeros(s) == s[..|s| - TrailingZeros(s)]
  {
    var z := TrailingZeros(s);
    if z > 0 && z < |s| {
      assert IsDigit(s[|s| - z - 1]);
    }
  }

  /** Stripping the zeros of a positive numeral gives the numeral of the number without them. */
  lemma {:induction false} StripZerosOfNatToString(n: nat)
    requires n > 0
    ensures StripZeros(NatToString(n)) == NatToString(DropTens(n))
    decreases n
  {
    var s := NatToString(n);
    NatToStringLast(n);
    StripZerosOfDigits(s);
    if n % 10 == 0 {
      var t := NatToString(n / 10);
      assert s == t + ['0'] && s[..|s| - 1] == t;
      assert TrailingZeros(s) == 1 + TrailingZeros(t);
      StripZerosOfDigits(t);
      assert s[..|s| - TrailingZeros(s)] == t[..|t| - TrailingZeros(t)];
      StripZerosOfNatToString(n / 10);
    } else {
      assert s[|s| - 1] != '0';
    }
  }

  /** So the written helper shows a positive whole number of seconds without its zeros: 120 s as "12s". */
  lemma {:induction false} FormatWholeSecondsAsWritten(ms: nat)
    requires ms > 0 && ms % 1000 == 0
    ensures FormatSecondsAsWritten(ms) == NatToString(DropTens(ms / 1000)) + "s"
  {
    FormatWholeSeconds(ms);
    StripZerosOfNatToString(ms / 1000);
  }

  /** Off whole seconds the written and the corrected helper are the same. */
  lemma {:induction false} FormatFractionalSeconds(ms: nat)
    requires ms == 0 || ms % 1000 != 0
    ensures FormatSecondsAsWritten(ms) == FormatSeconds(ms)
  {
    if ms != 0 {
      assert ToFixed(ms) == FixedTwo(Hundredths(ms));
    }
  }

  /** The two agree on every time except the whole multiples of ten seconds. */
  lemma {:induction false} FormatSecondsAsWrittenDiffers(ms: nat)
    ensures FormatSecondsAsWritten(ms) != FormatSeconds(ms) <==> (ms > 0 && ms % 1000 == 0 && ms / 1000 % 10 == 0)
  {
    if ms > 0 && ms % 1000 == 0 {
      var n := ms / 1000;
      var s := NatToString(n);
      NatToStringLast(n);
      FormatWholeSeconds(ms);
      var t := StripZeros(s);
      if n % 10 == 0 {
        assert DigitChar(0) == '0';
        assert |t| < |s|;
        assert |(if t == "" then "0" else t) + "s"| < |s + "s"|;
      } else {
        assert DigitChar(n % 10) != '0';
        assert t == s;
      }
    } else {
      FormatFractionalSeconds(ms);
    }
  }

  // ------------------------------------------------------------------ safeSheetName

  /** The characters a sheet name may not contain. */
  predicate IsSheetForbidden(c: char) {
    c == '[' || c == ']' || c == '*' || c == '/' || c == '\\' || c == ':' || c == '?'
  }

  /** `s.replace(/[\[\]\*\/\\\:\?]/g, '_')`. */
  function ReplaceForbidden(s: string): (r: string)
    ensures |r| == |s|
    ensures forall i :: 0 <= i < |s| ==> r[i] == if IsSheetForbidden(s[i]) then '_' else s[i]
  {
    seq(|s|, i requires 0 <= i < |s| => if IsSheetForbidden(s[i]) then '_' else s[i])
  }

  function SheetFallback(index: nat): string {
    "Group " + NatToString(index + 1)
  }

  /** `safeSheetName(name, index)`. */
  function SafeSheetName(name: string, index: nat): (r: string)
    ensures 1 <= |r| <= 31
    ensures forall i :: 0 <= i < |r| ==> !IsSheetForbidden(r[i])
  {
    var fallback := SheetFallback(index);
    var base := if SanitizeText(name) != "" then SanitizeText(name) else fallback;
    var replaced := ReplaceForbidden(base);
    // `base` is never empty, so neither is `trimmed`: the source's `trimmed || fallback` always
    // takes `trimmed`.
    if |replaced| <= 31 then replaced else replaced[..31]
  }

  /**
   * A clean name that is already a valid sheet name is kept as it is; a name that sanitises
   * to nothing gives `Group n` for the sheet's one-based position; a longer one is cut at 31.
   */
  lemma {:induction false} SafeSheetNameCases(name: string, index: nat)
    ensures var s := SanitizeText(name);
            s != "" && |s| <= 31 && (forall i :: 0 <= i < |s| ==> !IsSheetForbidden(s[i])) ==> SafeSheetName(name, index) == s
    ensures SanitizeText(name) == "" && |SheetFallback(index)| <= 31 ==> SafeSheetName(name, index) == SheetFallback(index)
    ensures |SanitizeText(name)| > 31 ==> SafeSheetName(name, index) == ReplaceForbidden(SanitizeText(name))[..31]
  {
    var s := SanitizeText(name);
    if s != "" && |s| <= 31 && (forall i :: 0 <= i < |s| ==> !IsSheetForbidden(s[i])) {
      assert ReplaceForbidden(s) == s;
    }
    var f := SheetFallback(index);
    if s == "" && |f| <= 31 {
      forall i | 0 <= i < |f|
        ensures !IsSheetForbidden(f[i])
      {
        if i >= 6 {
          assert f[i] == NatToString(index + 1)[i - 6];
        }
      }
      assert ReplaceForbidden(f) == f;
    }
  }

  // ------------------------------------------------------------------ buildSheetXml

  /** `parts.join('')`. */
  function Concat(parts: seq<string>): string
    decreases |parts|
  {
    if parts == [] then "" else Concat(parts[..|parts| - 1]) + parts[|parts| - 1]
  }

  lemma {:induction false} ConcatSnoc(parts: seq<string>, p: string)
    ensures Concat(parts + [p]) == Concat(parts) + p
  {
    assert (parts + [p])[..|parts|] == parts;
  }

  /** A `<c>` element as a reader sees it: its `r` attribute, its `t` attribute ("" when absent) and its text. */
  datatype CellRecord = CellRecord(ref: string, kind: string, text: string)

  /** A `<row>` element: its `r` attribute and its cells in document order. */
  datatype RowRecord = RowRecord(r: string, cells: seq<CellRecord>)

  /** The A1 reference of a cell: column letters, then the one-based row number. */
  function CellRef(row: nat, col: nat): string {
    ColumnLabel(col) + NatToString(row)
  }

  /** `buildInlineCell(rowIndex, colIndex, text)`. */
  function InlineCell(row: nat, col: nat, text: string): CellRecord {
    CellRecord(CellRef(row, col), "inlineStr", text)
  }

  /** `buildNumberCell(rowIndex, colIndex, value)`, given the number's text. */
  function NumberCell(row: nat, col: nat, text: string): CellRecord {
    CellRecord(CellRef(row, col), "", text)
  }

  /** The XML of a cell: an inline string is escaped inside `<is><t>`, a number sits in `<v>`. */
  function RenderCell(c: CellRecord): string {
    if c.kind == "inlineStr" then
      "<c r=\"" + c.ref + "\" t=\"inlineStr\"><is><t>" + EscapeXml(c.text) + "</t></is></c>"
    else
      "<c r=\"" + c.ref + "\"><v>" + c.text + "</v></c>"
  }

  function RenderCells(cs: seq<CellRecord>): seq<string> {
    seq(|cs|, k requires 0 <= k < |cs| => RenderCell(cs[k]))
  }

  function EmptyRow(r: string): string {
    "<row r=\"" + r + "\"/>"
  }

  function RowOpen(r: string): string {
    "<row r=\"" + r + "\">"
  }

  const RowClose: string := "</row>"

  /** The XML of a row; a row without cells is written as an empty element. */
  function RenderRow(row: RowRecord): string {
    if row.cells == [] then EmptyRow(row.r)
    else RowOpen(row.r) + Concat(RenderCells(row.cells)) + RowClose
  }

  function RenderRows(rows: seq<RowRecord>): seq<string> {
    seq(|rows|, k requires 0 <= k < |rows| => RenderRow(rows[k]))
  }

  const XmlDecl: string := "<?xml version=\"1.0\" encoding=\"UTF-8\" standalone=\"yes\"?>"
  const SpreadsheetNs: string := "http://schemas.openxmlformats.org/spreadsheetml/2006/main"

  const SheetOpen: string := XmlDecl + "<worksheet xmlns=\"" + SpreadsheetNs + "\">" + "<sheetData>"
  const SheetClose: string := "</sheetData>" + "</worksheet>"

  /** The worksheet part holding `rows` in its `<sheetData>`. */
  function RenderSheet(rows: seq<RowRecord>): string {
    SheetOpen + Concat(RenderRows(rows)) + SheetClose
  }

  /** Row 2: `time`, then one column per series label, all inline strings. */
  function HeaderRow(labels: seq<string>): RowRecord {
    var names := ["time"] + labels;
    RowRecord("2", seq(|names|, j requires 0 <= j < |names| => InlineCell(2, j, names[j])))
  }

  /**
   * The number cells of row `rowIndex`: one for each value present, value `j` in column `j + 1`;
   * `show` is the text JavaScript gives a number.
   */
  function ValueCells(rowIndex: nat, values: seq<Option<real>>, show: real -> string): seq<CellRecord>
    decreases |values|
  {
    if values == [] then []
    else
      var n := |values| - 1;
      ValueCells(rowIndex, values[..n], show) +
      (if values[n].Some? then [NumberCell(rowIndex, n + 1, show(values[n].value))] else [])
  }

  /** The cells of a data row: its time in seconds as `formatSeconds` writes it, then its values. */
  function DataCells(rowIndex: nat, row: Row, show: real -> string): seq<CellRecord> {
    [InlineCell(rowIndex, 0, FormatSecondsAsWritten(row.offset))] + ValueCells(rowIndex, row.values, show)
  }

  function DataRow(rowIndex: nat, row: Row, show: real -> string): RowRecord {
    RowRecord(NatToString(rowIndex), DataCells(rowIndex, row, show))
  }

  /** Every row of the sheet of `table`: an empty row 1, the header in row 2, data from row 3. */
  function SheetRows(table: Table, show: real -> string): (r: seq<RowRecord>)
    ensures |r| == |table.rows| + 2
  {
    [RowRecord("1", []), HeaderRow(table.labels)] +
    seq(|table.rows|, i requires 0 <= i < |table.rows| => DataRow(i + 3, table.rows[i], show))
  }

  lemma {:induction false} ValueCellsSnoc(pre: seq<CellRecord>, rowIndex: nat, vs: seq<Option<real>>, v: Option<real>, show: real -> string)
    ensures pre + ValueCells(rowIndex, vs + [v], show) ==
            pre + ValueCells(rowIndex, vs, show) + (if v.Some? then [NumberCell(rowIndex, |vs| + 1, show(v.value))] else [])
  {
    assert (vs + [v])[..|vs|] == vs;
  }

  /** One step of the `row.values.forEach` loop: a present value adds its cell, a missing one nothing. */
  lemma {:induction false} DataCellsStep(pre: seq<CellRecord>, rowIndex: nat, vs: seq<Option<real>>, j: nat,
                                         show: real -> string, done: seq<CellRecord>)
    requires j < |vs| && done == pre + ValueCells(rowIndex, vs[..j], show)
    ensures vs[j].None? ==> done == pre + ValueCells(rowIndex, vs[..j + 1], show)
    ensures vs[j].Some? ==>
              var c := NumberCell(rowIndex, j + 1, show(vs[j].value));
              done + [c] == pre + ValueCells(rowIndex, vs[..j + 1], show)
              && RenderCells(done + [c]) == RenderCells(done) + [RenderCell(c)]
  {
    var front := vs[..j];
    assert vs[..j + 1] == front + [vs[j]];
    ValueCellsSnoc(pre, rowIndex, front, vs[j], show);
    if vs[j].Some? {
      RenderCellsSnoc(done, NumberCell(rowIndex, j + 1, show(vs[j].value)));
    } else {
      AppendEmpty(done);
    }
  }

  lemma {:induction false} RenderCellsSnoc(cs: seq<CellRecord>, c: CellRecord)
    ensures RenderCells(cs + [c]) == RenderCells(cs) + [RenderCell(c)]
  {
  }

  lemma {:induction false} RenderRowsSnoc(rs: seq<RowRecord>, r: RowRecord)
    ensures RenderRows(rs + [r]) == RenderRows(rs) + [RenderRow(r)]
  {
  }

  /** The cells of one data row, rendered: the `row.values.forEach` loop. */
  method BuildDataCells(rowIndex: nat, row: Row, show: real -> string) returns (cells: seq<string>)
    ensures cells == RenderCells(DataCells(rowIndex, row, show))
  {
    var first := InlineCell(rowIndex, 0, FormatSecondsAsWritten(row.offset));
    cells := PushValueCells([RenderCell(first)], [first], rowIndex, row.values, show);
  }

  /** The `row.values.forEach` loop: a cell pushed for every present value, after the cells `pre` renders to. */
  method PushValueCells(cells0: seq<string>, ghost pre: seq<CellRecord>, rowIndex: nat, vs: seq<Option<real>>, show: real -> string)
    returns (cells: seq<string>)
    requires cells0 == RenderCells(pre)
    ensures cells == RenderCells(pre + ValueCells(rowIndex, vs, show))
  {
    cells := cells0;
    ghost var done := pre;
    assert vs[..0] == [];
    var j := 0;
    while j < |vs|
      invariant j <= |vs|
      invariant done == pre + ValueCells(rowIndex, vs[..j], show)
      invariant cells == RenderCells(done)
    {
      DataCellsStep(pre, rowIndex, vs, j, show, done);
      if vs[j].Some? {
        var c := NumberCell(rowIndex, j + 1, show(vs[j].value));
        cells := cells + [RenderCell(c)];
        done := done + [c];
      }
      j := j + 1;
    }
    assert vs[..j] == vs;
  }

  /** Rows 1 and 2 of the sheet, rendered. */
  lemma {:induction false} SheetStart(table: Table, show: real -> string, rows: seq<string>)
    requires rows == [EmptyRow("1"), RowOpen("2") + Concat(RenderCells(HeaderRow(table.labels).cells)) + RowClose]
    ensures rows == RenderRows(SheetRows(table, show)[..2])
  {
    var all := SheetRows(table, show);
    var header := HeaderRow(table.labels);
    assert all[0] == RowRecord("1", []) && all[1] == header && header.cells != [];
    var pre := all[..2];
    assert |pre| == 2 && pre[0] == all[0] && pre[1] == all[1];
    var rendered := RenderRows(pre);
    assert rendered[0] == rows[0] && rendered[1] == rows[1];
  }

  /** Data row `i` of the table renders as the next row of the sheet. */
  lemma {:induction false} SheetStep(table: Table, show: real -> string, i: nat, rows: seq<string>, cells: seq<string>)
    requires i < |table.rows|
    requires rows == RenderRows(SheetRows(table, show)[..i + 2])
    requires cells == RenderCells(DataCells(i + 3, table.rows[i], show))
    ensures rows + [RowOpen(NatToString(i + 3)) + Concat(cells) + RowClose] == RenderRows(SheetRows(table, show)[..i + 3])
  {
    var all := SheetRows(table, show);
    var r := all[i + 2];
    assert r == DataRow(i + 3, table.rows[i], show);
    assert r.cells != [];
    assert RenderRow(r) == RowOpen(NatToString(i + 3)) + Concat(cells) + RowClose;
    assert all[..i + 3] == all[..i + 2] + [r];
    RenderRowsSnoc(all[..i + 2], r);
  }

  /** `buildSheetXml(table)`: the rows pushed one at a time, then joined into the worksheet. */
  method BuildSheetXml(table: Table, show: real -> string) returns (xml: string)
    ensures xml == RenderSheet(SheetRows(table, show))
  {
    var header := HeaderRow(table.labels);
    var start: seq<string> := [EmptyRow("1"), RowOpen("2") + Concat(RenderCells(header.cells)) + RowClose];
    SheetStart(table, show, start);
    var rows := PushDataRows(start, SheetRows(table, show), table, show);
    xml := SheetOpen + Concat(rows) + SheetClose;
  }

  /** The `table.rows.forEach` loop of `buildSheetXml`: one rendered row pushed per data row. */
  method PushDataRows(start: seq<string>, ghost all: seq<RowRecord>, table: Table, show: real -> string)
    returns (rows: seq<string>)
    requires all == SheetRows(table, show) && start == RenderRows(all[..2])
    ensures rows == RenderRows(all)
  {
    rows := start;
    var rowIndex := 3;
    var i := 0;
    while i < |table.rows|
      invariant i <= |table.rows| && rowIndex == i + 3
      invariant rows == RenderRows(all[..i + 2])
    {
      var cells := BuildDataCells(rowIndex, table.rows[i], show);
      SheetStep(table, show, i, rows, cells);
      rows := rows + [RowOpen(NatToString(rowIndex)) + Concat(cells) + RowClose];
      rowIndex := rowIndex + 1;
      i := i + 1;
    }
    assert all[..i + 2] == all;
  }

  // ------------------------------------------------------------------ package parts

  const OfficeRelNs: string := "http://schemas.openxmlformats.org/officeDocument/2006/relationships"
  const PackageRelNs: string := "http://schemas.openxmlformats.org/package/2006/relationships"

  /** The relationship id `rId<n>`. */
  function RelId(n: nat): string {
    "rId" + NatToString(n)
  }

  /** The `<sheet>` element of the sheet at `index` (zero-based) in the workbook. */
  function SheetElement(name: string, index: nat): string {
    "<sheet name=\"" + EscapeXml(name) + "\" sheetId=\"" + NatToString(index + 1) +
    "\" r:id=\"" + RelId(index + 1) + "\"/>"
  }

  function SheetElements(names: seq<string>): seq<string> {
    seq(|names|, i requires 0 <= i < |names| => SheetElement(names[i], i))
  }

  const WorkbookHead: string :=
    XmlDecl + "<workbook xmlns=\"" + SpreadsheetNs + "\" " + "xmlns:r=\"" + OfficeRelNs + "\">" + "<sheets>"
  const WorkbookTail: string := "</sheets>" + "</workbook>"

  /** `buildWorkbookXml(sheetNames)`. */
  function WorkbookXml(names: seq<string>): string {
    WorkbookHead + Concat(SheetElements(names)) + WorkbookTail
  }

  /** The target, relative to `xl/`, of the sheet at `index`. */
  function SheetTarget(index: nat): string {
    SheetFilePrefix + NatToString(index + 1) + ".xml"
  }

  const SheetFilePrefix: string := "worksheets/sheet"

  /** A `<Relationship>` of type `kind` among the office-document relationship types. */
  function Relationship(id: string, kind: string, target: string): string {
    "<Relationship Id=\"" + id + "\" " + "Type=\"" + OfficeRelNs + "/" + kind + "\" " + "Target=\"" + target + "\"/>"
  }

  function SheetRelationship(index: nat): string {
    Relationship(RelId(index + 1), "worksheet", SheetTarget(index))
  }

  function StylesRelationship(count: nat): string {
    Relationship(RelId(count + 1), "styles", "styles.xml")
  }

  const RelsHead: string := XmlDecl + "<Relationships xmlns=\"" + PackageRelNs + "\">"
  const RelsTail: string := "</Relationships>"

  /** A relationships part holding `rels`. */
  function RelsXml(rels: seq<string>): string {
    RelsHead + Concat(rels) + RelsTail
  }

  /** `buildWorkbookRelsXml(sheetCount)`: one worksheet relationship per sheet, then the styles. */
  function WorkbookRels(count: nat): seq<string> {
    seq(count, i requires 0 <= i < count => SheetRelationship(i)) + [StylesRelationship(count)]
  }

  method BuildWorkbookRelsXml(count: nat) returns (xml: string)
    ensures xml == RelsXml(WorkbookRels(count))
  {
    var rels: seq<string> := [];
    for i := 0 to count
      invariant rels == seq(i, k requires 0 <= k < i => SheetRelationship(k))
    {
      rels := rels + [Relationship(RelId(i + 1), "worksheet", SheetTarget(i))];
    }
    rels := rels + [Relationship(RelId(count + 1), "styles", "styles.xml")];
    xml := RelsXml(rels);
  }

  /** `buildRootRelsXml()`: the package's one relationship, to the workbook. */
  const RootRelsXml: string := RelsXml([Relationship(RelId(1), "officeDocument", "xl/workbook.xml")])

  const SheetContentType: string := "application/vnd.openxmlformats-officedocument.spreadsheetml.worksheet+xml"

  /** The content-type override of the sheet at `index`, naming `/` and its ZIP name. */
  function SheetOverride(index: nat): string {
    "<Override PartName=\"/" + SheetPartName(index) + "\" " + "ContentType=\"" + SheetContentType + "\"/>"
  }

  const ContentTypesHead: string :=
    XmlDecl +
    "<Types xmlns=\"http://schemas.openxmlformats.org/package/2006/content-types\">" +
    "<Default Extension=\"rels\" ContentType=\"application/vnd.openxmlformats-package.relationships+xml\"/>" +
    "<Default Extension=\"xml\" ContentType=\"application/xml\"/>" +
    "<Override PartName=\"/xl/workbook.xml\" " +
    "ContentType=\"application/vnd.openxmlformats-officedocument.spreadsheetml.sheet.main+xml\"/>" +
    "<Override PartName=\"/xl/styles.xml\" " +
    "ContentType=\"application/vnd.openxmlformats-officedocument.spreadsheetml.styles+xml\"/>"

  function SheetOverrides(count: nat): seq<string> {
    seq(count, i requires 0 <= i < count => SheetOverride(i))
  }

  /** The `[Content_Types].xml` part for `count` sheets. */
  function ContentTypesXml(count: nat): string {
    ContentTypesHead + Concat(SheetOverrides(count)) + "</Types>"
  }

  /** `buildContentTypesXml(sheetCount)`. */
  method BuildContentTypesXml(count: nat) returns (xml: string)
    ensures xml == ContentTypesXml(count)
  {
    var overrides: seq<string> := [];
    for i := 0 to count
      invariant overrides == SheetOverrides(i)
    {
      overrides := overrides + [SheetOverride(i)];
    }
    xml := ContentTypesHead + Concat(overrides) + "</Types>";
  }

  /** `buildStylesXml()`: one font, fill, border and cell format, the `Normal` style. */
  const StylesXml: string :=
    XmlDecl +
    "<styleSheet xmlns=\"" + SpreadsheetNs + "\">" +
    "<fonts count=\"1\"><font><sz val=\"11\"/><color theme=\"1\"/><name val=\"Calibri\"/><family val=\"2\"/></font></fonts>" +
    "<fills count=\"1\"><fill><patternFill patternType=\"none\"/></fill></fills>" +
    "<borders count=\"1\"><border><left/><right/><top/><bottom/><diagonal/></border></borders>" +
    "<cellStyleXfs count=\"1\"><xf numFmtId=\"0\" fontId=\"0\" fillId=\"0\" borderId=\"0\"/></cellStyleXfs>" +
    "<cellXfs count=\"1\"><xf numFmtId=\"0\" fontId=\"0\" fillId=\"0\" borderId=\"0\" xfId=\"0\"/></cellXfs>" +
    "<cellStyles count=\"1\"><cellStyle name=\"Normal\" xfId=\"0\" builtinId=\"0\"/></cellStyles>" +
    "</styleSheet>"

  /** The ZIP name of the sheet at `index`. */
  function SheetPartName(index: nat): string {
    "xl/" + SheetTarget(index)
  }

  /** Where `parseXlsx` looks for a sheet whose relationship targets `target`. */
  function SheetPath(target: string): string {
    if StartsWith(target, "/") then target[1..] else "xl/" + target
  }

  lemma {:induction false} ConcatAppend(a: seq<string>, b: seq<string>)
    ensures Concat(a + b) == Concat(a) + Concat(b)
    decreases |b|
  {
    if b == [] {
      assert a + b == a;
    } else {
      var init := b[..|b| - 1];
      ConcatAppend(a, init);
      assert (a + b)[..|a + b| - 1] == a + init;
    }
  }

  /** Each joined part occurs in the text it is joined into. */
  lemma {:induction false} ConcatContains(head: string, parts: seq<string>, tail: string, i: nat)
    requires i < |parts|
    ensures Contains(head + Concat(parts) + tail, parts[i])
  {
    assert parts == parts[..i] + [parts[i]] + parts[i + 1..];
    ConcatAppend(parts[..i] + [parts[i]], parts[i + 1..]);
    ConcatSnoc(parts[..i], parts[i]);
    var pre := head + Concat(parts[..i]);
    var s := head + Concat(parts) + tail;
    assert s == pre + parts[i] + (Concat(parts[i + 1..]) + tail);
    assert StartsWith(s[|pre|..], parts[i]);
  }

  /** Relationship ids are one-to-one. */
  lemma {:induction false} RelIdInjective(a: nat, b: nat)
    requires RelId(a) == RelId(b)
    ensures a == b
  {
    assert NatToString(a) == RelId(a)[3..];
    assert NatToString(b) == RelId(b)[3..];
    NatToStringInjective(a, b);
  }

  /** `parseXlsx` finds each sheet under the ZIP name the exporter gives it. */
  lemma {:induction false} SheetPathOfTarget(i: nat)
    ensures SheetPath(SheetTarget(i)) == SheetPartName(i)
  {
    assert SheetTarget(i)[0] == 'w';
  }

  /**
   * For every sheet, the workbook, its relationships, the content types and the ZIP name agree:
   * the workbook's `<sheet>` refers to `rId<i+1>`, that id's relationship targets
   * `worksheets/sheet<i+1>.xml`, which `parseXlsx` resolves to the part the exporter writes,
   * and the content types register that part as a worksheet. The styles relationship takes an
   * id no sheet uses.
   */
  lemma {:induction false} PackagePartsAgree(names: seq<string>, i: nat)
    requires i < |names|
    ensures Contains(WorkbookXml(names), SheetElement(names[i], i))
    ensures Contains(RelsXml(WorkbookRels(|names|)), Relationship(RelId(i + 1), "worksheet", SheetTarget(i)))
    ensures SheetPath(SheetTarget(i)) == SheetPartName(i)
    ensures Contains(ContentTypesXml(|names|), SheetOverride(i))
    ensures RelId(i + 1) != RelId(|names| + 1)
  {
    ConcatContains(WorkbookHead, SheetElements(names), WorkbookTail, i);
    ConcatContains(RelsHead, WorkbookRels(|names|), RelsTail, i);
    ConcatContains(ContentTypesHead, SheetOverrides(|names|), "</Types>", i);
    SheetPathOfTarget(i);
    if RelId(i + 1) == RelId(|names| + 1) {
      RelIdInjective(i + 1, |names| + 1);
    }
  }

  // ------------------------------------------------------------------ buildXlsx

  /** The worksheet the exporter writes for `g`. */
  function SheetXmlOf(g: Group, show: real -> string): string {
    RenderSheet(SheetRows(TableOf(g), show))
  }

  /** The sheet names, one per group, in group order. */
  function SheetNames(groups: seq<Group>): (r: seq<string>)
    ensures |r| == |groups|
  {
    seq(|groups|, i requires 0 <= i < |groups| => SafeSheetName(groups[i].name, i))
  }

  /** The worksheets, one per group, in group order. */
  function SheetTexts(groups: seq<Group>, show: real -> string): (r: seq<string>)
    ensures |r| == |groups|
  {
    seq(|groups|, i requires 0 <= i < |groups| => SheetXmlOf(groups[i], show))
  }

  /** An entry of `buildXlsx`'s list: a part name and its text. */
  datatype Part = Part(name: string, text: string)

  /** The ZIP entries `buildZip` makes of text parts, encoding names and data as UTF-8. */
  function Encode(parts: seq<Part>): (r: seq<LoggerZip.ZipEntry>)
    ensures |r| == |parts|
  {
    seq(|parts|, i requires 0 <= i < |parts| => LoggerZip.ZipEntry(Utf8Encode(parts[i].name), Utf8Encode(parts[i].text)))
  }

  const ContentTypesName: string := "[Content_Types].xml"
  const RootRelsName: string := "_rels/.rels"
  const WorkbookName: string := "xl/workbook.xml"
  const WorkbookRelsName: string := "xl/_rels/workbook.xml.rels"
  const StylesName: string := "xl/styles.xml"

  /** The five fixed parts, in the order `buildXlsx` lists them. */
  function FixedPartsWith(names: seq<string>, contentTypes: string, workbookRels: string): seq<Part> {
    [ Part(ContentTypesName, contentTypes),
      Part(RootRelsName, RootRelsXml),
      Part(WorkbookName, WorkbookXml(names)),
      Part(WorkbookRelsName, workbookRels),
      Part(StylesName, StylesXml) ]
  }

  function FixedParts(names: seq<string>): (r: seq<Part>)
    ensures |r| == 5
  {
    FixedPartsWith(names, ContentTypesXml(|names|), RelsXml(WorkbookRels(|names|)))
  }

  /** One entry per worksheet, named by its position. */
  function SheetParts(sheets: seq<string>): (r: seq<Part>)
    ensures |r| == |sheets|
  {
    seq(|sheets|, i requires 0 <= i < |sheets| => Part(SheetPartName(i), sheets[i]))
  }

  /** The entries of a workbook with these sheet names and worksheets. */
  function PackageParts(names: seq<string>, sheets: seq<string>): (r: seq<Part>)
    ensures |r| == |sheets| + 5
  {
    FixedParts(names) + SheetParts(sheets)
  }

  /** Every entry of the workbook exported for `groups`: the fixed parts, then one sheet per group. */
  function XlsxEntries(groups: seq<Group>, show: real -> string): (r: seq<LoggerZip.ZipEntry>)
    ensures |r| == |groups| + 5
  {
    Encode(PackageParts(SheetNames(groups), SheetTexts(groups, show)))
  }

  /** `buildXlsx`'s `groupsToExport.map(...)`: each group's table, sheet name and worksheet. */
  method BuildSheets(groups: seq<Group>, show: real -> string) returns (names: seq<string>, sheets: seq<string>)
    ensures names == SheetNames(groups) && sheets == SheetTexts(groups, show)
  {
    ghost var allNames, allSheets := SheetNames(groups), SheetTexts(groups, show);
    names := [];
    sheets := [];
    for i := 0 to |groups|
      invariant names == allNames[..i]
      invariant sheets == allSheets[..i]
    {
      var table := BuildGroupTable(groups[i]);
      var name := SafeSheetName(groups[i].name, i);
      var xml := BuildSheetXml(table, show);
      assert allNames[i] == name && allSheets[i] == xml;
      PrefixSnoc(allNames, i);
      PrefixSnoc(allSheets, i);
      names := names + [name];
      sheets := sheets + [xml];
    }
    assert allNames[..|groups|] == allNames;
    assert allSheets[..|groups|] == allSheets;
  }

  /** The entry list of `buildXlsx`: the five fixed parts, then `entries.push` per sheet. */
  method BuildEntries(names: seq<string>, sheets: seq<string>) returns (entries: seq<Part>)
    requires |names| == |sheets|
    ensures entries == PackageParts(names, sheets)
  {
    var contentTypes := BuildContentTypesXml(|sheets|);
    var workbookRels := BuildWorkbookRelsXml(|sheets|);
    entries := PushSheets(FixedPartsWith(names, contentTypes, workbookRels), sheets);
  }

  /** The `entries.push` loop: one entry per worksheet after the given ones. */
  method PushSheets(fixed: seq<Part>, sheets: seq<string>) returns (entries: seq<Part>)
    ensures entries == fixed + SheetParts(sheets)
  {
    entries := fixed;
    for i := 0 to |sheets|
      invariant entries == fixed + SheetParts(sheets[..i])
    {
      assert SheetParts(sheets[..i + 1]) == SheetParts(sheets[..i]) + [Part(SheetPartName(i), sheets[i])];
      entries := entries + [Part(SheetPartName(i), sheets[i])];
    }
    assert sheets[..|sheets|] == sheets;
  }

  /**
   * `buildXlsx(groupsToExport)`. `show` is the text JavaScript gives a number and `crcTable`
   * the ZIP module's CRC table.
   */
  method BuildXlsx(groups: seq<Group>, show: real -> string, crcTable: array<bv32>) returns (out: bytes)
    requires crcTable.Length == 256
    requires forall k: nat :: k < 256 ==> crcTable[k] == LoggerCrc.TableEntry(k)
    ensures out == LoggerZip.ZipImage(XlsxEntries(groups, show), LoggerZip.CrcValue)
  {
    var names, sheets := BuildSheets(groups, show);
    var entries := BuildEntries(names, sheets);
    out := LoggerZip.BuildZip(Encode(entries), crcTable);
  }

  // ------------------------------------------------------------------ reading the archive back

  /** ASCII text has one UTF-8 encoding per string. */
  lemma {:induction false} Utf8AsciiInjective(a: string, b: string)
    requires IsAscii(a) && IsAscii(b)
    requires Utf8Encode(a) == Utf8Encode(b)
    ensures a == b
  {
    Utf8EncodeAscii(a);
    Utf8EncodeAscii(b);
    assert forall i :: 0 <= i < |a| ==> a[i] as int == Utf8Encode(a)[i] as int == b[i] as int;
  }

  lemma {:induction false} NatToStringAscii(n: nat)
    ensures IsAscii(NatToString(n))
  {
    var s := NatToString(n);
    assert forall i :: 0 <= i < |s| ==> IsDigit(s[i]);
  }

  lemma {:induction false} AsciiAppend(a: string, b: string)
    requires IsAscii(a) && IsAscii(b)
    ensures IsAscii(a + b)
  {
    assert forall i :: |a| <= i < |a + b| ==> (a + b)[i] == b[i - |a|];
  }

  lemma {:induction false} SheetPartNameAscii(i: nat)
    ensures IsAscii(SheetPartName(i))
  {
    NatToStringAscii(i + 1);
    var xl: string, pre: string, ext: string := "xl/", SheetFilePrefix, ".xml";
    assert IsAscii(xl) && IsAscii(pre) && IsAscii(ext);
    AsciiAppend(pre, NatToString(i + 1));
    AsciiAppend(pre + NatToString(i + 1), ext);
    AsciiAppend(xl, SheetTarget(i));
  }

  /** Texts with the same prefix and suffix are equal when the whole texts are. */
  lemma {:induction false} Infix(p: string, a: string, b: string, x: string)
    requires p + a + x == p + b + x
    ensures a == b
  {
    assert a == (p + a + x)[|p|..|p| + |a|];
    assert b == (p + b + x)[|p|..|p| + |b|];
  }

  /** Distinct sheets get distinct ZIP names. */
  lemma {:induction false} SheetPartNameInjective(i: nat, j: nat)
    requires Utf8Encode(SheetPartName(i)) == Utf8Encode(SheetPartName(j))
    ensures i == j
  {
    SheetPartNameAscii(i);
    SheetPartNameAscii(j);
    Utf8AsciiInjective(SheetPartName(i), SheetPartName(j));
    SheetPartNameTextInjective(i, j);
  }

  lemma {:induction false} SheetPartNameTextInjective(i: nat, j: nat)
    requires SheetPartName(i) == SheetPartName(j)
    ensures i == j
  {
    var p := "xl/" + SheetFilePrefix;
    assert SheetPartName(i) == p + NatToString(i + 1) + ".xml";
    assert SheetPartName(j) == p + NatToString(j + 1) + ".xml";
    Infix(p, NatToString(i + 1), NatToString(j + 1), ".xml");
    NatToStringInjective(i + 1, j + 1);
  }

  /**
   * Reading an archive whose entries end with the worksheets gives back, under the name the
   * relationships resolve to, the UTF-8 text of each worksheet: the directory lists it stored.
   */
  lemma {:induction false} SheetReadBack(fixed: seq<Part>, sheets: seq<string>, k: nat, inflate: bytes -> Option<bytes>)
    requires k < |sheets|
    requires LoggerZip.Representable(Encode(fixed + SheetParts(sheets)))
    ensures var buf := LoggerZip.ZipImage(Encode(fixed + SheetParts(sheets)), LoggerZip.CrcValue);
            var dir := LoggerZip.ZipDirectory(buf);
            var name := Utf8Encode(SheetPath(SheetTarget(k)));
            && dir.Ok? && name in dir.value
            && dir.value[name].compression == 0
            && LoggerZip.ReadZipEntry(dir.value[name], buf, inflate) == Ok(Utf8Encode(sheets[k]))
  {
    var ps := fixed + SheetParts(sheets);
    var es := Encode(ps);
    var n := |fixed|;
    SheetPathOfTarget(k);
    assert ps[n + k] == SheetParts(sheets)[k];
    forall j | n + k < j < |es|
      ensures es[j].name != es[n + k].name
    {
      assert ps[j] == SheetParts(sheets)[j - n];
      if es[j].name == es[n + k].name {
        SheetPartNameInjective(j - n, k);
      }
    }
    LoggerZip.ZipRoundTrip(es, n + k, LoggerZip.CrcValue, inflate);
  }

  /** The archive `buildXlsx` writes holds each group's worksheet where `parseXlsx` looks for it. */
  lemma {:induction false} XlsxSheetReadBack(groups: seq<Group>, show: real -> string, k: nat, inflate: bytes -> Option<bytes>)
    requires k < |groups|
    requires LoggerZip.Representable(XlsxEntries(groups, show))
    ensures var buf := LoggerZip.ZipImage(XlsxEntries(groups, show), LoggerZip.CrcValue);
            var dir := LoggerZip.ZipDirectory(buf);
            var name := Utf8Encode(SheetPath(SheetTarget(k)));
            && dir.Ok? && name in dir.value
            && LoggerZip.ReadZipEntry(dir.value[name], buf, inflate) == Ok(Utf8Encode(SheetXmlOf(groups[k], show)))
  {
    SheetReadBack(FixedParts(SheetNames(groups)), SheetTexts(groups, show), k, inflate);
  }
}
