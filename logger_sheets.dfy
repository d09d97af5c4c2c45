/**
 * The spreadsheet row readers of logger/app.js, over the elements a DOM parser hands them.
 *
 * `parseWorksheetRow` reads an XML Spreadsheet 2003 `<Row>`: each `<Cell>` as its `ss:Index`
 * attribute (one-based, "" when absent) and the text of its `<Data>` ("" when absent). A cell
 * with an index further right than the next free column is preceded by empty cells.
 *
 * `parseSheetXmlRows` reads the `<row>` and `<c>` elements of an ECMA-376 worksheet, as the
 * `RowRecord` and `CellRecord` values the exporter's model writes: the `r` attribute, the `t`
 * attribute ("" when absent) and the text of the `<is><t>` or `<v>` child. Cells are placed by
 * the column letters of their reference and rows by their one-based `r` number. The sparse
 * arrays of the JavaScript are maps here together with the array `length`; the holes left in a
 * row are "" (every later use of a row treats the two alike), and holes between rows are dropped
 * as `rows.filter(Boolean)` drops them.
 */
module LoggerSheets {
  import opened Wrappers
  import opened Text
  import opened LoggerColumns
  import opened LoggerTable
  import opened LoggerXlsx

  // ------------------------------------------------------------------ parseWorksheetRow

  /** A `<Cell>`: its `ss:Index` (or `Index`) attribute and the text of its `<Data>`. */
  datatype SsCell = SsCell(index: string, text: string)

  function Blanks(n: nat): (r: seq<string>)
    ensures |r| == n && forall i :: 0 <= i < n ==> r[i] == ""
  {
    seq(n, i => "")
  }

  /** How many empty cells go before `c` when `filled` cells are already there. */
  function Gap(filled: nat, c: SsCell): nat {
    if c.index != "" && ParseInt(c.index).Some? && ParseInt(c.index).value - 1 > filled
    then ParseInt(c.index).value - 1 - filled
    else 0
  }

  /** The cells `parseWorksheetRow` returns for the `<Cell>` elements `cs`. */
  function WorksheetRow(cs: seq<SsCell>): (r: seq<string>)
    ensures |r| >= |cs|
    decreases |cs|
  {
    if cs == [] then []
    else
      var n := |cs| - 1;
      var acc := WorksheetRow(cs[..n]);
      acc + Blanks(Gap(|acc|, cs[n])) + [cs[n].text]
  }

  /** `parseWorksheetRow(row, 'Cell')`: the `forEach` with its inner padding loop. */
  method ParseWorksheetRow(cs: seq<SsCell>) returns (cells: seq<string>)
    ensures cells == WorksheetRow(cs)
  {
    cells := [];
    var colIndex := 0;
    for k := 0 to |cs|
      invariant colIndex == |cells|
      invariant cells == WorksheetRow(cs[..k])
    {
      var cell := cs[k];
      ghost var before := cells;
      if cell.index != "" {
        var parsed := ParseInt(cell.index);
        if parsed.Some? {
          var target := parsed.value - 1;
          while colIndex < target
            invariant colIndex == |cells|
            invariant cells == before + Blanks(colIndex - |before|)
            invariant colIndex <= target || colIndex == |before|
          {
            cells := cells + [""];
            colIndex := colIndex + 1;
          }
        }
      }
      assert cells == before + Blanks(Gap(|before|, cell));
      cells := cells + [cell.text];
      colIndex := colIndex + 1;
      WorksheetRowPrefix(cs, k);
    }
    assert cs[..|cs|] == cs;
  }

  lemma {:induction false} WorksheetRowPrefix(cs: seq<SsCell>, k: nat)
    requires k < |cs|
    ensures var acc := WorksheetRow(cs[..k]);
      WorksheetRow(cs[..k + 1]) == acc + Blanks(Gap(|acc|, cs[k])) + [cs[k].text]
  {
    assert cs[..k + 1][..k] == cs[..k];
  }

  /** Without any `ss:Index`, the cells are the data texts in order. */
  lemma {:induction false} WorksheetRowDense(cs: seq<SsCell>)
    requires forall k :: 0 <= k < |cs| ==> cs[k].index == ""
    ensures WorksheetRow(cs) == seq(|cs|, k requires 0 <= k < |cs| => cs[k].text)
    decreases |cs|
  {
    if cs != [] {
      var n := |cs| - 1;
      assert forall k :: 0 <= k < n ==> cs[..n][k] == cs[k];
      WorksheetRowDense(cs[..n]);
    }
  }

  /**
   * Cells that all carry increasing one-based indexes `ps` land exactly there: the row is as long
   * as the last index, cell `k` sits at `ps[k] - 1` and every other position is empty.
   */
  lemma {:induction false} WorksheetRowIndexed(cs: seq<SsCell>, ps: seq<nat>)
    requires |ps| == |cs|
    requires forall k :: 0 <= k < |cs| ==> cs[k].index != "" && ParseInt(cs[k].index) == Some(ps[k] as int) && ps[k] >= 1
    requires forall j, k :: 0 <= j < k < |ps| ==> ps[j] < ps[k]
    ensures IndexedCellsPlaced(WorksheetRow(cs), cs, ps)
    decreases |cs|
  {
    if cs != [] {
      var n := |cs| - 1;
      var cs', ps' := cs[..n], ps[..n];
      IndexedPrefix(cs, ps);
      WorksheetRowIndexed(cs', ps');
      var acc := WorksheetRow(cs');
      IndexedCellsPlacedLength(acc, cs', ps');
      var g := GapOfIndex(|acc|, cs[n], ps[n]);
      CellPlaceStep(acc, g, cs, ps);
    }
  }

  /** The requirements of `WorksheetRowIndexed` carry over to the cells before the last. */
  lemma {:induction false} IndexedPrefix(cs: seq<SsCell>, ps: seq<nat>)
    requires |ps| == |cs| >= 1
    requires forall k :: 0 <= k < |cs| ==> cs[k].index != "" && ParseInt(cs[k].index) == Some(ps[k] as int) && ps[k] >= 1
    requires forall j, k :: 0 <= j < k < |ps| ==> ps[j] < ps[k]
    ensures var n := |cs| - 1; var cs', ps' := cs[..n], ps[..n];
      |ps'| == |cs'|
      && (forall k :: 0 <= k < |cs'| ==> cs'[k].index != "" && ParseInt(cs'[k].index) == Some(ps'[k] as int) && ps'[k] >= 1)
      && (forall j, k :: 0 <= j < k < |ps'| ==> ps'[j] < ps'[k])
  {
    var n := |cs| - 1;
    assert forall k :: 0 <= k < n ==> cs[..n][k] == cs[k] && ps[..n][k] == ps[k];
  }

  /** The gap before a cell indexed `p` when `filled` cells come before and `filled < p`. */
  lemma {:induction false} GapOfIndex(filled: nat, c: SsCell, p: nat) returns (g: nat)
    requires c.index != "" && ParseInt(c.index) == Some(p as int) && filled < p
    ensures g == Gap(filled, c) && filled + g + 1 == p
  {
    g := p - 1 - filled;
  }

  /** Every cell `k` sits at `ps[k] - 1`, every other position is empty, and the row ends at the last. */
  predicate IndexedCellsPlaced(r: seq<string>, cs: seq<SsCell>, ps: seq<nat>)
    requires |ps| == |cs|
  {
    |r| == (if cs == [] then 0 else ps[|ps| - 1])
    && (forall k :: 0 <= k < |cs| ==> 1 <= ps[k] <= |r| && r[ps[k] - 1] == cs[k].text)
    && (forall i :: 0 <= i < |r| && (forall k :: 0 <= k < |ps| ==> ps[k] != i + 1) ==> r[i] == "")
  }

  lemma {:induction false} IndexedCellsPlacedLength(r: seq<string>, cs: seq<SsCell>, ps: seq<nat>)
    requires |ps| == |cs| && IndexedCellsPlaced(r, cs, ps)
    ensures |r| == if cs == [] then 0 else ps[|ps| - 1]
  {
  }

  /** The padding and the next cell keep the placement of the cells before. */
  lemma {:induction false} CellPlaceStep(acc: seq<string>, g: nat, cs: seq<SsCell>, ps: seq<nat>)
    requires |ps| == |cs| >= 1
    requires forall k :: 0 <= k < |ps| ==> ps[k] >= 1
    requires forall j, k :: 0 <= j < k < |ps| ==> ps[j] < ps[k]
    requires IndexedCellsPlaced(acc, cs[..|cs| - 1], ps[..|ps| - 1])
    requires |acc| + g + 1 == ps[|ps| - 1]
    ensures IndexedCellsPlaced(acc + Blanks(g) + [cs[|cs| - 1].text], cs, ps)
  {
    var n := |cs| - 1;
    var r := acc + Blanks(g) + [cs[n].text];
    StepKeepsCells(acc, g, r, cs, ps);
    StepBlanks(acc, g, r, cs, ps);
  }

  lemma {:induction false} StepKeepsCells(acc: seq<string>, g: nat, r: seq<string>, cs: seq<SsCell>, ps: seq<nat>)
    requires |ps| == |cs| >= 1
    requires forall k :: 0 <= k < |ps| ==> ps[k] >= 1
    requires IndexedCellsPlaced(acc, cs[..|cs| - 1], ps[..|ps| - 1])
    requires |acc| + g + 1 == ps[|ps| - 1] && r == acc + Blanks(g) + [cs[|cs| - 1].text]
    ensures forall k :: 0 <= k < |cs| ==> 1 <= ps[k] <= |r| && r[ps[k] - 1] == cs[k].text
  {
    var n := |cs| - 1;
    var cs', ps' := cs[..n], ps[..n];
    forall k | 0 <= k < |cs|
      ensures 1 <= ps[k] <= |r| && r[ps[k] - 1] == cs[k].text
    {
      if k < n {
        assert cs'[k] == cs[k] && ps'[k] == ps[k];
        assert r[ps[k] - 1] == acc[ps[k] - 1];
      }
    }
  }

  lemma {:induction false} StepBlanks(acc: seq<string>, g: nat, r: seq<string>, cs: seq<SsCell>, ps: seq<nat>)
    requires |ps| == |cs| >= 1
    requires IndexedCellsPlaced(acc, cs[..|cs| - 1], ps[..|ps| - 1])
    requires |acc| + g + 1 == ps[|ps| - 1] && r == acc + Blanks(g) + [cs[|cs| - 1].text]
    ensures forall i :: 0 <= i < |r| && (forall k :: 0 <= k < |ps| ==> ps[k] != i + 1) ==> r[i] == ""
  {
    var n := |cs| - 1;
    var ps' := ps[..n];
    forall i | 0 <= i < |r| && (forall k :: 0 <= k < |ps| ==> ps[k] != i + 1)
      ensures r[i] == ""
    {
      assert ps[n] != i + 1;
      if i < |acc| {
        assert forall k :: 0 <= k < |ps'| ==> ps'[k] != i + 1 by {
          forall k | 0 <= k < |ps'|
            ensures ps'[k] != i + 1
          {
            assert ps'[k] == ps[k];
          }
        }
        assert r[i] == acc[i];
      } else {
        assert r[i] == Blanks(g)[i - |acc|];
      }
    }
  }

  // ------------------------------------------------------------------ parseSheetXmlRows

  /** `ref.replace(/[0-9]/g, '')`. */
  function StripDigits(s: string): (r: string)
    ensures |r| <= |s|
    ensures forall i :: 0 <= i < |r| ==> !IsDigit(r[i])
    decreases |s|
  {
    if s == [] then ""
    else StripDigits(s[..|s| - 1]) + (if IsDigit(s[|s| - 1]) then "" else [s[|s| - 1]])
  }

  lemma {:induction false} StripDigitsAppend(a: string, b: string)
    ensures StripDigits(a + b) == StripDigits(a) + StripDigits(b)
    decreases |b|
  {
    if b == [] {
      assert a + b == a;
    } else {
      var n := |b| - 1;
      assert (a + b)[..|a + b| - 1] == a + b[..n];
      assert (a + b)[|a + b| - 1] == b[n];
      StripDigitsAppend(a, b[..n]);
    }
  }

  /** Removing digits leaves a digit-free text as it is, and a numeral empty. */
  lemma {:induction false} StripDigitsKeeps(s: string)
    requires forall i :: 0 <= i < |s| ==> !IsDigit(s[i])
    ensures StripDigits(s) == s
    decreases |s|
  {
    if s != [] {
      var n := |s| - 1;
      assert forall i :: 0 <= i < n ==> s[..n][i] == s[i];
      StripDigitsKeeps(s[..n]);
    }
  }

  lemma {:induction false} StripDigitsDrops(s: string)
    requires forall i :: 0 <= i < |s| ==> IsDigit(s[i])
    ensures StripDigits(s) == ""
    decreases |s|
  {
    if s != [] {
      var n := |s| - 1;
      assert forall i :: 0 <= i < n ==> s[..n][i] == s[i];
      StripDigitsDrops(s[..n]);
    }
  }

  /** The letters of an A1 reference are its column's name. */
  lemma {:induction false} RefLetters(row: nat, col: nat)
    ensures StripDigits(CellRef(row, col)) == ColumnLabel(col)
  {
    var letters := ColumnLabel(col);
    assert forall i :: 0 <= i < |letters| ==> !IsDigit(letters[i]) by {
      assert AllUpper(letters);
    }
    StripDigitsAppend(letters, NatToString(row));
    StripDigitsKeeps(letters);
    StripDigitsDrops(NatToString(row));
    assert letters + "" == letters;
  }

  /** The zero-based column of a cell: from the letters of its reference, else the one after the previous cell. */
  function CellColumn(c: CellRecord, fallback: nat): nat {
    var letters := StripDigits(c.ref);
    if letters != "" then ColumnIndexOf(letters) else fallback
  }

  /** The reference of `c` names column `col` by its letters. */
  predicate NamesColumn(c: CellRecord, col: nat) {
    StripDigits(c.ref) != "" && ColumnIndexOf(StripDigits(c.ref)) == col
  }

  /** A cell the exporter writes is read back in the column it was written to, whatever the fallback. */
  lemma {:induction false} CellColumnOfRef(row: nat, col: nat, kind: string, text: string)
    ensures NamesColumn(CellRecord(CellRef(row, col), kind, text), col)
  {
    RefLetters(row, col);
    ColumnIndexOfLabel(col);
  }

  /**
   * The text of a cell: an inline string's text; for a shared string (`t="s"`) the entry its
   * value numbers, or "" when that is not a number or names no entry; otherwise the raw value.
   */
  function CellText(c: CellRecord, shared: seq<string>): string {
    if c.kind == "inlineStr" then c.text
    else if c.kind == "s" then
      match ParseInt(c.text)
      case Some(idx) => if 0 <= idx < |shared| then shared[idx] else ""
      case None => ""
    else c.text
  }

  /**
   * The sparse `cells` array of one row while its cells are placed: the elements present, the
   * array's `length`, and `fallbackCol`.
   */
  datatype Placed = Placed(cells: map<nat, string>, length: nat, fallback: nat)

  /** `cells[colIndex] = value` for one `<c>`. */
  function PlaceCell(p: Placed, c: CellRecord, shared: seq<string>): Placed {
    var col := CellColumn(c, p.fallback);
    Placed(p.cells[col := CellText(c, shared)], if col + 1 > p.length then col + 1 else p.length, col + 1)
  }

  /** The array after placing the cells `cs` in document order; its length is one past its last element. */
  function PlaceCells(cs: seq<CellRecord>, shared: seq<string>): (p: Placed)
    ensures forall i :: i in p.cells ==> i < p.length
    ensures p.length == 0 || p.length - 1 in p.cells
    ensures (p.length == 0) == (cs == [])
    decreases |cs|
  {
    if cs == [] then Placed(map[], 0, 0)
    else PlaceCell(PlaceCells(cs[..|cs| - 1], shared), cs[|cs| - 1], shared)
  }

  lemma {:induction false} PlaceCellsSnoc(cs: seq<CellRecord>, c: CellRecord, shared: seq<string>)
    ensures PlaceCells(cs + [c], shared) == PlaceCell(PlaceCells(cs, shared), c, shared)
  {
    assert (cs + [c])[..|cs|] == cs;
  }

  /** `cells.map((cell) => cell ?? '')`, the holes read as empty text. */
  function Dense(m: map<nat, string>, length: nat): (r: seq<string>)
    ensures |r| == length
  {
    seq(length, i => if i in m then m[i] else "")
  }

  /** The cells one `<row>` contributes. */
  function RowCells(cs: seq<CellRecord>, shared: seq<string>): (r: seq<string>)
    ensures |r| == PlaceCells(cs, shared).length
  {
    var p := PlaceCells(cs, shared);
    Dense(p.cells, p.length)
  }

  /**
   * Cells whose references carry increasing columns `cols` land exactly there: the row ends at
   * the last of them, cell `k` holds its text at `cols[k]` and every other position is empty.
   */
  lemma {:induction false} RowCellsAt(cs: seq<CellRecord>, cols: seq<nat>, shared: seq<string>)
    requires |cols| == |cs|
    requires forall k :: 0 <= k < |cs| ==> NamesColumn(cs[k], cols[k])
    requires forall j, k :: 0 <= j < k < |cols| ==> cols[j] < cols[k]
    ensures |RowCells(cs, shared)| == if cs == [] then 0 else cols[|cols| - 1] + 1
    ensures forall k :: 0 <= k < |cs| ==> RowCells(cs, shared)[cols[k]] == CellText(cs[k], shared)
    ensures forall i :: 0 <= i < |RowCells(cs, shared)| && i !in cols ==> RowCells(cs, shared)[i] == ""
  {
    PlaceCellsAt(cs, cols, shared);
  }

  lemma {:induction false} PlaceCellsAt(cs: seq<CellRecord>, cols: seq<nat>, shared: seq<string>)
    requires |cols| == |cs|
    requires forall k :: 0 <= k < |cs| ==> NamesColumn(cs[k], cols[k])
    requires forall j, k :: 0 <= j < k < |cols| ==> cols[j] < cols[k]
    ensures PlaceCells(cs, shared).length == if cs == [] then 0 else cols[|cols| - 1] + 1
    ensures forall k :: 0 <= k < |cs| ==>
      cols[k] in PlaceCells(cs, shared).cells && PlaceCells(cs, shared).cells[cols[k]] == CellText(cs[k], shared)
    ensures forall i :: i in PlaceCells(cs, shared).cells ==> i in cols
  {
    PlacedLength(cs, cols, shared);
    PlacedValues(cs, cols, shared);
    PlacedKeys(cs, cols, shared);
  }

  lemma {:induction false} PlacedLength(cs: seq<CellRecord>, cols: seq<nat>, shared: seq<string>)
    requires |cols| == |cs|
    requires forall k :: 0 <= k < |cs| ==> NamesColumn(cs[k], cols[k])
    requires forall j, k :: 0 <= j < k < |cols| ==> cols[j] < cols[k]
    ensures PlaceCells(cs, shared).length == if cs == [] then 0 else cols[|cols| - 1] + 1
    decreases |cs|
  {
    if cs != [] {
      var n := |cs| - 1;
      var cs', cols' := cs[..n], cols[..n];
      assert forall k :: 0 <= k < n ==> cs'[k] == cs[k] && cols'[k] == cols[k];
      PlacedLength(cs', cols', shared);
      PlaceNamed(PlaceCells(cs', shared), cs[n], cols[n], shared);
      assert n > 0 ==> cols[n - 1] < cols[n];
    }
  }

  lemma {:induction false} PlacedValues(cs: seq<CellRecord>, cols: seq<nat>, shared: seq<string>)
    requires |cols| == |cs|
    requires forall k :: 0 <= k < |cs| ==> NamesColumn(cs[k], cols[k])
    requires forall j, k :: 0 <= j < k < |cols| ==> cols[j] < cols[k]
    ensures forall k :: 0 <= k < |cs| ==>
      cols[k] in PlaceCells(cs, shared).cells && PlaceCells(cs, shared).cells[cols[k]] == CellText(cs[k], shared)
    decreases |cs|
  {
    if cs != [] {
      var n := |cs| - 1;
      var cs', cols' := cs[..n], cols[..n];
      assert forall k :: 0 <= k < n ==> cs'[k] == cs[k] && cols'[k] == cols[k];
      PlacedValues(cs', cols', shared);
      var p := PlaceCells(cs', shared);
      PlaceNamed(p, cs[n], cols[n], shared);
      var m := p.cells[cols[n] := CellText(cs[n], shared)];
      assert PlaceCells(cs, shared).cells == m;
      forall k | 0 <= k < n
        ensures cols[k] in m && m[cols[k]] == CellText(cs[k], shared)
      {
        assert cols[k] < cols[n] && cols'[k] == cols[k] && cs'[k] == cs[k];
        assert cols[k] in p.cells && p.cells[cols[k]] == CellText(cs[k], shared);
      }
    }
  }

  lemma {:induction false} PlacedKeys(cs: seq<CellRecord>, cols: seq<nat>, shared: seq<string>)
    requires |cols| == |cs|
    requires forall k :: 0 <= k < |cs| ==> NamesColumn(cs[k], cols[k])
    ensures forall i :: i in PlaceCells(cs, shared).cells ==> i in cols
    decreases |cs|
  {
    if cs != [] {
      var n := |cs| - 1;
      var cs', cols' := cs[..n], cols[..n];
      assert forall k :: 0 <= k < n ==> cs'[k] == cs[k] && cols'[k] == cols[k];
      PlacedKeys(cs', cols', shared);
      var p := PlaceCells(cs', shared);
      PlaceNamed(p, cs[n], cols[n], shared);
      forall i | i in PlaceCells(cs, shared).cells
        ensures i in cols
      {
        if i != cols[n] {
          assert i in p.cells;
          var k :| 0 <= k < n && cols'[k] == i;
          assert cols[k] == i;
        }
      }
    }
  }

  lemma {:induction false} PlaceNamed(p: Placed, c: CellRecord, col: nat, shared: seq<string>)
    requires NamesColumn(c, col)
    ensures PlaceCell(p, c, shared).cells == p.cells[col := CellText(c, shared)]
    ensures PlaceCell(p, c, shared).length == if col + 1 > p.length then col + 1 else p.length
  {
  }

  /** All the rows read so far: the sparse `rows` array, its elements present and its `length`. */
  datatype Sheet = Sheet(rows: map<nat, seq<string>>, length: nat)

  /** `Number.parseInt(r, 10) || rows.length + 1`: a missing, unreadable or zero number falls back. */
  function RowNumber(r: string, length: nat): int {
    match ParseInt(r)
    case Some(n) => if n != 0 then n else length + 1
    case None => length + 1
  }

  /** `rows[rowIndex - 1] = …`; a negative position names a property, not an element, and is ignored. */
  function PlaceRow(s: Sheet, row: RowRecord, shared: seq<string>): Sheet {
    var n := RowNumber(row.r, s.length);
    if n < 1 then s
    else Sheet(s.rows[n - 1 := RowCells(row.cells, shared)], if n > s.length then n else s.length)
  }

  function PlaceRows(rs: seq<RowRecord>, shared: seq<string>): (s: Sheet)
    ensures forall i :: i in s.rows ==> i < s.length
    decreases |rs|
  {
    if rs == [] then Sheet(map[], 0)
    else PlaceRow(PlaceRows(rs[..|rs| - 1], shared), rs[|rs| - 1], shared)
  }

  /** `rows.filter(Boolean)`: the elements present among the first `n`, in index order. */
  function Compact(m: map<nat, seq<string>>, n: nat): (r: seq<seq<string>>)
    ensures |r| <= n
    decreases n
  {
    if n == 0 then [] else Compact(m, n - 1) + (if n - 1 in m then [m[n - 1]] else [])
  }

  /** The rows `parseSheetXmlRows` returns for the `<row>` elements `rs`. */
  function SheetXmlRows(rs: seq<RowRecord>, shared: seq<string>): seq<seq<string>> {
    var s := PlaceRows(rs, shared);
    Compact(s.rows, s.length)
  }

  /** `parseSheetXmlRows(xml, sharedStrings)` on the parsed document: the two `forEach` loops. */
  method ParseSheetXmlRows(rowNodes: seq<RowRecord>, shared: seq<string>) returns (rows: seq<seq<string>>)
    ensures rows == SheetXmlRows(rowNodes, shared)
  {
    var sparse: map<nat, seq<string>> := map[];
    var length := 0;
    for i := 0 to |rowNodes|
      invariant Sheet(sparse, length) == PlaceRows(rowNodes[..i], shared)
    {
      var rowNode := rowNodes[i];
      var rowIndex := RowNumber(rowNode.r, length);
      var placed := ParseRowCells(rowNode.cells, shared);
      ghost var before := Sheet(sparse, length);
      if rowIndex >= 1 {
        sparse := sparse[rowIndex - 1 := Dense(placed.cells, placed.length)];
        if rowIndex > length {
          length := rowIndex;
        }
      }
      assert Sheet(sparse, length) == PlaceRow(before, rowNode, shared);
      PlaceRowsPrefix(rowNodes, i, shared);
    }
    assert rowNodes[..|rowNodes|] == rowNodes;
    rows := Compact(sparse, length);
  }

  /** The `cells.forEach` of `parseSheetXmlRows` for one `<row>`: each cell at its column. */
  method ParseRowCells(cellNodes: seq<CellRecord>, shared: seq<string>) returns (p: Placed)
    ensures p == PlaceCells(cellNodes, shared)
  {
    var cells: map<nat, string> := map[];
    var cellsLength := 0;
    var fallbackCol := 0;
    for k := 0 to |cellNodes|
      invariant Placed(cells, cellsLength, fallbackCol) == PlaceCells(cellNodes[..k], shared)
    {
      var cell := cellNodes[k];
      ghost var before := Placed(cells, cellsLength, fallbackCol);
      var letters := StripDigits(cell.ref);
      var colIndex := fallbackCol;
      if letters != "" {
        colIndex := ColumnLettersToIndex(letters);
      }
      fallbackCol := colIndex + 1;
      var value := CellText(cell, shared);
      cells := cells[colIndex := value];
      if colIndex + 1 > cellsLength {
        cellsLength := colIndex + 1;
      }
      assert Placed(cells, cellsLength, fallbackCol) == PlaceCell(before, cell, shared);
      PlaceCellsPrefix(cellNodes, k, shared);
    }
    assert cellNodes[..|cellNodes|] == cellNodes;
    p := Placed(cells, cellsLength, fallbackCol);
  }

  lemma {:induction false} PlaceCellsPrefix(cs: seq<CellRecord>, k: nat, shared: seq<string>)
    requires k < |cs|
    ensures PlaceCells(cs[..k + 1], shared) == PlaceCell(PlaceCells(cs[..k], shared), cs[k], shared)
  {
    assert cs[..k + 1][..k] == cs[..k];
  }

  lemma {:induction false} PlaceRowsPrefix(rs: seq<RowRecord>, i: nat, shared: seq<string>)
    requires i < |rs|
    ensures PlaceRows(rs[..i + 1], shared) == PlaceRow(PlaceRows(rs[..i], shared), rs[i], shared)
  {
    assert rs[..i + 1][..i] == rs[..i];
  }

  /** Rows numbered by their position, or not numbered, come back as they are, in order. */
  lemma {:induction false} SheetRowsInOrder(rs: seq<RowRecord>, shared: seq<string>)
    requires forall k :: 0 <= k < |rs| ==> RowNumber(rs[k].r, k) == k + 1
    ensures SheetXmlRows(rs, shared) == seq(|rs|, k requires 0 <= k < |rs| => RowCells(rs[k].cells, shared))
  {
    PlaceRowsInOrder(rs, shared);
    var s := PlaceRows(rs, shared);
    CompactAll(s.rows, |rs|);
  }

  lemma {:induction false} PlaceRowsInOrder(rs: seq<RowRecord>, shared: seq<string>)
    requires forall k :: 0 <= k < |rs| ==> RowNumber(rs[k].r, k) == k + 1
    ensures PlaceRows(rs, shared).length == |rs|
    ensures forall k :: 0 <= k < |rs| ==> k in PlaceRows(rs, shared).rows && PlaceRows(rs, shared).rows[k] == RowCells(rs[k].cells, shared)
    decreases |rs|
  {
    if rs != [] {
      var n := |rs| - 1;
      var rs' := rs[..n];
      assert forall k :: 0 <= k < n ==> rs'[k] == rs[k];
      PlaceRowsInOrder(rs', shared);
      var s := PlaceRows(rs', shared);
      assert s.length == n;
      assert RowNumber(rs[n].r, n) == n + 1;
      var m := s.rows[n := RowCells(rs[n].cells, shared)];
      PlaceRowAt(s, rs[n], shared);
      assert PlaceRows(rs, shared) == PlaceRow(s, rs[n], shared);
      assert PlaceRows(rs, shared) == Sheet(m, n + 1);
      forall k | 0 <= k <= n
        ensures k in m && m[k] == RowCells(rs[k].cells, shared)
      {
        if k < n {
          assert k in s.rows && s.rows[k] == RowCells(rs'[k].cells, shared);
        } else {
          assert m[n] == RowCells(rs[n].cells, shared);
        }
      }
    }
  }

  lemma {:induction false} PlaceRowAt(s: Sheet, row: RowRecord, shared: seq<string>)
    requires RowNumber(row.r, s.length) == s.length + 1
    ensures PlaceRow(s, row, shared) == Sheet(s.rows[s.length := RowCells(row.cells, shared)], s.length + 1)
  {
  }

  /** With no hole below `n`, the filter keeps every element. */
  lemma {:induction false} CompactAll(m: map<nat, seq<string>>, n: nat)
    requires forall k :: 0 <= k < n ==> k in m
    ensures Compact(m, n) == seq(n, k requires 0 <= k < n => m[k])
    decreases n
  {
    if n > 0 {
      CompactAll(m, n - 1);
    }
  }

  /** The header row the exporter writes reads back as `time` followed by the labels. */
  lemma {:induction false} HeaderReadBack(labels: seq<string>, shared: seq<string>)
    ensures RowCells(HeaderRow(labels).cells, shared) == ["time"] + labels
  {
    var names := ["time"] + labels;
    var cs := HeaderRow(labels).cells;
    var cols: seq<nat> := seq(|names|, j => j);
    forall k | 0 <= k < |cs|
      ensures NamesColumn(cs[k], cols[k])
    {
      assert cs[k] == InlineCell(2, k, names[k]);
      CellColumnOfRef(2, k, "inlineStr", names[k]);
    }
    RowCellsAt(cs, cols, shared);
    var r := RowCells(cs, shared);
    forall k | 0 <= k < |names|
      ensures r[k] == names[k]
    {
      assert cs[k] == InlineCell(2, k, names[k]);
      assert r[cols[k]] == CellText(cs[k], shared);
    }
  }

  /**
   * What placing the cells of a data row leaves: the time in column 0, each present value in the
   * column after its label's position, nothing in the column of a blank, nothing past the values.
   */
  predicate PlacedData(p: Placed, time: string, vs: seq<Option<real>>, show: real -> string) {
    p.length <= |vs| + 1 && 0 in p.cells && p.cells[0] == time
    && (forall j :: 0 <= j < |vs| ==> (j + 1 in p.cells <==> vs[j].Some?))
    && (forall j :: 0 <= j < |vs| && vs[j].Some? ==> p.cells[j + 1] == show(vs[j].value))
  }

  /** The cells the exporter writes for one data row are placed as `PlacedData` says. */
  lemma {:induction false} DataPlaced(rowIndex: nat, time: string, vs: seq<Option<real>>, show: real -> string, shared: seq<string>)
    ensures PlacedData(PlaceCells([InlineCell(rowIndex, 0, time)] + ValueCells(rowIndex, vs, show), shared), time, vs, show)
    decreases |vs|
  {
    var first := InlineCell(rowIndex, 0, time);
    var cs := [first] + ValueCells(rowIndex, vs, show);
    if vs == [] {
      CellColumnOfRef(rowIndex, 0, "inlineStr", time);
      assert cs == [] + [first];
      PlaceCellsSnoc([], first, shared);
      PlaceNamed(PlaceCells([], shared), first, 0, shared);
    } else {
      var n := |vs| - 1;
      var vs', v := vs[..n], vs[n];
      assert vs == vs' + [v];
      DataPlaced(rowIndex, time, vs', show, shared);
      var cs' := [first] + ValueCells(rowIndex, vs', show);
      var p := PlaceCells(cs', shared);
      ValueCellsSnoc([first], rowIndex, vs', v, show);
      if v.Some? {
        var c := NumberCell(rowIndex, n + 1, show(v.value));
        assert cs == cs' + [c];
        PlaceNumber(cs', rowIndex, n + 1, show(v.value), shared);
      } else {
        assert cs == cs' + [];
        assert cs' + [] == cs';
      }
      PlacedDataSnoc(p, PlaceCells(cs, shared), time, vs', v, show);
    }
  }

  lemma {:induction false} PlacedDataSnoc(p: Placed, q: Placed, time: string, vs: seq<Option<real>>, v: Option<real>, show: real -> string)
    requires PlacedData(p, time, vs, show)
    requires forall i :: i in p.cells ==> i < p.length
    requires v.Some? ==> q.cells == p.cells[|vs| + 1 := show(v.value)]
    requires v.Some? ==> q.length == if |vs| + 2 > p.length then |vs| + 2 else p.length
    requires v.None? ==> q.cells == p.cells && q.length == p.length
    ensures PlacedData(q, time, vs + [v], show)
  {
    var n := |vs|;
    var ws := vs + [v];
    assert n + 1 !in p.cells;
    forall j | 0 <= j < |ws|
      ensures (j + 1 in q.cells <==> ws[j].Some?)
      ensures ws[j].Some? ==> q.cells[j + 1] == show(ws[j].value)
    {
      if j < n {
        assert ws[j] == vs[j];
      }
    }
  }

  lemma {:induction false} PlaceNumber(cs: seq<CellRecord>, rowIndex: nat, col: nat, text: string, shared: seq<string>)
    ensures var p := PlaceCells(cs, shared);
      PlaceCells(cs + [NumberCell(rowIndex, col, text)], shared)
      == Placed(p.cells[col := text], if col + 1 > p.length then col + 1 else p.length, col + 1)
  {
    CellColumnOfRef(rowIndex, col, "", text);
    PlaceCellsSnoc(cs, NumberCell(rowIndex, col, text), shared);
  }

  /** The cells `x` hold the time text of `row`, then its values' texts, blanks being empty or past the end. */
  predicate ReadsBackAs(x: seq<string>, row: Row, show: real -> string) {
    1 <= |x| <= |row.values| + 1 && x[0] == FormatSecondsAsWritten(row.offset)
    && forall j :: 0 <= j < |row.values| ==>
      (if j + 1 < |x| then x[j + 1] else "") == (if row.values[j].Some? then show(row.values[j].value) else "")
  }

  /**
   * One data row the exporter writes reads back as its time text followed by, for each value, the
   * text of the value when present and an empty cell (or none, past the end) when blank.
   */
  lemma {:induction false} DataRowReadBack(rowIndex: nat, row: Row, show: real -> string, shared: seq<string>)
    ensures ReadsBackAs(RowCells(DataCells(rowIndex, row, show), shared), row, show)
  {
    DataPlaced(rowIndex, FormatSecondsAsWritten(row.offset), row.values, show, shared);
  }

  // ------------------------------------------------------------------ parseWorkbookRels

  /** A `<Relationship>` element: its `Id` and `Target` attributes ("" when absent). */
  datatype RelRecord = RelRecord(id: string, target: string)

  /** `parseWorkbookRels(xml)`: id to target, for the relationships that have both; a later one wins. */
  function RelsMap(rels: seq<RelRecord>): (m: map<string, string>)
    ensures forall id :: id in m ==> id != "" && m[id] != ""
    decreases |rels|
  {
    if rels == [] then map[]
    else
      var n := |rels| - 1;
      var m := RelsMap(rels[..n]);
      if rels[n].id != "" && rels[n].target != "" then m[rels[n].id := rels[n].target] else m
  }

  /** `parseWorkbookRels(xml)` on the parsed document: the `forEach` filling the `Map`. */
  method ParseWorkbookRels(relNodes: seq<RelRecord>) returns (rels: map<string, string>)
    ensures rels == RelsMap(relNodes)
  {
    rels := map[];
    for i := 0 to |relNodes|
      invariant rels == RelsMap(relNodes[..i])
    {
      var rel := relNodes[i];
      if rel.id != "" && rel.target != "" {
        rels := rels[rel.id := rel.target];
      }
      assert relNodes[..i + 1][..i] == relNodes[..i];
    }
    assert relNodes[..|relNodes|] == relNodes;
  }

  /** Relationship `k` has the id `id` and a target, and no later one has both. */
  predicate LastWith(rels: seq<RelRecord>, k: nat, id: string)
    requires k < |rels|
  {
    rels[k].id == id && id != "" && rels[k].target != ""
    && forall j :: k < j < |rels| ==> rels[j].id != id || rels[j].target == ""
  }

  /**
   * The target of an id is that of the last relationship with this id and a target; an id no
   * such relationship has is not in the map.
   */
  lemma {:induction false} RelsMapLookup(rels: seq<RelRecord>, id: string)
    ensures id in RelsMap(rels) <==> exists k :: 0 <= k < |rels| && rels[k].id == id && id != "" && rels[k].target != ""
    ensures forall k :: 0 <= k < |rels| && LastWith(rels, k, id) ==> id in RelsMap(rels) && RelsMap(rels)[id] == rels[k].target
    decreases |rels|
  {
    if rels != [] {
      var n := |rels| - 1;
      var rels' := rels[..n];
      assert forall k :: 0 <= k < n ==> rels'[k] == rels[k];
      RelsMapLookup(rels', id);
      if id in RelsMap(rels') {
        var k :| 0 <= k < n && rels'[k].id == id && id != "" && rels'[k].target != "";
        assert rels[k].id == id;
      }
    }
  }

  /** The relationships `buildWorkbookRelsXml(count)` writes, as their elements read. */
  function ExportedRels(count: nat): (r: seq<RelRecord>)
    ensures |r| == count + 1
  {
    seq(count, i requires 0 <= i < count => RelRecord(RelId(i + 1), SheetTarget(i))) + [RelRecord(RelId(count + 1), "styles.xml")]
  }

  /** A `<sheet>` element of the workbook: its `name` and `r:id` attributes ("" when absent). */
  datatype SheetNode = SheetNode(name: string, relId: string)

  /** `sheet.getAttribute('name') || '그룹'`. */
  function SheetNameOf(node: SheetNode): string {
    if node.name == "" then "그룹" else node.name
  }

  /**
   * The part `parseXlsx` reads for a `<sheet>`: its relationship's target, under `xl/` unless it
   * is absolute; a sheet with no relationship, or one without a target, is an error naming the sheet.
   */
  function SheetPartOf(node: SheetNode, rels: map<string, string>): (r: Result<string, string>)
    ensures r.Err? ==> r.error == SheetNameOf(node)
  {
    if node.relId == "" || node.relId !in rels || rels[node.relId] == "" then Err(SheetNameOf(node))
    else Ok(SheetPath(rels[node.relId]))
  }

  /** In a workbook the exporter writes, the `i`-th sheet is found at the part it was written to. */
  lemma {:induction false} ExportedSheetPart(count: nat, i: nat, name: string)
    requires i < count
    ensures SheetPartOf(SheetNode(name, RelId(i + 1)), RelsMap(ExportedRels(count))) == Ok(SheetPartName(i))
  {
    var rels := ExportedRels(count);
    var id := RelId(i + 1);
    assert rels[i] == RelRecord(id, SheetTarget(i));
    assert SheetTarget(i) != "";
    forall j | i < j < |rels|
      ensures rels[j].id != id
    {
      if rels[j].id == id {
        RelIdInjective(j + 1, i + 1);
      }
    }
    RelsMapLookup(rels, id);
    SheetPathOfTarget(i);
  }
}
