/**
 * `parseRowsToTable` of logger/app.js: the row grammar shared by the CSV and spreadsheet
 * importers. Row 1 is ignored, row 2 is a header whose first cell reads `time` and whose other
 * non-blank cells are the labels, and every later row that is not blank is a time followed by
 * one value per label.
 */
module LoggerRows {
  import opened Wrappers
  import opened Text
  import opened LoggerLabels
  import opened LoggerDecode
  import LoggerXlsx

  datatype ParsedRow = ParsedRow(timeSec: real, values: seq<Option<real>>)

  datatype ParsedTable = ParsedTable(name: string, labels: seq<string>, rows: seq<ParsedRow>)

  /** The errors thrown, `source` being the `sourceLabel` the messages name (`CSV` or the spreadsheet one). */
  datatype ImportError = FileEmpty(source: string) | BadHeader(source: string) | NoLabels | BadTime

  /** `String(cell ?? '').trim()` on every cell. */
  function Normalize(rows: seq<seq<string>>): (r: seq<seq<string>>)
    ensures |r| == |rows|
    ensures forall i :: 0 <= i < |r| ==> |r[i]| == |rows[i]|
  {
    seq(|rows|, i requires 0 <= i < |rows| => seq(|rows[i]|, j requires 0 <= j < |rows[i]| => Trim(rows[i][j])))
  }

  /** `!cells.length || cells.every((cell) => cell === '')`. */
  predicate IsBlank(cells: seq<string>) {
    forall j :: 0 <= j < |cells| ==> cells[j] == ""
  }

  /** The positions of the `true` flags, in ascending order. */
  function Positions(flags: seq<bool>): (ks: seq<nat>)
    ensures forall i :: 0 <= i < |ks| ==> ks[i] < |flags| && flags[ks[i]]
    ensures forall i, j :: 0 <= i < j < |ks| ==> ks[i] < ks[j]
    ensures forall k :: 0 <= k < |flags| && flags[k] ==> k in ks
    decreases |flags|
  {
    if flags == [] then []
    else
      var n := |flags| - 1;
      var ks := Positions(flags[..n]);
      assert forall i :: 0 <= i < |ks| ==> flags[..n][ks[i]] == flags[ks[i]];
      assert forall k :: 0 <= k < n ==> flags[..n][k] == flags[k];
      ks + (if flags[n] then [n] else [])
  }

  /** With every flag set, every position. */
  lemma {:induction false} PositionsAll(flags: seq<bool>)
    requires forall k :: 0 <= k < |flags| ==> flags[k]
    ensures Positions(flags) == Identity(|flags|)
    decreases |flags|
  {
    if flags != [] {
      var n := |flags| - 1;
      assert forall k :: 0 <= k < n ==> flags[..n][k];
      PositionsAll(flags[..n]);
      assert Positions(flags) == Positions(flags[..n]) + [n];
      IdentitySnoc(n);
    }
  }

  lemma {:induction false} IdentitySnoc(n: nat)
    ensures Identity(n + 1) == Identity(n) + [n]
  {
    assert forall i :: 0 <= i < n ==> (Identity(n) + [n])[i] == i;
  }

  /** Which of the header cells after the first hold a label. */
  function Kept(cells: seq<string>): (r: seq<bool>)
    ensures |r| == |cells|
  {
    seq(|cells|, k requires 0 <= k < |cells| => SanitizeText(cells[k]) != "")
  }

  /** The header cells after the first that sanitise to a non-empty label, by position. */
  function LabelColumns(cells: seq<string>): (ks: seq<nat>)
    ensures forall i :: 0 <= i < |ks| ==> ks[i] < |cells| && SanitizeText(cells[ks[i]]) != ""
  {
    Positions(Kept(cells))
  }

  /** `header.slice(1).map(sanitizeText).filter(Boolean)`, given the header cells after the first. */
  function LabelsOf(cells: seq<string>): (r: seq<string>)
    ensures |r| == |LabelColumns(cells)|
    ensures forall i :: 0 <= i < |r| ==> r[i] != "" && IsClean(r[i])
  {
    var ks := LabelColumns(cells);
    seq(|ks|, i requires 0 <= i < |ks| => SanitizeText(cells[ks[i]]))
  }

  /** `Number.parseFloat(cells[k])`, with `null` for a missing cell and for non-finite values. */
  function CellValue(cells: seq<string>, k: nat): Option<real> {
    if k < |cells| then ParseFloat(cells[k]) else None
  }

  /** The values of one data row, the label at position `i` read from column `cols[i] + 1`. */
  function Values(cells: seq<string>, cols: seq<nat>): (r: seq<Option<real>>)
    ensures |r| == |cols|
  {
    seq(|cols|, i requires 0 <= i < |cols| => CellValue(cells, cols[i] + 1))
  }

  /** What one data row contributes: nothing when blank, a rejection when its time does not parse. */
  datatype RowOutcome = Skip | Reject | Keep(row: ParsedRow)

  function ReadRow(cells: seq<string>, cols: seq<nat>): (r: RowOutcome)
    ensures r.Keep? ==> r.row.timeSec >= 0.0 && |r.row.values| == |cols|
  {
    if IsBlank(cells) then Skip
    else match ParseTimeToSec(cells[0])
      case None => Reject
      case Some(t) => Keep(ParsedRow(t, Values(cells, cols)))
  }

  function Outcomes(rs: seq<seq<string>>, cols: seq<nat>): (r: seq<RowOutcome>)
    ensures |r| == |rs|
  {
    seq(|rs|, k requires 0 <= k < |rs| => ReadRow(rs[k], cols))
  }

  /** The rows kept, in order; the first rejection throws. */
  function Collect(os: seq<RowOutcome>): (r: Result<seq<ParsedRow>, ImportError>)
    ensures r.Err? ==> r.error == BadTime
    ensures r.Ok? ==> |r.value| <= |os|
    decreases |os|
  {
    if os == [] then Ok([])
    else
      var n := |os| - 1;
      match Collect(os[..n])
      case Err(e) => Err(e)
      case Ok(done) =>
        match os[n]
        case Skip => Ok(done)
        case Reject => Err(BadTime)
        case Keep(row) => Ok(done + [row])
  }

  /** The data rows: blanks skipped, a row whose time does not parse rejects the whole table. */
  function DataRows(rs: seq<seq<string>>, cols: seq<nat>): (r: Result<seq<ParsedRow>, ImportError>)
    ensures r.Ok? ==> forall k :: 0 <= k < |r.value| ==> r.value[k].timeSec >= 0.0 && |r.value[k].values| == |cols|
  {
    var os := Outcomes(rs, cols);
    CollectWellFormed(os, |cols|);
    Collect(os)
  }

  /** Rows that `ReadRow` keeps have a time and one value per column. */
  predicate KeptWellFormed(os: seq<RowOutcome>, width: nat) {
    forall j :: 0 <= j < |os| ==> os[j].Keep? ==> os[j].row.timeSec >= 0.0 && |os[j].row.values| == width
  }

  lemma {:induction false} CollectWellFormed(os: seq<RowOutcome>, width: nat)
    requires KeptWellFormed(os, width)
    ensures var r := Collect(os);
      r.Ok? ==> forall k :: 0 <= k < |r.value| ==> r.value[k].timeSec >= 0.0 && |r.value[k].values| == width
    decreases |os|
  {
    if os != [] {
      var n := |os| - 1;
      assert KeptWellFormed(os[..n], width) by {
        assert forall j :: 0 <= j < n ==> os[..n][j] == os[j];
      }
      CollectWellFormed(os[..n], width);
    }
  }

  /** `0, 1, …, n - 1`. */
  function Identity(n: nat): (r: seq<nat>)
    ensures |r| == n && forall i :: 0 <= i < n ==> r[i] == i
  {
    seq(n, i => i)
  }

  /**
   * The column after the time column that the value of each label is read from: its own in
   * the corrected reader, the label's position among the kept labels as written.
   */
  function ValueColumns(cells: seq<string>, asWritten: bool): (r: seq<nat>)
    ensures |r| == |LabelColumns(cells)|
  {
    if asWritten then Identity(|LabelColumns(cells)|) else LabelColumns(cells)
  }

  /** The table for the given value columns, the rows already normalised. */
  function Table(normalized: seq<seq<string>>, name: string, source: string, asWritten: bool): (r: Result<ParsedTable, ImportError>)
    ensures r.Ok? ==> r.value.name == name && r.value.labels != []
    ensures r.Ok? ==> forall i :: 0 <= i < |r.value.labels| ==> r.value.labels[i] != "" && IsClean(r.value.labels[i])
    ensures r.Ok? ==> forall k :: 0 <= k < |r.value.rows| ==>
      r.value.rows[k].timeSec >= 0.0 && |r.value.rows[k].values| == |r.value.labels|
  {
    if |normalized| < 2 then Err(FileEmpty(source))
    else
      var header := normalized[1];
      if header == [] || NormalizeLabel(header[0]) != "time" then Err(BadHeader(source))
      else
        var labels := LabelsOf(header[1..]);
        if labels == [] then Err(NoLabels)
        else
          var cols := ValueColumns(header[1..], asWritten);
          match DataRows(normalized[2..], cols)
          case Err(e) => Err(e)
          case Ok(rows) => Ok(ParsedTable(name, labels, rows))
  }

  /**
   * `parseRowsToTable(rows, name, sourceLabel)`: the blank labels are filtered out, but the value
   * of the `i`-th kept label is still read from column `i + 1`.
   */
  function ParseRowsToTable(rows: seq<seq<string>>, name: string, source: string): Result<ParsedTable, ImportError> {
    Table(Normalize(rows), name, source, true)
  }

  /** The evidently intended `parseRowsToTable`: each value read from its own label's column. */
  function ParseRowsToTableByColumn(rows: seq<seq<string>>, name: string, source: string): Result<ParsedTable, ImportError> {
    Table(Normalize(rows), name, source, false)
  }

  /**
   * The intended reader takes the value of kept label `i` from the column of that label's own
   * header cell; the written one from column `i + 1`, which is the same column exactly when no
   * blank label comes before it.
   */
  lemma {:induction false} ValueColumnOfLabel(header: seq<string>, cells: seq<string>, i: nat)
    requires i < |LabelColumns(header)|
    ensures LabelsOf(header)[i] == SanitizeText(header[LabelColumns(header)[i]])
    ensures Values(cells, ValueColumns(header, false))[i] == CellValue(cells, LabelColumns(header)[i] + 1)
    ensures Values(cells, ValueColumns(header, true))[i] == CellValue(cells, i + 1)
  {
    var ks := LabelColumns(header);
    assert ValueColumns(header, false) == ks;
    var ids := ValueColumns(header, true);
    assert ids[i] == i;
  }

  /** `parseRowsToTable`: the `for` loop over the data rows, values read as written. */
  method ParseRowsToTableLoop(rows: seq<seq<string>>, name: string, source: string) returns (r: Result<ParsedTable, ImportError>)
    ensures r == ParseRowsToTable(rows, name, source)
  {
    var normalized := Normalize(rows);
    if |normalized| < 2 {
      return Err(FileEmpty(source));
    }
    var header := normalized[1];
    if header == [] || NormalizeLabel(header[0]) != "time" {
      return Err(BadHeader(source));
    }
    var labels := LabelsOf(header[1..]);
    if labels == [] {
      return Err(NoLabels);
    }
    var cols := ValueColumns(header[1..], true);
    var data := normalized[2..];
    ghost var os := Outcomes(data, cols);
    var dataRows: seq<ParsedRow> := [];
    var i := 0;
    while i < |data|
      invariant 0 <= i <= |data|
      invariant Collect(os[..i]) == Ok(dataRows)
    {
      var cells := data[i];
      assert os[i] == ReadRow(cells, cols);
      if IsBlank(cells) {
        CollectSkip(os, i, dataRows);
        i := i + 1;
        continue;
      }
      var timeSec := ParseTimeToSec(cells[0]);
      if timeSec == None {
        CollectReject(os, i, dataRows);
        return Err(BadTime);
      }
      var row := ParsedRow(timeSec.value, Values(cells, cols));
      CollectKeep(os, i, dataRows, row);
      dataRows := dataRows + [row];
      i := i + 1;
    }
    assert os[..i] == os;
    r := Ok(ParsedTable(name, labels, dataRows));
  }

  lemma {:induction false} CollectSkip(os: seq<RowOutcome>, k: nat, done: seq<ParsedRow>)
    requires k < |os| && os[k] == Skip && Collect(os[..k]) == Ok(done)
    ensures Collect(os[..k + 1]) == Ok(done)
  {
    assert os[..k + 1][..k] == os[..k];
  }

  lemma {:induction false} CollectKeep(os: seq<RowOutcome>, k: nat, done: seq<ParsedRow>, row: ParsedRow)
    requires k < |os| && os[k] == Keep(row) && Collect(os[..k]) == Ok(done)
    ensures Collect(os[..k + 1]) == Ok(done + [row])
  {
    assert os[..k + 1][..k] == os[..k];
  }

  lemma {:induction false} CollectReject(os: seq<RowOutcome>, k: nat, done: seq<ParsedRow>)
    requires k < |os| && os[k] == Reject && Collect(os[..k]) == Ok(done)
    ensures Collect(os) == Err(BadTime)
  {
    assert os[..k + 1][..k] == os[..k];
    CollectErrExtends(os[..k + 1], os[k + 1..]);
    assert os[..k + 1] + os[k + 1..] == os;
  }

  /** Reading rows in two pieces: the data rows of the whole are those of the pieces, in order. */
  lemma {:induction false} CollectAppend(xs: seq<RowOutcome>, ys: seq<RowOutcome>)
    ensures Collect(xs + ys) ==
      match Collect(xs)
      case Err(e) => Err(e)
      case Ok(a) => match Collect(ys) case Err(e) => Err(e) case Ok(b) => Ok(a + b)
    decreases |ys|
  {
    if ys == [] {
      assert xs + ys == xs;
      match Collect(xs)
      case Err(_) =>
      case Ok(a) => assert a + [] == a;
    } else {
      var n := |ys| - 1;
      assert (xs + ys)[..|xs + ys| - 1] == xs + ys[..n];
      assert (xs + ys)[|xs + ys| - 1] == ys[n];
      CollectAppend(xs, ys[..n]);
      match Collect(xs)
      case Err(_) =>
      case Ok(a) =>
        match Collect(ys[..n])
        case Err(_) =>
        case Ok(b) =>
          match ys[n]
          case Skip =>
          case Reject =>
          case Keep(row) => assert a + b + [row] == a + (b + [row]);
    }
  }

  /** Once a row is rejected, later rows do not matter. */
  lemma {:induction false} CollectErrExtends(xs: seq<RowOutcome>, ys: seq<RowOutcome>)
    requires Collect(xs).Err?
    ensures Collect(xs + ys) == Err(BadTime)
  {
    CollectAppend(xs, ys);
  }

  /** The outcomes of rows in pieces are the outcomes of the pieces. */
  lemma {:induction false} OutcomesAppend(xs: seq<seq<string>>, ys: seq<seq<string>>, cols: seq<nat>)
    ensures Outcomes(xs + ys, cols) == Outcomes(xs, cols) + Outcomes(ys, cols)
  {
    assert forall k :: 0 <= k < |xs + ys| ==> (xs + ys)[k] == if k < |xs| then xs[k] else ys[k - |xs|];
  }

  /** A blank row anywhere after the header changes nothing. */
  lemma {:induction false} BlankRowSkipped(rows: seq<seq<string>>, k: nat, blank: seq<string>, name: string, source: string)
    requires 2 <= k <= |rows|
    requires forall j :: 0 <= j < |blank| ==> Trim(blank[j]) == ""
    ensures ParseRowsToTable(rows[..k] + [blank] + rows[k..], name, source) == ParseRowsToTable(rows, name, source)
  {
    var with := rows[..k] + [blank] + rows[k..];
    var n, m := Normalize(rows), Normalize(with);
    NormalizeInserted(rows, k, blank);
    var b := m[k];
    assert n[2..] == n[2..k] + n[k..];
    if n[1] != [] && NormalizeLabel(n[1][0]) == "time" {
      var cols := ValueColumns(n[1][1..], true);
      BlankOutcomes(n[2..k], b, n[k..], cols);
    }
    SameHeaderSameData(m, n, name, source);
  }

  /** Normalising with a blank row inserted at `k` inserts a blank normalised row there. */
  lemma {:induction false} NormalizeInserted(rows: seq<seq<string>>, k: nat, blank: seq<string>)
    requires 2 <= k <= |rows|
    requires forall j :: 0 <= j < |blank| ==> Trim(blank[j]) == ""
    ensures var n, m := Normalize(rows), Normalize(rows[..k] + [blank] + rows[k..]);
      |m| == |n| + 1 && IsBlank(m[k]) && m[1] == n[1] && m[2..] == n[2..k] + [m[k]] + n[k..]
  {
    var with := rows[..k] + [blank] + rows[k..];
    var n, m := Normalize(rows), Normalize(with);
    assert forall i :: 0 <= i < |with| ==> with[i] == if i < k then rows[i] else if i == k then blank else rows[i - 1];
    assert m[1] == n[1];
    assert m[2..] == n[2..k] + [m[k]] + n[k..];
  }

  /** Two normalised tables with the same header and the same data outcome are the same table. */
  lemma {:induction false} SameHeaderSameData(m: seq<seq<string>>, n: seq<seq<string>>, name: string, source: string)
    requires |m| >= 2 && |n| >= 2 && m[1] == n[1]
    requires n[1] != [] && NormalizeLabel(n[1][0]) == "time" ==>
               DataRows(m[2..], ValueColumns(n[1][1..], true)) == DataRows(n[2..], ValueColumns(n[1][1..], true))
    ensures Table(m, name, source, true) == Table(n, name, source, true)
  {
  }

  lemma {:induction false} BlankOutcomes(xs: seq<seq<string>>, b: seq<string>, ys: seq<seq<string>>, cols: seq<nat>)
    requires IsBlank(b)
    ensures DataRows(xs + [b] + ys, cols) == DataRows(xs + ys, cols)
  {
    OutcomesAppend(xs + [b], ys, cols);
    OutcomesAppend(xs, [b], cols);
    OutcomesAppend(xs, ys, cols);
    var ox, oy := Outcomes(xs, cols), Outcomes(ys, cols);
    assert Outcomes([b], cols) == [Skip];
    CollectAppend(ox + [Skip], oy);
    CollectAppend(ox, [Skip]);
    CollectAppend(ox, oy);
    assert [Skip][..0] == [];
    match Collect(ox)
    case Err(_) =>
    case Ok(a) => assert a + [] == a;
  }

  /** When every data row is kept, there is one parsed row per data row, in order. */
  lemma {:induction false} CollectAllKept(os: seq<RowOutcome>)
    requires forall k :: 0 <= k < |os| ==> os[k].Keep?
    ensures Collect(os).Ok? && |Collect(os).value| == |os|
    ensures forall k :: 0 <= k < |os| ==> Collect(os).value[k] == os[k].row
    decreases |os|
  {
    if os != [] {
      var n := |os| - 1;
      assert forall k :: 0 <= k < n ==> os[..n][k] == os[k];
      CollectAllKept(os[..n]);
    }
  }

  // ------------------------------------------------------------------ the column shift

  /** The shift: a blank header cell before a label moves that label's values one column left. */
  lemma {:induction false} ParseRowsToTableShiftsColumns()
    ensures ParseRowsToTable(ExampleRows(), "g", "CSV")
         == Ok(ParsedTable("g", ["a"], [ParsedRow(1.0, [Some(5.0)])]))
    ensures ParseRowsToTableByColumn(ExampleRows(), "g", "CSV")
         == Ok(ParsedTable("g", ["a"], [ParsedRow(1.0, [Some(7.0)])]))
  {
    ExampleTable(true);
    ExampleTable(false);
  }

  lemma {:induction false} ExampleTable(asWritten: bool)
    ensures Table(Normalize(ExampleRows()), "g", "CSV", asWritten)
         == Ok(ParsedTable("g", ["a"], [ParsedRow(1.0, [Some(if asWritten then 5.0 else 7.0)])]))
  {
    var rows := ExampleRows();
    ExampleNormal();
    ExampleHeader();
    var header := rows[1];
    assert header[0] == "time" && header[1..] == ["", "a"];
    var cols := ValueColumns(["", "a"], asWritten);
    assert Identity(1) == [0];
    assert cols == if asWritten then [0] else [1];
    assert rows[2..] == [ExampleDataRow()];
    ExampleData(cols);
    TableOfParts(rows, "g", "CSV", asWritten, ["a"], cols, [ParsedRow(1.0, [Some(if asWritten then 5.0 else 7.0)])]);
  }

  /** `Table` when the header, the labels, the columns and the data rows are known. */
  lemma {:induction false} TableOfParts(normalized: seq<seq<string>>, name: string, source: string, asWritten: bool,
                                        labels: seq<string>, cols: seq<nat>, rows: seq<ParsedRow>)
    requires |normalized| >= 2 && normalized[1] != [] && NormalizeLabel(normalized[1][0]) == "time"
    requires LabelsOf(normalized[1][1..]) == labels != []
    requires ValueColumns(normalized[1][1..], asWritten) == cols
    requires DataRows(normalized[2..], cols) == Ok(rows)
    ensures Table(normalized, name, source, asWritten) == Ok(ParsedTable(name, labels, rows))
  {
  }

  /** An empty first row, a header with a blank cell before the label `a`, one data row. */
  function ExampleRows(): seq<seq<string>> {
    [[], ["time", "", "a"], ExampleDataRow()]
  }

  function ExampleDataRow(): seq<string> {
    ["1", "5", "7"]
  }

  lemma {:induction false} ExampleNormal()
    ensures Normalize(ExampleRows()) == ExampleRows()
  {
    TrimNoOp("time");
    TrimNoOp("a");
    TrimNoOp("1");
    TrimNoOp("5");
    TrimNoOp("7");
    assert Trim("") == "";
    var rows, n := ExampleRows(), Normalize(ExampleRows());
    assert n[0] == rows[0];
    assert n[1] == rows[1] by {
      assert n[1][0] == Trim("time") && n[1][1] == Trim("") && n[1][2] == Trim("a");
    }
    assert n[2] == rows[2] by {
      assert n[2][0] == Trim("1") && n[2][1] == Trim("5") && n[2][2] == Trim("7");
    }
  }

  lemma {:induction false} ExampleHeader()
    ensures NormalizeLabel("time") == "time"
    ensures LabelColumns(["", "a"]) == [1] && LabelsOf(["", "a"]) == ["a"]
  {
    TimeLabel();
    ExampleLabels();
  }

  lemma {:induction false} TimeLabel()
    ensures NormalizeLabel("time") == "time"
  {
    LowerAt("time", 0);
    LowerAt("time", 1);
    LowerAt("time", 2);
    LowerAt("time", 3);
    TrimNoOp("time");
  }

  lemma {:induction false} ExampleLabels()
    ensures LabelColumns(["", "a"]) == [1] && LabelsOf(["", "a"]) == ["a"]
  {
    SanitizeLetter();
    SanitizeEmpty();
    SecondLabelOnly(["", "a"]);
  }

  /** Two header cells of which only the second holds a (clean) label. */
  lemma {:induction false} SecondLabelOnly(cells: seq<string>)
    requires |cells| == 2 && SanitizeText(cells[0]) == "" && SanitizeText(cells[1]) == cells[1] != ""
    ensures LabelColumns(cells) == [1] && LabelsOf(cells) == [cells[1]]
  {
    var flags := Kept(cells);
    assert flags[0] == false && flags[1] == true;
    assert flags == [false, true];
    PositionsSecond();
    var ks := LabelColumns(cells);
    assert ks == [1];
    var labels := LabelsOf(cells);
    assert |labels| == 1 && labels[0] == SanitizeText(cells[1]);
  }

  lemma {:induction false} PositionsSecond()
    ensures Positions([false, true]) == [1]
  {
    assert [false, true][..1] == [false] && [false][..0] == [];
  }

  lemma {:induction false} ExampleData(cols: seq<nat>)
    requires cols == [0] || cols == [1]
    ensures DataRows([ExampleDataRow()], cols)
         == Ok([ParsedRow(1.0, [Some(if cols == [0] then 5.0 else 7.0)])])
  {
    var cells := ExampleDataRow();
    var v := if cols == [0] then 5.0 else 7.0;
    var row := ParsedRow(1.0, [Some(v)]);
    ExampleRead(cols);
    assert Outcomes([cells], cols) == [Keep(row)];
    CollectOne(row);
  }

  lemma {:induction false} ExampleRead(cols: seq<nat>)
    requires cols == [0] || cols == [1]
    ensures ReadRow(ExampleDataRow(), cols) == Keep(ParsedRow(1.0, [Some(if cols == [0] then 5.0 else 7.0)]))
  {
    var cells := ExampleDataRow();
    var v := if cols == [0] then 5.0 else 7.0;
    ExampleTime();
    ExampleCell(cols[0]);
    ValuesOne(cells, cols, v);
    ReadRowKeeps(cells, cols, 1.0, [Some(v)]);
  }

  lemma {:induction false} ExampleTime()
    ensures ParseTimeToSec(ExampleDataRow()[0]) == Some(1.0)
  {
    ParseTimeOfNat(1);
    assert ExampleDataRow()[0] == [DigitChar(1)];
  }

  lemma {:induction false} ExampleCell(c: nat)
    requires c < 2
    ensures ParseFloat(ExampleDataRow()[c + 1]) == Some(if c == 0 then 5.0 else 7.0)
  {
    if c == 0 {
      ParseSmallNat(5);
      assert ExampleDataRow()[1] == [DigitChar(5)];
    } else {
      ParseSmallNat(7);
      assert ExampleDataRow()[2] == [DigitChar(7)];
    }
  }

  lemma {:induction false} ValuesOne(cells: seq<string>, cols: seq<nat>, v: real)
    requires |cols| == 1 && cols[0] + 1 < |cells| && ParseFloat(cells[cols[0] + 1]) == Some(v)
    ensures Values(cells, cols) == [Some(v)]
  {
  }

  lemma {:induction false} ReadRowKeeps(cells: seq<string>, cols: seq<nat>, t: real, vs: seq<Option<real>>)
    requires cells != [] && cells[0] != "" && ParseTimeToSec(cells[0]) == Some(t) && Values(cells, cols) == vs
    ensures ReadRow(cells, cols) == Keep(ParsedRow(t, vs))
  {
  }

  lemma {:induction false} CollectOne(row: ParsedRow)
    ensures Collect([Keep(row)]) == Ok([row])
  {
    assert [Keep(row)][..0] == [];
    assert [] + [row] == [row];
  }

  lemma {:induction false} SanitizeEmpty()
    ensures SanitizeText("") == ""
  {
  }

  lemma {:induction false} SanitizeLetter()
    ensures SanitizeText("a") == "a"
  {
    StripMarkupKeepsOthers("a");
    CollapseWhitespaceNoOp("a");
    TrimNoOp("a");
  }

  lemma {:induction false} ParseSmallNat(d: nat)
    requires d < 10
    ensures ParseFloat([DigitChar(d)]) == Some(d as real)
  {
    LoggerXlsx.NatToStringSmall(d);
    ParseFloatOfNatToString(d);
  }

  lemma {:induction false} ParseTimeOfNat(d: nat)
    requires d < 10
    ensures ParseTimeToSec([DigitChar(d)]) == Some(d as real)
  {
    ParseSmallNat(d);
    var s := [DigitChar(d)];
    TrimNoOp(s);
    LowerAt(s, 0);
    assert Lower(s) == s;
    assert !EndsWith(s, "s");
  }

  /** Without blank header cells between labels the written form and the corrected one agree. */
  lemma {:induction false} ParseRowsToTableAgreesWithoutGaps(rows: seq<seq<string>>, name: string, source: string)
    requires |rows| >= 2 && |rows[1]| >= 1
    requires forall k :: 1 <= k < |rows[1]| ==> SanitizeText(Trim(rows[1][k])) != ""
    ensures ParseRowsToTable(rows, name, source) == ParseRowsToTableByColumn(rows, name, source)
  {
    var n := Normalize(rows);
    var hs := n[1][1..];
    var flags := Kept(hs);
    assert forall k :: 0 <= k < |flags| ==> flags[k] by {
      forall k | 0 <= k < |flags|
        ensures flags[k]
      {
        assert hs[k] == Trim(rows[1][k + 1]);
      }
    }
    PositionsAll(flags);
    SameColumns(n, name, source);
  }

  /** The two readings agree when the kept labels are exactly the columns in order. */
  lemma {:induction false} SameColumns(n: seq<seq<string>>, name: string, source: string)
    requires |n| >= 2 && |n[1]| >= 1 && LabelColumns(n[1][1..]) == Identity(|Kept(n[1][1..])|)
    ensures Table(n, name, source, true) == Table(n, name, source, false)
  {
    var hs := n[1][1..];
    assert |LabelColumns(hs)| == |hs|;
    assert ValueColumns(hs, true) == ValueColumns(hs, false);
  }
}
