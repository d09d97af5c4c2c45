/**
 * The spreadsheet import of logger/app.js read against its export: a worksheet `buildSheetXml`
 * writes for a table, read back by `parseSheetXmlRows` and `parseRowsToTable`, gives the table's
 * labels and, for each row, its time in seconds as the sheet shows it and its values.
 */
module LoggerReadBack {
  import opened Wrappers
  import opened Text
  import opened LoggerLabels
  import opened LoggerTable
  import opened LoggerXlsx
  import opened LoggerDecode
  import opened LoggerSheets
  import LoggerRows

  /**
   * The rows `parseRowsToTable` gives for the exported rows: each row's values, and the seconds its
   * time cell shows, which `formatSeconds` writes without the zeros of a whole number of seconds.
   */
  function Imported(rows: seq<Row>): (r: seq<LoggerRows.ParsedRow>)
    ensures |r| == |rows|
  {
    seq(|rows|, k requires 0 <= k < |rows| => LoggerRows.ParsedRow(ShownSeconds(rows[k].offset), rows[k].values))
  }

  /** `show` gives every value of the table a text that `parseFloat` reads back as that value. */
  predicate ShowsValues(rows: seq<Row>, show: real -> string) {
    forall k, j :: 0 <= k < |rows| && 0 <= j < |rows[k].values| && rows[k].values[j].Some? ==>
      ParseFloat(Trim(show(rows[k].values[j].value))) == Some(rows[k].values[j].value)
  }

  /**
   * Importing the worksheet exported for `table` gives its labels, and each row with the seconds
   * its time cell shows and its values, whatever the shared strings and the name.
   */
  lemma {:induction false} SheetImportRoundTrip(table: Table, show: real -> string, shared: seq<string>, name: string, source: string)
    requires table.labels != []
    requires forall i :: 0 <= i < |table.labels| ==> table.labels[i] != "" && IsClean(table.labels[i])
    requires forall k :: 0 <= k < |table.rows| ==> |table.rows[k].values| == |table.labels|
    requires ShowsValues(table.rows, show)
    ensures LoggerRows.ParseRowsToTable(SheetXmlRows(SheetRows(table, show), shared), name, source)
         == Ok(LoggerRows.ParsedTable(name, table.labels, Imported(table.rows)))
  {
    ReadSheet(table, show, shared);
    forall k | 0 <= k < |table.rows|
      ensures SheetXmlRows(SheetRows(table, show), shared)[k + 2] == RowCells(DataCells(k + 3, table.rows[k], show), shared)
    {
      ReadSheetRow(table, show, shared, k);
    }
    ImportReadRows(SheetXmlRows(SheetRows(table, show), shared), table.labels, table.rows, show, shared, name, source);
  }

  /**
   * So the import gives back the exported times exactly when no row sits at a positive whole
   * multiple of ten seconds; a row at 10 s comes back at 1 s.
   */
  lemma {:induction false} ImportedTimesExact(rows: seq<Row>)
    ensures (forall k :: 0 <= k < |rows| ==> Imported(rows)[k].timeSec == Seconds(rows[k].offset))
        <==> (forall k :: 0 <= k < |rows| ==> !WholeTens(rows[k].offset))
  {
    forall k | 0 <= k < |rows|
      ensures Imported(rows)[k].timeSec == Seconds(rows[k].offset) <==> !WholeTens(rows[k].offset)
    {
      ShownSecondsExact(rows[k].offset);
    }
  }

  /** The rows `parseSheetXmlRows` reads from the exported sheet: an empty row, the header, then the data rows. */
  lemma {:induction false} ReadSheet(table: Table, show: real -> string, shared: seq<string>)
    ensures |SheetXmlRows(SheetRows(table, show), shared)| == |table.rows| + 2
    ensures SheetXmlRows(SheetRows(table, show), shared)[1] == ["time"] + table.labels
  {
    var rs := SheetRows(table, show);
    SheetNumbers(table, show);
    SheetRowsInOrder(rs, shared);
    HeaderReadBack(table.labels, shared);
  }

  lemma {:induction false} ReadSheetRow(table: Table, show: real -> string, shared: seq<string>, k: nat)
    requires k < |table.rows|
    ensures |SheetXmlRows(SheetRows(table, show), shared)| == |table.rows| + 2
    ensures SheetXmlRows(SheetRows(table, show), shared)[k + 2] == RowCells(DataCells(k + 3, table.rows[k], show), shared)
  {
    var rs := SheetRows(table, show);
    SheetNumbers(table, show);
    SheetRowsInOrder(rs, shared);
    SheetRowAt(table, show, k);
  }

  /** `parseRowsToTable` on the rows read from an exported sheet. */
  lemma {:induction false} ImportReadRows(read: seq<seq<string>>, labels: seq<string>, rows: seq<Row>, show: real -> string,
                                          shared: seq<string>, name: string, source: string)
    requires labels != []
    requires forall i :: 0 <= i < |labels| ==> labels[i] != "" && IsClean(labels[i])
    requires forall k :: 0 <= k < |rows| ==> |rows[k].values| == |labels|
    requires ShowsValues(rows, show)
    requires |read| == |rows| + 2 && read[1] == ["time"] + labels
    requires forall k :: 0 <= k < |rows| ==> read[k + 2] == RowCells(DataCells(k + 3, rows[k], show), shared)
    ensures LoggerRows.ParseRowsToTable(read, name, source) == Ok(LoggerRows.ParsedTable(name, labels, Imported(rows)))
  {
    var normalized := LoggerRows.Normalize(read);
    HeaderNormalized(labels, normalized[1], read[1]);
    assert normalized[1][1..] == labels;
    LabelsReadBack(labels);
    ImportDataRows(read, normalized, labels, rows, show, shared);
  }

  /** Every data row read from an exported sheet is kept, in order. */
  lemma {:induction false} ImportDataRows(read: seq<seq<string>>, normalized: seq<seq<string>>, labels: seq<string>, rows: seq<Row>,
                                          show: real -> string, shared: seq<string>)
    requires forall k :: 0 <= k < |rows| ==> |rows[k].values| == |labels|
    requires ShowsValues(rows, show)
    requires |read| == |rows| + 2
    requires forall k :: 0 <= k < |rows| ==> read[k + 2] == RowCells(DataCells(k + 3, rows[k], show), shared)
    requires normalized == LoggerRows.Normalize(read)
    ensures LoggerRows.DataRows(normalized[2..], LoggerRows.Identity(|labels|)) == Ok(Imported(rows))
  {
    var cols := LoggerRows.Identity(|labels|);
    var data := normalized[2..];
    var os := LoggerRows.Outcomes(data, cols);
    var imp := Imported(rows);
    forall k | 0 <= k < |rows|
      ensures os[k] == LoggerRows.Keep(imp[k])
    {
      DataOutcome(read[k + 2], data[k], rows, k, show, shared);
    }
    assert |os| == |imp|;
    CollectImported(os, imp);
    assert LoggerRows.DataRows(data, cols) == LoggerRows.Collect(os);
  }

  lemma {:induction false} CollectImported(os: seq<LoggerRows.RowOutcome>, imp: seq<LoggerRows.ParsedRow>)
    requires |os| == |imp| && forall k :: 0 <= k < |os| ==> os[k] == LoggerRows.Keep(imp[k])
    ensures LoggerRows.Collect(os) == Ok(imp)
  {
    LoggerRows.CollectAllKept(os);
    var got := LoggerRows.Collect(os).value;
    forall k | 0 <= k < |os|
      ensures got[k] == imp[k]
    {
      assert got[k] == os[k].row;
    }
    assert got == imp;
  }

  /** The exported rows are numbered 1, 2, 3, … in order. */
  lemma {:induction false} SheetNumbers(table: Table, show: real -> string)
    ensures var rs := SheetRows(table, show);
      forall k :: 0 <= k < |rs| ==> RowNumber(rs[k].r, k) == k + 1
  {
    var rs := SheetRows(table, show);
    forall k | 0 <= k < |rs|
      ensures RowNumber(rs[k].r, k) == k + 1
    {
      if k == 0 {
        assert rs[k].r == "1" == NatToString(1);
      } else if k == 1 {
        assert rs[k].r == "2" == NatToString(2);
      } else {
        SheetRowAt(table, show, k - 2);
      }
      ParseIntOfNatToString(k + 1);
    }
  }

  lemma {:induction false} SheetRowAt(table: Table, show: real -> string, k: nat)
    requires k < |table.rows|
    ensures SheetRows(table, show)[k + 2] == DataRow(k + 3, table.rows[k], show)
    ensures SheetRows(table, show)[k + 2].cells == DataCells(k + 3, table.rows[k], show)
  {
  }

  /** The header row needs no trimming. */
  lemma {:induction false} HeaderNormalized(labels: seq<string>, h: seq<string>, raw: seq<string>)
    requires forall i :: 0 <= i < |labels| ==> labels[i] != "" && IsClean(labels[i])
    requires raw == ["time"] + labels
    requires |h| == |raw| && forall j :: 0 <= j < |raw| ==> h[j] == Trim(raw[j])
    ensures h == ["time"] + labels
    ensures NormalizeLabel(h[0]) == "time"
  {
    forall j | 0 <= j < |raw|
      ensures h[j] == raw[j]
    {
      TrimNoOp(raw[j]);
    }
    LowerNoOp("time");
  }

  /** Labels written into the header are read back as the same labels, from their own columns. */
  lemma {:induction false} LabelsReadBack(labels: seq<string>)
    requires forall i :: 0 <= i < |labels| ==> labels[i] != "" && IsClean(labels[i])
    ensures LoggerRows.LabelColumns(labels) == LoggerRows.Identity(|labels|)
    ensures LoggerRows.LabelsOf(labels) == labels
  {
    forall i | 0 <= i < |labels|
      ensures SanitizeText(labels[i]) == labels[i]
    {
      SanitizeTextOfClean(labels[i]);
    }
    var flags := LoggerRows.Kept(labels);
    LoggerRows.PositionsAll(flags);
  }

  lemma {:induction false} DataOutcome(x: seq<string>, y: seq<string>, rows: seq<Row>, k: nat, show: real -> string, shared: seq<string>)
    requires k < |rows| && ShowsValues(rows, show)
    requires x == RowCells(DataCells(k + 3, rows[k], show), shared)
    requires |y| == |x| && forall j :: 0 <= j < |x| ==> y[j] == Trim(x[j])
    ensures LoggerRows.ReadRow(y, LoggerRows.Identity(|rows[k].values|)) == LoggerRows.Keep(Imported(rows)[k])
  {
    DataRowReadBack(k + 3, rows[k], show, shared);
    DataRowImport(x, y, rows, k, show);
  }

  /** A data row read back from the sheet is kept, with the time its cell shows and its values. */
  lemma {:induction false} DataRowImport(x: seq<string>, y: seq<string>, rows: seq<Row>, k: nat, show: real -> string)
    requires k < |rows| && ShowsValues(rows, show)
    requires ReadsBackAs(x, rows[k], show)
    requires |y| == |x| && forall j :: 0 <= j < |x| ==> y[j] == Trim(x[j])
    ensures LoggerRows.ReadRow(y, LoggerRows.Identity(|rows[k].values|))
         == LoggerRows.Keep(LoggerRows.ParsedRow(ShownSeconds(rows[k].offset), rows[k].values))
  {
    var vs := rows[k].values;
    TimeCellImport(x[0], rows[k].offset);
    assert y[0] == Trim(x[0]) != "";
    forall j | 0 <= j < |vs|
      ensures LoggerRows.CellValue(y, j + 1) == vs[j]
    {
      ValueCellImport(x, y, rows, k, j, show);
    }
    ValuesInOrder(y, vs);
    LoggerRows.ReadRowKeeps(y, LoggerRows.Identity(|vs|), ShownSeconds(rows[k].offset), vs);
  }

  /** Values read from the columns after the time column, in order. */
  lemma {:induction false} ValuesInOrder(y: seq<string>, vs: seq<Option<real>>)
    requires forall j :: 0 <= j < |vs| ==> LoggerRows.CellValue(y, j + 1) == vs[j]
    ensures LoggerRows.Values(y, LoggerRows.Identity(|vs|)) == vs
  {
    var ids := LoggerRows.Identity(|vs|);
    var got := LoggerRows.Values(y, ids);
    forall j | 0 <= j < |vs|
      ensures got[j] == vs[j]
    {
      assert ids[j] == j;
    }
  }

  /** The time cell reads back as the seconds it shows, trimmed or not. */
  lemma {:induction false} TimeCellImport(t: string, offset: nat)
    requires t == FormatSecondsAsWritten(offset)
    ensures ParseTimeToSec(Trim(t)) == Some(ShownSeconds(offset))
    ensures Trim(t) != ""
  {
    FormatSecondsAsWrittenReadBackAll(offset);
    TrimIdempotent(t);
  }

  lemma {:induction false} ValueCellImport(x: seq<string>, y: seq<string>, rows: seq<Row>, k: nat, j: nat, show: real -> string)
    requires k < |rows| && j < |rows[k].values| && ShowsValues(rows, show)
    requires (if j + 1 < |x| then x[j + 1] else "") == (if rows[k].values[j].Some? then show(rows[k].values[j].value) else "")
    requires |y| == |x| && forall i :: 0 <= i < |x| ==> y[i] == Trim(x[i])
    ensures LoggerRows.CellValue(y, j + 1) == rows[k].values[j]
  {
    var v := rows[k].values[j];
    ParseFloatEmpty();
    if v.Some? {
      assert ParseFloat(Trim(show(v.value))) == Some(v.value);
      assert Trim("") == "";
      assert j + 1 < |x|;
    } else if j + 1 < |x| {
      assert y[j + 1] == Trim("") == "";
    }
  }

  /** An empty cell is not a number. */
  lemma {:induction false} ParseFloatEmpty()
    ensures ParseFloat("") == None
  {
    assert TrimStart("") == "";
    assert SplitSign("") == (false, "");
  }
}
