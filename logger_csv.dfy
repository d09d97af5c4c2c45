/**
 * `parseCsvRows` of logger/app.js: a quote-aware state machine in the style of section 2 of
 * RFC 4180. Outside quotes `,` ends a field, `\n` ends a record and `\r` is skipped; a `"`
 * opens a quoted field, inside which `""` stands for one `"` and a lone `"` closes the quotes.
 * One leading byte-order mark is dropped first.
 *
 * The logger has no CSV writer of its own, so the reader's partner here is a writer for the
 * same format (`WriteCsv`), and the round trip between the two is proved.
 */
module LoggerCsv {

  /** The reader's variables between two characters: finished rows, the open row, the open field. */
  datatype CsvState = CsvState(rows: seq<seq<string>>, row: seq<string>, current: string, inQuotes: bool)

  const Bom: char := '\U{FEFF}'

  const Start := CsvState([], [], "", false)

  /** `text.replace(/^\uFEFF/, '')`. */
  function StripBom(text: string): (r: string)
    ensures r == text || (text != [] && text[0] == Bom && r == text[1..])
  {
    if text != [] && text[0] == Bom then text[1..] else text
  }

  /** The loop of `parseCsvRows` from some state over the rest of the input. */
  function Scan(s: string, st: CsvState): CsvState
    decreases |s|
  {
    if s == [] then st
    else
      var c := s[0];
      if st.inQuotes then
        if c == '"' then
          if |s| > 1 && s[1] == '"' then Scan(s[2..], st.(current := st.current + ['"']))
          else Scan(s[1..], st.(inQuotes := false))
        else Scan(s[1..], st.(current := st.current + [c]))
      else if c == '"' then Scan(s[1..], st.(inQuotes := true))
      else if c == ',' then Scan(s[1..], st.(row := st.row + [st.current], current := ""))
      else if c == '\n' then Scan(s[1..], CsvState(st.rows + [st.row + [st.current]], [], "", false))
      else if c == '\r' then Scan(s[1..], st)
      else Scan(s[1..], st.(current := st.current + [c]))
  }

  /** After the loop: an open field or row is pushed as the last row. */
  function Finish(st: CsvState): seq<seq<string>> {
    if |st.current| > 0 || |st.row| > 0 then st.rows + [st.row + [st.current]] else st.rows
  }

  /** The rows `parseCsvRows(text)` returns. */
  function CsvRows(text: string): seq<seq<string>> {
    Finish(Scan(StripBom(text), Start))
  }

  /** `parseCsvRows(text)`: the index loop, with the `""` look-ahead stepping over two characters. */
  method ParseCsvRows(text: string) returns (result: seq<seq<string>>)
    ensures result == CsvRows(text)
  {
    var rows: seq<seq<string>> := [];
    var row: seq<string> := [];
    var current := "";
    var inQuotes := false;
    var input := StripBom(text);
    var i := 0;
    while i < |input|
      invariant 0 <= i <= |input|
      invariant Finish(Scan(input[i..], CsvState(rows, row, current, inQuotes))) == CsvRows(text)
      decreases |input| - i
    {
      var c := input[i];
      ghost var s := input[i..];
      assert s[0] == c && s[1..] == input[i + 1..];
      if inQuotes {
        if c == '"' {
          if i + 1 < |input| && input[i + 1] == '"' {
            assert s[1] == input[i + 1] && s[2..] == input[i + 2..];
            current := current + ['"'];
            i := i + 1;
          } else {
            inQuotes := false;
          }
        } else {
          current := current + [c];
        }
      } else if c == '"' {
        inQuotes := true;
      } else if c == ',' {
        row := row + [current];
        current := "";
      } else if c == '\n' {
        rows := rows + [row + [current]];
        row := [];
        current := "";
      } else if c == '\r' {
      } else {
        current := current + [c];
      }
      i := i + 1;
    }
    assert input[i..] == [];
    if |current| > 0 || |row| > 0 {
      row := row + [current];
      rows := rows + [row];
    }
    result := rows;
  }

  // ------------------------------------------------------------------ the writer

  /** The characters that force a field into quotes. */
  predicate IsSpecial(c: char) {
    c == '"' || c == ',' || c == '\n' || c == '\r' || c == Bom
  }

  predicate NeedsQuotes(f: string) {
    exists i :: 0 <= i < |f| && IsSpecial(f[i])
  }

  /** Every `"` of a field written twice. */
  function DoubleQuotes(f: string): (r: string)
    ensures |r| >= |f|
    decreases |f|
  {
    if f == [] then [] else (if f[0] == '"' then "\"\"" else [f[0]]) + DoubleQuotes(f[1..])
  }

  /** A field as written: bare when it holds nothing special, quoted with doubled quotes otherwise. */
  function WriteField(f: string): (r: string)
    ensures NeedsQuotes(f) ==> r != [] && r[0] == '"'
  {
    if NeedsQuotes(f) then "\"" + DoubleQuotes(f) + "\"" else f
  }

  /** The fields of one record joined by commas. */
  function WriteFields(fs: seq<string>): string
    decreases |fs|
  {
    if fs == [] then []
    else if |fs| == 1 then WriteField(fs[0])
    else WriteField(fs[0]) + "," + WriteFields(fs[1..])
  }

  /** The line endings a writer may use: LF or CRLF. */
  predicate IsEol(eol: string) {
    eol == "\n" || eol == "\r\n"
  }

  /** Records written one after the other, each ended by `eol`. */
  function WriteCsv(rows: seq<seq<string>>, eol: string): string
    decreases |rows|
  {
    if rows == [] then [] else WriteFields(rows[0]) + eol + WriteCsv(rows[1..], eol)
  }

  /** The quoted part of a field, from inside the quotes to just past the closing one. */
  lemma {:induction false} ScanQuoted(f: string, rest: string, st: CsvState)
    requires st.inQuotes
    requires rest == [] || rest[0] != '"'
    ensures Scan(DoubleQuotes(f) + "\"" + rest, st) == Scan(rest, st.(current := st.current + f, inQuotes := false))
    decreases |f|
  {
    var s := DoubleQuotes(f) + "\"" + rest;
    if f == [] {
      assert s == "\"" + rest;
      assert s[1..] == rest;
      assert st.current + f == st.current;
    } else {
      var tail := DoubleQuotes(f[1..]) + "\"" + rest;
      var st' := st.(current := st.current + [f[0]]);
      if f[0] == '"' {
        assert s == "\"\"" + tail;
        assert s[1] == '"' && s[2..] == tail;
      } else {
        assert s == [f[0]] + tail;
        assert s[1..] == tail;
      }
      assert Scan(s, st) == Scan(tail, st');
      ScanQuoted(f[1..], rest, st');
      assert st'.current + f[1..] == st.current + f;
    }
  }

  /** A bare field outside quotes is copied into the open field. */
  lemma {:induction false} ScanBare(f: string, rest: string, st: CsvState)
    requires !st.inQuotes
    requires !NeedsQuotes(f)
    ensures Scan(f + rest, st) == Scan(rest, st.(current := st.current + f))
    decreases |f|
  {
    if f == [] {
      assert f + rest == rest;
      assert st.current + f == st.current;
    } else {
      var s := f + rest;
      assert !IsSpecial(f[0]);
      assert s[0] == f[0] && s[1..] == f[1..] + rest;
      assert !NeedsQuotes(f[1..]) by {
        forall i | 0 <= i < |f[1..]| ensures !IsSpecial(f[1..][i]) {
          assert f[1..][i] == f[i + 1];
        }
      }
      ScanBare(f[1..], rest, st.(current := st.current + [f[0]]));
      assert st.current + [f[0]] + f[1..] == st.current + f;
    }
  }

  /** One field as written, started with an empty open field and followed by a non-quote. */
  lemma {:induction false} ScanField(f: string, rest: string, st: CsvState)
    requires !st.inQuotes && st.current == ""
    requires rest == [] || rest[0] != '"'
    ensures Scan(WriteField(f) + rest, st) == Scan(rest, st.(current := f))
  {
    if NeedsQuotes(f) {
      ScanQuotedField(f, rest, st, WriteField(f) + rest);
    } else {
      ScanBare(f, rest, st);
      assert st.current + f == f;
    }
  }

  /** A quoted field: the opening quote enters the quoted state, the rest is `ScanQuoted`. */
  lemma {:induction false} ScanQuotedField(f: string, rest: string, st: CsvState, s: string)
    requires !st.inQuotes && st.current == ""
    requires rest == [] || rest[0] != '"'
    requires s == "\"" + DoubleQuotes(f) + "\"" + rest
    ensures Scan(s, st) == Scan(rest, st.(current := f))
  {
    var st' := st.(inQuotes := true);
    var inner := DoubleQuotes(f) + "\"" + rest;
    assert s[0] == '"' && s[1..] == inner;
    ScanQuoted(f, rest, st');
    assert st'.(current := st'.current + f, inQuotes := false) == st.(current := f);
  }

  /** A written first character of a line ending is never a quote. */
  lemma {:induction false} EolStart(eol: string, rest: string)
    requires IsEol(eol)
    ensures (eol + rest)[0] != '"'
  {
  }

  /** A record as written, with its line ending, appends itself to the open row and ends it. */
  lemma {:induction false} ScanFields(fs: seq<string>, eol: string, rest: string, rows: seq<seq<string>>, row: seq<string>)
    requires fs != [] && IsEol(eol)
    ensures Scan(WriteFields(fs) + eol + rest, CsvState(rows, row, "", false))
         == Scan(rest, CsvState(rows + [row + fs], [], "", false))
    decreases |fs|
  {
    var st := CsvState(rows, row, "", false);
    if |fs| == 1 {
      assert WriteFields(fs) + eol + rest == WriteField(fs[0]) + (eol + rest);
      EolStart(eol, rest);
      ScanField(fs[0], eol + rest, st);
      ScanEol(eol, rest, rows, row, fs[0]);
      assert row + [fs[0]] == row + fs;
    } else {
      var tail := WriteFields(fs[1..]) + eol + rest;
      assert WriteFields(fs) + eol + rest == WriteField(fs[0]) + ("," + tail);
      ScanField(fs[0], "," + tail, st);
      var st' := st.(current := fs[0]);
      assert ("," + tail)[0] == ',' && ("," + tail)[1..] == tail;
      assert Scan("," + tail, st') == Scan(tail, CsvState(rows, row + [fs[0]], "", false));
      ScanFields(fs[1..], eol, rest, rows, row + [fs[0]]);
      assert row + [fs[0]] + fs[1..] == row + fs;
    }
  }

  /** The line ending after the last field closes the row. */
  lemma {:induction false} ScanEol(eol: string, rest: string, rows: seq<seq<string>>, row: seq<string>, f: string)
    requires IsEol(eol)
    ensures Scan(eol + rest, CsvState(rows, row, f, false)) == Scan(rest, CsvState(rows + [row + [f]], [], "", false))
  {
    var s := eol + rest;
    if eol == "\r\n" {
      assert s[0] == '\r' && s[1..] == "\n" + rest;
      assert ("\n" + rest)[0] == '\n' && ("\n" + rest)[1..] == rest;
    } else {
      assert s[0] == '\n' && s[1..] == rest;
    }
  }

  /** The records as written are read back after the rows already finished. */
  lemma {:induction false} ScanWritten(rows: seq<seq<string>>, eol: string, done: seq<seq<string>>)
    requires IsEol(eol)
    requires forall k :: 0 <= k < |rows| ==> rows[k] != []
    ensures Scan(WriteCsv(rows, eol), CsvState(done, [], "", false)) == CsvState(done + rows, [], "", false)
    decreases |rows|
  {
    if rows == [] {
      assert done + rows == done;
    } else {
      assert rows[0] != [];
      ScanFields(rows[0], eol, WriteCsv(rows[1..], eol), done, []);
      assert [] + rows[0] == rows[0];
      ScanWritten(rows[1..], eol, done + [rows[0]]);
      assert done + [rows[0]] + rows[1..] == done + rows;
    }
  }

  /** The first character of written text is never a byte-order mark. */
  lemma {:induction false} WrittenStart(rows: seq<seq<string>>, eol: string)
    requires IsEol(eol)
    requires forall k :: 0 <= k < |rows| ==> rows[k] != []
    ensures StripBom(WriteCsv(rows, eol)) == WriteCsv(rows, eol)
  {
    if rows != [] {
      FieldsNoBom(rows[0]);
      assert NoBomStart(eol);
      ConcatNoBom(WriteFields(rows[0]), eol);
      ConcatNoBom(WriteFields(rows[0]) + eol, WriteCsv(rows[1..], eol));
    }
  }

  /** Text that does not start with a byte-order mark. */
  predicate NoBomStart(s: string) {
    s == [] || s[0] != Bom
  }

  lemma {:induction false} ConcatNoBom(a: string, b: string)
    requires NoBomStart(a) && NoBomStart(b)
    ensures NoBomStart(a + b)
  {
    if a != [] {
      assert (a + b)[0] == a[0];
    }
  }

  lemma {:induction false} FieldNoBom(f: string)
    ensures NoBomStart(WriteField(f))
  {
    if !NeedsQuotes(f) && f != [] {
      assert !IsSpecial(f[0]);
    }
  }

  lemma {:induction false} FieldsNoBom(fs: seq<string>)
    requires fs != []
    ensures NoBomStart(WriteFields(fs))
  {
    FieldNoBom(fs[0]);
    if |fs| > 1 {
      ConcatNoBom(WriteField(fs[0]), ",");
      ConcatNoBom(WriteField(fs[0]) + ",", WriteFields(fs[1..]));
    }
  }

  /**
   * Reading what the writer wrote gives back every record and every field, with LF or CRLF
   * line endings, and with or without a leading byte-order mark. A record with no field at all
   * has no written form, so each record holds at least one field.
   */
  lemma {:induction false} CsvRoundTrip(rows: seq<seq<string>>, eol: string)
    requires IsEol(eol)
    requires forall k :: 0 <= k < |rows| ==> rows[k] != []
    ensures CsvRows(WriteCsv(rows, eol)) == rows
    ensures CsvRows([Bom] + WriteCsv(rows, eol)) == rows
  {
    var t := WriteCsv(rows, eol);
    WrittenStart(rows, eol);
    ScanWritten(rows, eol, []);
    assert [] + rows == rows;
    assert ([Bom] + t)[1..] == t;
  }
}
