/**
 * The shared BLE connection of common/connection/ble.js: how notifications are cut into text
 * lines, how a message is framed and written in 20-byte slices, and which handles a reset clears.
 * The GATT calls themselves (requesting a device, connecting, starting notifications) are
 * asynchronous browser I/O and are not modelled; a connected link is a `Gatt` value.
 */
module Ble {
  import opened Wrappers
  import opened Seqs
  import opened Text
  import opened Bytes

  /** The largest slice `_writeChunked` hands to one GATT write. */
  const Chunk: nat := 20

  // ---------------------------------------------------------------------------------
  // Line breaks

  /**
   * `replace(/\r\n/g, '\n').replace(/\r/g, '\n')` in one left-to-right pass: a CR LF pair
   * becomes one LF, every other CR becomes an LF.
   */
  function NormalizeEol(s: string): (r: string)
    ensures '\r' !in r
    decreases |s|
  {
    if s == [] then []
    else if s[0] == '\r' && |s| >= 2 && s[1] == '\n' then "\n" + NormalizeEol(s[2..])
    else if s[0] == '\r' then "\n" + NormalizeEol(s[1..])
    else [s[0]] + NormalizeEol(s[1..])
  }

  /** Text without the carriage returns and line feeds is left alone. */
  lemma {:induction false} NormalizeEolNoOp(s: string)
    requires '\r' !in s
    ensures NormalizeEol(s) == s
    decreases |s|
  {
    if s != [] {
      assert s[0] in s;
      assert forall c :: c in s[1..] ==> c in s;
      NormalizeEolNoOp(s[1..]);
    }
  }

  /** Normalising twice is normalising once. */
  lemma {:induction false} NormalizeEolIdempotent(s: string)
    ensures NormalizeEol(NormalizeEol(s)) == NormalizeEol(s)
  {
    NormalizeEolNoOp(NormalizeEol(s));
  }

  /** Two pieces normalise separately unless a CR LF pair straddles them. */
  lemma {:induction false} NormalizeEolAppend(x: string, y: string)
    requires !(x != [] && x[|x| - 1] == '\r' && y != [] && y[0] == '\n')
    ensures NormalizeEol(x + y) == NormalizeEol(x) + NormalizeEol(y)
    decreases |x|
  {
    if x == [] {
      assert x + y == y;
    } else {
      var xy := x + y;
      assert xy[0] == x[0];
      if x[0] == '\r' && |x| >= 2 && x[1] == '\n' {
        assert xy[1] == '\n' && xy[2..] == x[2..] + y;
        NormalizeEolAppend(x[2..], y);
      } else if x[0] == '\r' && |x| == 1 {
        assert xy[1..] == y;
        assert NormalizeEol(x) == "\n";
      } else {
        if x[0] == '\r' {
          assert xy[1] == x[1];
        }
        assert xy[1..] == x[1..] + y;
        NormalizeEolAppend(x[1..], y);
      }
    }
  }

  /** A CR LF pair split between two pieces becomes one LF when the pieces are joined first. */
  lemma {:induction false} NormalizeEolStraddle(x: string, y: string)
    requires x != [] && x[|x| - 1] == '\r' && y != [] && y[0] == '\n'
    ensures var front, back := NormalizeEol(x[..|x| - 1]), NormalizeEol(y[1..]);
      NormalizeEol(x) == front + "\n" && NormalizeEol(y) == "\n" + back
      && NormalizeEol(x + y) == front + "\n" + back
  {
    var x', y' := x[..|x| - 1], y[1..];
    assert x == x' + "\r";
    NormalizeEolAppend(x', "\r");
    assert NormalizeEol("\r") == "\n";
    assert y == [y[0]] + y';
    var crlf := "\r\n" + y';
    assert x + y == x' + crlf;
    NormalizeEolAppend(x', crlf);
    assert crlf[2..] == y';
  }

  // ---------------------------------------------------------------------------------
  // Cutting the buffer into lines

  /** `indexOf('\n')`, with `|s|` for -1. */
  function IndexOfLF(s: string): (i: nat)
    ensures i <= |s|
    ensures i < |s| ==> s[i] == '\n'
  {
    if s == [] then 0
    else if s[0] == '\n' then 0
    else 1 + IndexOfLF(s[1..])
  }

  /** No LF comes before `IndexOfLF(s)`, and it is `|s|` exactly when there is none. */
  lemma {:induction false} IndexOfLFFacts(s: string)
    ensures forall j :: 0 <= j < IndexOfLF(s) ==> s[j] != '\n'
    ensures IndexOfLF(s) == |s| <==> '\n' !in s
  {
    if s != [] && s[0] != '\n' {
      IndexOfLFFacts(s[1..]);
      assert forall j :: 1 <= j < |s| ==> s[j] == s[1..][j - 1];
    }
  }

  /** The complete lines of a text, and what follows its last LF. */
  datatype Split = Split(lines: seq<string>, rest: string)

  /** What the `while` loop of `_handleNotify` cuts off a buffer: every line ended by an LF, and the tail. */
  function SplitLines(s: string): (r: Split)
    decreases |s|
  {
    var i := IndexOfLF(s);
    if i == |s| then Split([], s)
    else
      var t := SplitLines(s[i + 1..]);
      Split([s[..i]] + t.lines, t.rest)
  }

  /** What stays in the buffer holds no LF. */
  lemma {:induction false} SplitLinesRestNoLF(s: string)
    ensures '\n' !in SplitLines(s).rest
    decreases |s|
  {
    var i := IndexOfLF(s);
    if i == |s| {
      IndexOfLFFacts(s);
    } else {
      SplitLinesRestNoLF(s[i + 1..]);
    }
  }

  /** The lines again, each followed by an LF. */
  function Unsplit(lines: seq<string>): string {
    if lines == [] then [] else lines[0] + "\n" + Unsplit(lines[1..])
  }

  /** Cutting loses nothing: the lines with their LFs, then the tail, give back the text. */
  lemma {:induction false} SplitLinesJoin(s: string)
    ensures Unsplit(SplitLines(s).lines) + SplitLines(s).rest == s
    decreases |s|
  {
    var i := IndexOfLF(s);
    if i < |s| {
      SplitLinesCons(s, i);
      var t := SplitLines(s[i + 1..]);
      SplitLinesJoin(s[i + 1..]);
      var r := SplitLines(s);
      ConsTail(s[..i], t.lines);
      var head, u := s[..i] + "\n", Unsplit(t.lines);
      assert Unsplit(r.lines) == head + u;
      AppendAssoc(head, u, t.rest);
      SplitAt(s, i);
    }
  }

  /** No line handed on holds an LF. */
  lemma {:induction false} SplitLinesLinesNoLF(s: string)
    ensures forall k :: 0 <= k < |SplitLines(s).lines| ==> '\n' !in SplitLines(s).lines[k]
    decreases |s|
  {
    var i := IndexOfLF(s);
    if i < |s| {
      SplitLinesCons(s, i);
      IndexOfLFFacts(s);
      var line := s[..i];
      assert forall j :: 0 <= j < i ==> line[j] == s[j];
      assert '\n' !in line;
      SplitLinesLinesNoLF(s[i + 1..]);
      var r, t := SplitLines(s), SplitLines(s[i + 1..]);
      assert forall k :: 0 < k < |r.lines| ==> r.lines[k] == t.lines[k - 1];
    }
  }

  /** Cutting a text in two places first cuts the first part, then its tail joined with the second. */
  lemma {:induction false} SplitLinesAppend(x: string, y: string)
    ensures var a := SplitLines(x); var b := SplitLines(a.rest + y);
      SplitLines(x + y).lines == a.lines + b.lines && SplitLines(x + y).rest == b.rest
    decreases |x|
  {
    var i := IndexOfLF(x);
    if i == |x| {
      SplitLinesNoLF(x, y);
    } else {
      var x' := x[i + 1..];
      SplitLinesAppend(x', y);
      SplitLinesAppendStep(x, y, i);
    }
  }

  lemma {:induction false} SplitLinesNoLF(x: string, y: string)
    requires IndexOfLF(x) == |x|
    ensures var a := SplitLines(x); var b := SplitLines(a.rest + y);
      SplitLines(x + y).lines == a.lines + b.lines && SplitLines(x + y).rest == b.rest
  {
    var a := SplitLines(x);
    assert a.rest == x && a.lines == [];
    assert a.lines + SplitLines(x + y).lines == SplitLines(x + y).lines;
  }

  lemma {:induction false} SplitLinesAppendStep(x: string, y: string, i: nat)
    requires i == IndexOfLF(x) < |x|
    requires var a := SplitLines(x[i + 1..]); var b := SplitLines(a.rest + y);
      SplitLines(x[i + 1..] + y).lines == a.lines + b.lines && SplitLines(x[i + 1..] + y).rest == b.rest
    ensures var a := SplitLines(x); var b := SplitLines(a.rest + y);
      SplitLines(x + y).lines == a.lines + b.lines && SplitLines(x + y).rest == b.rest
  {
    var x' := x[i + 1..];
    IndexOfLFWithin(x, y);
    AppendSlices(x, y, i);
    SplitLinesCons(x, i);
    SplitLinesCons(x + y, i);
    var a', b := SplitLines(x'), SplitLines(SplitLines(x').rest + y);
    AppendAssoc([x[..i]], a'.lines, b.lines);
  }

  /** One turn of the loop: the first line, and the cut of what follows it. */
  lemma {:induction false} SplitLinesCons(s: string, i: nat)
    requires i == IndexOfLF(s) < |s|
    ensures SplitLines(s).lines == [s[..i]] + SplitLines(s[i + 1..]).lines
    ensures SplitLines(s).rest == SplitLines(s[i + 1..]).rest
  {
  }

  lemma {:induction false} IndexOfLFWithin(x: string, y: string)
    requires IndexOfLF(x) < |x|
    ensures IndexOfLF(x + y) == IndexOfLF(x)
  {
    var i := IndexOfLF(x);
    IndexOfLFFacts(x);
    assert forall j :: 0 <= j <= i ==> (x + y)[j] == x[j];
    IndexOfLFExact(x + y, i);
  }

  /** The first LF is where `indexOf` finds it. */
  lemma {:induction false} IndexOfLFExact(s: string, i: nat)
    requires i < |s| && s[i] == '\n' && forall j :: 0 <= j < i ==> s[j] != '\n'
    ensures IndexOfLF(s) == i
    decreases i
  {
    if i > 0 {
      assert forall j :: 0 <= j < i - 1 ==> s[1..][j] == s[j + 1];
      IndexOfLFExact(s[1..], i - 1);
    }
  }

  /** A text that ends in an LF leaves nothing in the buffer. */
  lemma {:induction false} SplitLinesEndingLF(s: string)
    ensures SplitLines(s + "\n").lines == SplitLines(s).lines + [SplitLines(s).rest]
    ensures SplitLines(s + "\n").rest == ""
  {
    var a := SplitLines(s);
    SplitLinesAppend(s, "\n");
    var t := a.rest + "\n";
    SplitLinesRestNoLF(s);
    IndexOfLFExact(t, |a.rest|);
    assert t[..|a.rest|] == a.rest;
    assert t[|a.rest| + 1..] == "";
    assert SplitLines(t).lines == [a.rest];
  }

  /** A text that starts with an LF first yields an empty line. */
  lemma {:induction false} SplitLinesStartingLF(s: string)
    ensures SplitLines("\n" + s).lines == [""] + SplitLines(s).lines
    ensures SplitLines("\n" + s).rest == SplitLines(s).rest
  {
    var t := "\n" + s;
    assert t[1..] == s;
    assert t[..0] == "";
  }

  /** `replace(/\r$/, '')`. */
  function DropTrailingCR(s: string): (r: string)
    ensures '\r' !in s ==> r == s
  {
    if s != [] && s[|s| - 1] == '\r' then s[..|s| - 1] else s
  }

  /** The text passed to `_onReceive` for each line: trimmed, and only when something is left. */
  function Shown(lines: seq<string>): (r: seq<string>)
    ensures |r| <= |lines|
  {
    if lines == [] then []
    else
      var text := Trim(DropTrailingCR(lines[0]));
      (if text == "" then [] else [text]) + Shown(lines[1..])
  }

  /** Every line handed on is non-empty and trimmed. */
  lemma {:induction false} ShownTrimmed(lines: seq<string>)
    ensures forall k :: 0 <= k < |Shown(lines)| ==> Shown(lines)[k] != "" && Trim(Shown(lines)[k]) == Shown(lines)[k]
  {
    if lines != [] {
      ShownTrimmed(lines[1..]);
      var text := Trim(DropTrailingCR(lines[0]));
      TrimIdempotent(DropTrailingCR(lines[0]));
    }
  }

  lemma {:induction false} ShownAppend(a: seq<string>, b: seq<string>)
    ensures Shown(a + b) == Shown(a) + Shown(b)
  {
    if a == [] {
      assert a + b == b;
    } else {
      assert (a + b)[0] == a[0];
      assert (a + b)[1..] == a[1..] + b;
      ShownAppend(a[1..], b);
    }
  }

  /** What one notification does: the lines handed on and the buffer left. */
  datatype Fed = Fed(lines: seq<string>, buf: string)

  /**
   * `_handleNotify` at the string level: an empty chunk changes nothing; otherwise the
   * normalised chunk joins the buffer, every complete line is handed on and the tail stays.
   */
  function Feed(buf: string, chunk: string): (r: Fed)
    ensures '\n' !in buf ==> '\n' !in r.buf
    ensures '\r' !in buf ==> '\r' !in r.buf
  {
    if chunk == "" then Fed([], buf)
    else
      var s := SplitLines(buf + NormalizeEol(chunk));
      RestWithin(buf + NormalizeEol(chunk));
      SplitLinesRestNoLF(buf + NormalizeEol(chunk));
      Fed(Shown(s.lines), s.rest)
  }

  lemma {:induction false} RestWithin(s: string)
    ensures forall c :: c in SplitLines(s).rest ==> c in s
  {
    SplitLinesJoin(s);
    var r := SplitLines(s);
    assert forall c :: c in r.rest ==> c in Unsplit(r.lines) + r.rest;
  }

  /**
   * Cutting the incoming text into two chunks, anywhere, hands on the same lines and leaves the
   * same buffer as delivering it at once: a CR LF pair split between the chunks only adds an
   * empty line, which is dropped.
   */
  lemma {:induction false} TwoChunks(buf: string, a: string, b: string)
    requires '\n' !in buf
    ensures var f := Feed(buf, a); var g := Feed(f.buf, b);
      Feed(buf, a + b).lines == f.lines + g.lines && Feed(buf, a + b).buf == g.buf
  {
    if a == "" {
      assert a + b == b;
      AppendEmpty(Feed(buf, b).lines);
    } else if b == "" {
      assert a + b == a;
      AppendEmpty(Feed(buf, a).lines);
    } else {
      var na, nb := NormalizeEol(a), NormalizeEol(b);
      var x := buf + na;
      var sx := SplitLines(x);
      var nab := NormalizeEol(a + b);
      var whole := SplitLines(buf + nab);
      if a[|a| - 1] == '\r' && b[0] == '\n' {
        NormalizeEolStraddle(a, b);
        var front, back := NormalizeEol(a[..|a| - 1]), NormalizeEol(b[1..]);
        StraddleCase(buf, front, back);
      } else {
        NormalizeEolAppend(a, b);
        PlainCase(buf, na, nb);
      }
      assert Feed(buf, a + b) == Fed(Shown(whole.lines), whole.rest);
      assert Feed(buf, a) == Fed(Shown(sx.lines), sx.rest);
      assert Feed(sx.rest, b) == Fed(Shown(SplitLines(sx.rest + nb).lines), SplitLines(sx.rest + nb).rest);
    }
  }

  /** Two normalised pieces with no CR LF pair between them: what `TwoChunks` needs of the cut. */
  lemma {:induction false} PlainCase(buf: string, na: string, nb: string)
    ensures var sx := SplitLines(buf + na); var sy := SplitLines(sx.rest + nb);
      var whole := SplitLines(buf + (na + nb));
      Shown(whole.lines) == Shown(sx.lines) + Shown(sy.lines) && whole.rest == sy.rest
  {
    var x := buf + na;
    var sx := SplitLines(x);
    AppendAssoc(buf, na, nb);
    SplitLinesAppend(x, nb);
    ShownAppend(sx.lines, SplitLines(sx.rest + nb).lines);
  }

  /**
   * A CR LF pair split between the pieces: the first piece ends in an LF, the second starts with
   * one, and the joined text holds only one of them.
   */
  lemma {:induction false} StraddleCase(buf: string, front: string, back: string)
    ensures var sx := SplitLines(buf + (front + "\n")); var sy := SplitLines(sx.rest + ("\n" + back));
      var whole := SplitLines(buf + (front + "\n" + back));
      Shown(whole.lines) == Shown(sx.lines) + Shown(sy.lines) && whole.rest == sy.rest
  {
    var x0 := buf + front;
    var x := buf + (front + "\n");
    AppendAssoc(buf, front, "\n");
    SplitLinesEndingLF(x0);
    var sx := SplitLines(x);
    assert sx.rest == "";
    var lb := "\n" + back;
    assert sx.rest + lb == lb;
    var sy := SplitLines(lb);
    SplitLinesStartingLF(back);
    var sb := SplitLines(back);
    assert sy.lines == [""] + sb.lines;
    AppendAssoc(buf, front + "\n", back);
    var joined := buf + (front + "\n" + back);
    assert joined == x + back;
    SplitLinesAppend(x, back);
    assert sx.rest + back == back;
    var whole := SplitLines(joined);
    assert whole.lines == sx.lines + sb.lines;
    assert Shown([""]) == [];
    ShownAppend([""], sb.lines);
    assert Shown(sy.lines) == Shown(sb.lines);
    ShownAppend(sx.lines, sb.lines);
  }

  function Concat(chunks: seq<string>): string {
    if chunks == [] then "" else chunks[0] + Concat(chunks[1..])
  }

  /** Delivering the chunks one notification after another. */
  function FeedAll(buf: string, chunks: seq<string>): Fed
    decreases |chunks|
  {
    if chunks == [] then Fed([], buf)
    else
      var f := Feed(buf, chunks[0]);
      var g := FeedAll(f.buf, chunks[1..]);
      Fed(f.lines + g.lines, g.buf)
  }

  /** However the text arrives in chunks, the lines handed on and the buffer left are the same as for one chunk. */
  lemma {:induction false} AnyChunking(buf: string, chunks: seq<string>)
    requires '\n' !in buf
    ensures FeedAll(buf, chunks).lines == Feed(buf, Concat(chunks)).lines
    ensures FeedAll(buf, chunks).buf == Feed(buf, Concat(chunks)).buf
    decreases |chunks|
  {
    if chunks != [] {
      var f := Feed(buf, chunks[0]);
      AnyChunking(f.buf, chunks[1..]);
      TwoChunks(buf, chunks[0], Concat(chunks[1..]));
    }
  }

  /** With the buffer holding no line break, the whole of the buffer and the chunk is the lines handed on and the new buffer. */
  lemma {:induction false} FeedKeepsEverything(buf: string, chunk: string)
    requires chunk != ""
    ensures var s := SplitLines(buf + NormalizeEol(chunk));
      Unsplit(s.lines) + Feed(buf, chunk).buf == buf + NormalizeEol(chunk)
      && Feed(buf, chunk).lines == Shown(s.lines)
  {
    SplitLinesJoin(buf + NormalizeEol(chunk));
  }

  // ---------------------------------------------------------------------------------
  // Writing

  /** The slices `_writeChunked` writes, `bytes.slice(i, i + 20)` for `i = 0, 20, 40, ...`. */
  function Slices(data: bytes): (r: seq<bytes>)
    decreases |data|
  {
    if data == [] then []
    else if |data| <= Chunk then [data]
    else [data[..Chunk]] + Slices(data[Chunk..])
  }

  function Flatten(parts: seq<bytes>): bytes {
    if parts == [] then [] else parts[0] + Flatten(parts[1..])
  }

  /** The slices give back the data in order; each holds 1 to 20 bytes, and all but the last exactly 20. */
  lemma {:induction false} SlicesFacts(data: bytes)
    ensures Flatten(Slices(data)) == data
    ensures |Slices(data)| == (|data| + Chunk - 1) / Chunk
    ensures forall k :: 0 <= k < |Slices(data)| ==> 0 < |Slices(data)[k]| <= Chunk
    ensures forall k :: 0 <= k < |Slices(data)| - 1 ==> |Slices(data)[k]| == Chunk
    decreases |data|
  {
    if |data| > Chunk {
      SlicesFacts(data[Chunk..]);
      var r := Slices(data);
      assert r[1..] == Slices(data[Chunk..]);
      assert data == data[..Chunk] + data[Chunk..];
    }
  }

  /**
   * The `for` loop of `_writeChunked` on a characteristic with a write function: each slice in
   * turn is written with the first write tried or, when that throws, with the retry; when the
   * retry throws too, the loop stops there and the promise rejects.
   */
  method WriteChunked(data: bytes, c: Characteristic, throws: (nat, nat, WriteKind) -> bool)
    returns (written: seq<bytes>, kinds: seq<WriteKind>, failed: bool)
    requires FirstWrite(c).Some?
    ensures |kinds| == |written| && forall j :: 0 <= j < |kinds| ==> SliceWrite(c, throws, j) == Some(kinds[j])
    ensures !failed ==> written == Slices(data)
    ensures failed ==> |written| < |Slices(data)| && written == Slices(data)[..|written|]
                       && SliceWrite(c, throws, |written|).None?
  {
    written, kinds := [], [];
    var i := 0;
    while i < |data|
      invariant i <= |data| ==> written + Slices(data[i..]) == Slices(data)
      invariant i > |data| ==> written == Slices(data)
      invariant |kinds| == |written| && forall j :: 0 <= j < |kinds| ==> SliceWrite(c, throws, j) == Some(kinds[j])
      decreases |data| - i
    {
      var slice := data[i..if i + Chunk < |data| then i + Chunk else |data|];
      SliceStep(data, i);
      var kind := SliceWrite(c, throws, |written|);
      if kind.None? {
        assert Slices(data[i..]) != [];
        assert Slices(data)[..|written|] == written;
        return written, kinds, true;
      }
      if i + Chunk <= |data| {
        AppendAssoc(written, [slice], Slices(data[i + Chunk..]));
      } else {
        assert slice == data[i..];
      }
      written, kinds := written + [slice], kinds + [kind.value];
      i := i + Chunk;
    }
    if i <= |data| {
      assert data[i..] == [];
      AppendEmpty(written);
    }
    failed := false;
  }

  /** One turn of the loop takes the next slice off the front of what is left. */
  lemma {:induction false} SliceStep(data: bytes, i: nat)
    requires i < |data|
    ensures i + Chunk <= |data| ==> Slices(data[i..]) == [data[i..i + Chunk]] + Slices(data[i + Chunk..])
    ensures i + Chunk > |data| ==> Slices(data[i..]) == [data[i..]]
    ensures i + Chunk == |data| ==> Slices(data[i + Chunk..]) == []
  {
    var rest := data[i..];
    if |rest| > Chunk {
      assert rest[..Chunk] == data[i..i + Chunk];
      assert rest[Chunk..] == data[i + Chunk..];
    } else if |rest| == Chunk {
      assert rest == data[i..i + Chunk];
      assert data[i + Chunk..] == [];
    }
  }

  /** A characteristic's write methods: the declared properties and the functions present. */
  datatype Characteristic = Characteristic(canWrite: bool, canWriteWithoutResponse: bool, hasWriteWithResponse: bool, hasWriteWithoutResponse: bool)

  datatype WriteKind = WithResponse | WithoutResponse

  /** The first write tried for a slice, `None` when the characteristic offers neither function. */
  function FirstWrite(c: Characteristic): (r: Option<WriteKind>)
    ensures r == Some(WithResponse) ==> c.hasWriteWithResponse
    ensures r == Some(WithoutResponse) ==> c.hasWriteWithoutResponse
    ensures r.None? <==> !c.hasWriteWithResponse && !c.hasWriteWithoutResponse
    ensures c.canWrite && c.hasWriteWithResponse ==> r == Some(WithResponse)
  {
    if c.canWrite && c.hasWriteWithResponse then Some(WithResponse)
    else if c.canWriteWithoutResponse && c.hasWriteWithoutResponse then Some(WithoutResponse)
    else if c.hasWriteWithoutResponse then Some(WithoutResponse)
    else if c.hasWriteWithResponse then Some(WithResponse)
    else None
  }

  /** The write retried in the `catch`: without response when present, else with response. */
  function RetryWrite(c: Characteristic): (r: Option<WriteKind>)
    ensures r == Some(WithResponse) ==> c.hasWriteWithResponse
    ensures r == Some(WithoutResponse) ==> c.hasWriteWithoutResponse
    ensures r.None? <==> FirstWrite(c).None?
  {
    if c.hasWriteWithoutResponse then Some(WithoutResponse)
    else if c.hasWriteWithResponse then Some(WithResponse)
    else None
  }

  /**
   * How slice `i` gets written, where `throws(i, attempt, kind)` says whether that call throws,
   * attempt 0 being the first write and attempt 1 the retry in the `catch`: the first write, or
   * the retry when the first throws, or `None` when both throw.
   */
  function SliceWrite(c: Characteristic, throws: (nat, nat, WriteKind) -> bool, i: nat): (r: Option<WriteKind>)
    requires FirstWrite(c).Some?
    ensures !throws(i, 0, FirstWrite(c).value) ==> r == FirstWrite(c)
    ensures throws(i, 0, FirstWrite(c).value) ==> r == (if throws(i, 1, RetryWrite(c).value) then None else RetryWrite(c))
    ensures r.Some? ==> !throws(i, 0, r.value) || !throws(i, 1, r.value)
  {
    var first := FirstWrite(c).value;
    if !throws(i, 0, first) then Some(first)
    else
      var retry := RetryWrite(c).value;
      if !throws(i, 1, retry) then Some(retry) else None
  }

  /**
   * A retry with the same function as the first write can still succeed: the one-slice case
   * where the first call throws and the second does not.
   */
  lemma {:induction false} SameFunctionRetrySucceeds(c: Characteristic)
    requires c.hasWriteWithoutResponse && !(c.canWrite && c.hasWriteWithResponse)
    ensures FirstWrite(c) == RetryWrite(c) == Some(WithoutResponse)
    ensures SliceWrite(c, (i: nat, attempt: nat, k: WriteKind) => attempt == 0, 0) == Some(WithoutResponse)
  {
  }

  /** A connected device: its GATT server and whether it reports itself connected. */
  datatype Gatt = Gatt(connected: bool)

  /** What `sendMessage` does. */
  datatype SendOutcome =
    | Skipped                         // the trimmed message is empty
    | NotConnected                    // throws: no connected device
    | NoTarget                        // the characteristic to write is missing
    | NoWriteMethod                   // throws: the characteristic offers no write function
    | Written(target: Characteristic, kinds: seq<WriteKind>, slices: seq<bytes>)
    | WriteFailed(target: Characteristic, kinds: seq<WriteKind>, slices: seq<bytes>)  // rejects: a slice's write and its retry threw

  /** What reaches `_onReceive`: the texts when a receiver is set, nothing otherwise. */
  function Emit(hasReceiver: bool, texts: seq<string>): seq<string> {
    if hasReceiver then texts else []
  }

  /**
   * The loop of `_handleNotify` part way: `buf` is what is left of `whole`, and what has been
   * handed on, followed by what the rest of `buf` will hand on, is everything `whole` hands on.
   */
  ghost predicate Draining(whole: string, prior: seq<string>, buf: string, sent: seq<string>, hasReceiver: bool) {
    '\r' !in buf
    && SplitLines(buf).rest == SplitLines(whole).rest
    && sent + Emit(hasReceiver, Shown(SplitLines(buf).lines)) == prior + Emit(hasReceiver, Shown(SplitLines(whole).lines))
  }

  lemma {:induction false} DrainStart(whole: string, prior: seq<string>, hasReceiver: bool)
    requires '\r' !in whole
    ensures Draining(whole, prior, whole, prior, hasReceiver)
  {
  }

  /** One turn of the loop: the first line is cut off and, when something is left of it, handed on. */
  lemma {:induction false} DrainStep(whole: string, prior: seq<string>, buf: string, sent: seq<string>, hasReceiver: bool,
                                     idx: nat, rest: string, text: string)
    requires Draining(whole, prior, buf, sent, hasReceiver)
    requires idx == IndexOfLF(buf) < |buf| && rest == buf[idx + 1..] && text == Trim(DropTrailingCR(buf[..idx]))
    ensures text != "" && hasReceiver ==> Draining(whole, prior, rest, sent + [text], hasReceiver)
    ensures !(text != "" && hasReceiver) ==> Draining(whole, prior, rest, sent, hasReceiver)
  {
    assert forall c :: c in rest ==> c in buf;
    SplitLinesCons(buf, idx);
    var tail := SplitLines(rest).lines;
    ShownAppend([buf[..idx]], tail);
    var one := if text != "" && hasReceiver then [text] else [];
    assert Emit(hasReceiver, Shown(SplitLines(buf).lines)) == one + Emit(hasReceiver, Shown(tail));
    AppendAssoc(sent, one, Emit(hasReceiver, Shown(tail)));
    AppendEmpty(sent);
  }

  /** When no LF is left, the buffer is the tail and everything has been handed on. */
  lemma {:induction false} DrainDone(whole: string, prior: seq<string>, buf: string, sent: seq<string>, hasReceiver: bool)
    requires Draining(whole, prior, buf, sent, hasReceiver) && IndexOfLF(buf) == |buf|
    ensures buf == SplitLines(whole).rest && '\n' !in buf && '\r' !in buf
    ensures sent == prior + Emit(hasReceiver, Shown(SplitLines(whole).lines))
  {
    IndexOfLFFacts(buf);
    assert SplitLines(buf).lines == [];
    assert Emit(hasReceiver, Shown([])) == [];
    AppendEmpty(sent);
  }

  class BleManager {
    var deviceMode: string
    var device: Option<Gatt>
    var server: Option<Gatt>
    var service: Option<nat>
    var txCharacteristic: Option<Characteristic>
    var rxCharacteristic: Option<Characteristic>
    /** `_lineBuf`: the text after the last LF received. */
    var lineBuf: string
    /** Whether `_onReceive` holds a function. */
    var hasReceiver: bool
    /** Every text handed to `_onReceive`, in order. */
    var received: seq<string>

    /** The buffer never holds a line break. */
    predicate Valid()
      reads this
    {
      '\n' !in lineBuf && '\r' !in lineBuf
    }

    /** `new BLEManager(appState)`: esp32 mode, no device, empty buffer. */
    constructor ()
      ensures Valid()
      ensures deviceMode == "esp32" && device.None? && server.None? && service.None?
      ensures txCharacteristic.None? && rxCharacteristic.None? && lineBuf == ""
      ensures !hasReceiver && received == []
    {
      deviceMode := "esp32";
      device, server, service := None, None, None;
      txCharacteristic, rxCharacteristic := None, None;
      lineBuf := "";
      hasReceiver := false;
      received := [];
    }

    method SetMode(mode: string)
      modifies this
      ensures deviceMode == mode
      ensures device == old(device) && lineBuf == old(lineBuf) && received == old(received)
      ensures server == old(server) && service == old(service) && hasReceiver == old(hasReceiver)
      ensures txCharacteristic == old(txCharacteristic) && rxCharacteristic == old(rxCharacteristic)
    {
      deviceMode := mode;
    }

    /** `onReceive(cb)`: from now on complete lines are handed on. */
    method OnReceive()
      modifies this
      ensures hasReceiver && received == old(received) && lineBuf == old(lineBuf) && deviceMode == old(deviceMode)
      ensures device == old(device)
      ensures txCharacteristic == old(txCharacteristic) && rxCharacteristic == old(rxCharacteristic)
    {
      hasReceiver := true;
    }

    /** `device && device.gatt && device.gatt.connected`. */
    function IsConnected(): (r: bool)
      reads this
      ensures r <==> device.Some? && device.value.connected
    {
      device.Some? && device.value.connected
    }

    /**
     * `_getEol()`: the application's `eol` when it is a string (`appEol`, read when the message
     * is sent), else nothing for esp32 and LF otherwise.
     */
    function GetEol(appEol: Option<string>): (r: string)
      reads this
      ensures appEol.Some? ==> r == appEol.value
      ensures appEol.None? ==> (r == "" <==> deviceMode == "esp32") && (r == "" || r == "\n")
    {
      if appEol.Some? then appEol.value
      else if deviceMode == "esp32" then "" else "\n"
    }

    /**
     * `_handleNotify(event)` for a notification decoded to `chunk`: the normalised chunk joins
     * the buffer, the `while` loop hands each complete line on, and the tail stays.
     */
    method HandleNotify(chunk: string)
      requires Valid()
      modifies this
      ensures Valid()
      ensures lineBuf == Feed(old(lineBuf), chunk).buf
      ensures received == old(received) + Emit(hasReceiver, Feed(old(lineBuf), chunk).lines)
      ensures hasReceiver == old(hasReceiver) && deviceMode == old(deviceMode) && device == old(device)
      ensures txCharacteristic == old(txCharacteristic) && rxCharacteristic == old(rxCharacteristic)
    {
      if chunk == "" {
        assert Emit(hasReceiver, []) == [];
        return;
      }
      ghost var whole := lineBuf + NormalizeEol(chunk);
      ghost var prior := received;
      lineBuf := lineBuf + NormalizeEol(chunk);
      DrainStart(whole, prior, hasReceiver);
      while IndexOfLF(lineBuf) < |lineBuf|
        invariant Draining(whole, prior, lineBuf, received, hasReceiver)
        invariant hasReceiver == old(hasReceiver) && deviceMode == old(deviceMode) && device == old(device)
        invariant txCharacteristic == old(txCharacteristic) && rxCharacteristic == old(rxCharacteristic)
        decreases |lineBuf|
      {
        var idx := IndexOfLF(lineBuf);
        var line := DropTrailingCR(lineBuf[..idx]);
        var text := Trim(line);
        DrainStep(whole, prior, lineBuf, received, hasReceiver, idx, lineBuf[idx + 1..], text);
        lineBuf := lineBuf[idx + 1..];
        if text != "" && hasReceiver {
          received := received + [text];
        }
      }
      DrainDone(whole, prior, lineBuf, received, hasReceiver);
    }

    /** `_reset()`: no device, no GATT handles, an empty buffer. */
    method Reset()
      modifies this
      ensures Valid()
      ensures device.None? && server.None? && service.None?
      ensures txCharacteristic.None? && rxCharacteristic.None? && lineBuf == ""
      ensures deviceMode == old(deviceMode) && hasReceiver == old(hasReceiver) && received == old(received)
    {
      device, server, service := None, None, None;
      txCharacteristic, rxCharacteristic := None, None;
      lineBuf := "";
    }

    /** `_onDisconnected()`: the link dropped, so the manager resets. */
    method OnDisconnected()
      modifies this
      ensures Valid()
      ensures device.None? && server.None? && service.None?
      ensures txCharacteristic.None? && rxCharacteristic.None? && lineBuf == ""
      ensures deviceMode == old(deviceMode) && hasReceiver == old(hasReceiver) && received == old(received)
    {
      Reset();
    }

    /** The characteristic `sendMessage` writes to: rx for microbit and esp32, tx otherwise. */
    function Target(): (r: Option<Characteristic>)
      reads this
      ensures r == if deviceMode == "microbit" || deviceMode == "esp32" then rxCharacteristic else txCharacteristic
    {
      if deviceMode == "microbit" then rxCharacteristic
      else if deviceMode == "esp32" then rxCharacteristic
      else txCharacteristic
    }

    /**
     * `sendMessage(text)`: an empty trimmed message is skipped, a missing connection throws;
     * otherwise the UTF-8 bytes of the message and the end of line are written in 20-byte
     * slices to the mode's characteristic, each with `SliceWrite`, until one fails for good.
     */
    method SendMessage(text: Option<string>, appEol: Option<string>, throws: (nat, nat, WriteKind) -> bool) returns (r: SendOutcome)
      ensures var msg := Trim(text.GetOr(""));
        (r == Skipped <==> msg == "")
        && (r == NotConnected <==> msg != "" && !IsConnected())
        && (r.Written? || r.WriteFailed? <==> msg != "" && IsConnected() && Target().Some? && FirstWrite(Target().value).Some?)
      ensures r.Written? || r.WriteFailed? ==>
                r.target == Target().value && FirstWrite(r.target).Some? && |r.kinds| == |r.slices|
                && forall j :: 0 <= j < |r.kinds| ==> SliceWrite(r.target, throws, j) == Some(r.kinds[j])
      ensures r.Written? ==> r.slices == Slices(Utf8Encode(Trim(text.GetOr("")) + GetEol(appEol)))
      ensures r.WriteFailed? ==>
                var all := Slices(Utf8Encode(Trim(text.GetOr("")) + GetEol(appEol)));
                |r.slices| < |all| && r.slices == all[..|r.slices|] && SliceWrite(r.target, throws, |r.slices|).None?
    {
      var msg := Trim(text.GetOr(""));
      if msg == "" {
        return Skipped;
      }
      if !IsConnected() {
        return NotConnected;
      }
      var eol := GetEol(appEol);
      var data := Utf8Encode(msg + eol);
      var target := Target();
      if target.None? {
        return NoTarget;
      }
      if FirstWrite(target.value).None? {
        return NoWriteMethod;
      }
      var slices, kinds, failed := WriteChunked(data, target.value, throws);
      r := if failed then WriteFailed(target.value, kinds, slices) else Written(target.value, kinds, slices);
    }
  }

  /** What `sendMessage` writes for a non-empty message reassembles to the message's bytes followed by the end of line. */
  lemma {:induction false} SentBytes(msg: string, eol: string)
    requires msg != ""
    ensures Flatten(Slices(Utf8Encode(msg + eol))) == Utf8Encode(msg + eol)
    ensures Slices(Utf8Encode(msg + eol)) != []
  {
    SlicesFacts(Utf8Encode(msg + eol));
  }
}
