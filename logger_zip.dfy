/**
 * The ZIP container the XLSX writer produces and the reader opens (logger/app.js `buildZip`,
 * `parseZip`, `getZipEntryData`, `readZipEntry`): stored entries with local file headers
 * (PKWARE APPNOTE.TXT section 4.3.7), central directory file headers (section 4.3.12) and an
 * end of central directory record (section 4.3.16), all integers little-endian.
 */
module LoggerZip {
  import opened Wrappers
  import opened Bytes
  import opened LoggerCrc

  const LocalSig: nat := 0x0403_4B50
  const CentralSig: nat := 0x0201_4B50
  const EndSig: nat := 0x0605_4B50

  /** One `{ name, data }` entry handed to `buildZip`, the name already encoded as UTF-8. */
  datatype ZipEntry = ZipEntry(name: bytes, data: bytes)

  /** The CRC-32 of `data` as the unsigned number `setUint32` writes. */
  function CrcValue(data: bytes): (v: nat)
    ensures v < 0x1_0000_0000
  {
    Crc32(data) as nat
  }

  // ---------------------------------------------------------------- writer

  /** The 30 fixed bytes of a stored local file header; `crc` is the CRC-32 of the data. */
  function LocalFixed(e: ZipEntry, crc: nat): (h: bytes)
    ensures |h| == 30
  {
    LE32(LocalSig) + LE16(20) + LE16(0) + LE16(0) + LE16(0) + LE16(0)
    + LE32(crc) + LE32(|e.data|) + LE32(|e.data|) + LE16(|e.name|) + LE16(0)
  }

  function LocalHeader(e: ZipEntry, crc: nat): (h: bytes)
    ensures |h| == 30 + |e.name|
  {
    LocalFixed(e, crc) + e.name
  }

  /** The 46 fixed bytes of a central directory header for an entry whose local header is at `offset`. */
  function CentralFixed(e: ZipEntry, crc: nat, offset: nat): (h: bytes)
    ensures |h| == 46
  {
    LE32(CentralSig) + LE16(20) + LE16(20) + LE16(0) + LE16(0) + LE16(0) + LE16(0)
    + LE32(crc) + LE32(|e.data|) + LE32(|e.data|) + LE16(|e.name|)
    + LE16(0) + LE16(0) + LE16(0) + LE16(0) + LE32(0) + LE32(offset)
  }

  function CentralHeader(e: ZipEntry, crc: nat, offset: nat): (h: bytes)
    ensures |h| == CentralSize(e)
  {
    CentralFixed(e, crc, offset) + e.name
  }

  /** The end of central directory record: entry counts, directory size and directory offset. */
  function Eocd(count: nat, cdSize: nat, cdOffset: nat): (h: bytes)
    ensures |h| == 22
  {
    LE32(EndSig) + LE16(0) + LE16(0) + LE16(count) + LE16(count) + LE32(cdSize) + LE32(cdOffset) + LE16(0)
  }

  /** How a ZIP writer checksums an entry's data; `buildZip` uses `CrcValue`. */
  type Checksum = bytes -> nat

  /** The length of an entry's local part: header, name and data. */
  function PartSize(e: ZipEntry): nat {
    30 + |e.name| + |e.data|
  }

  /** The length of an entry's central directory header: fixed part and name. */
  function CentralSize(e: ZipEntry): nat {
    46 + |e.name|
  }

  /** The total length of the local parts of `es`, i.e. where the central directory starts. */
  function LocalsSize(es: seq<ZipEntry>): nat
    decreases |es|
  {
    if es == [] then 0 else LocalsSize(es[..|es| - 1]) + PartSize(es[|es| - 1])
  }

  /** The total length of the central directory headers of `es`. */
  function CentralsSize(es: seq<ZipEntry>): nat
    decreases |es|
  {
    if es == [] then 0 else CentralsSize(es[..|es| - 1]) + CentralSize(es[|es| - 1])
  }

  /** A local header followed by the stored (uncompressed) data. */
  function LocalPart(e: ZipEntry, crcOf: Checksum): (r: bytes)
    ensures |r| == PartSize(e)
  {
    LocalHeader(e, crcOf(e.data)) + e.data
  }

  /** All local parts, in entry order. */
  function Locals(es: seq<ZipEntry>, crcOf: Checksum): (r: bytes)
    ensures |r| == LocalsSize(es)
    decreases |es|
  {
    if es == [] then [] else Locals(es[..|es| - 1], crcOf) + LocalPart(es[|es| - 1], crcOf)
  }

  /** The central directory: one header per entry, each pointing at its local part. */
  function Centrals(es: seq<ZipEntry>, crcOf: Checksum): (r: bytes)
    ensures |r| == CentralsSize(es)
    decreases |es|
  {
    if es == [] then []
    else
      var init := es[..|es| - 1];
      var last := es[|es| - 1];
      Centrals(init, crcOf) + CentralHeader(last, crcOf(last.data), LocalsSize(init))
  }

  /** The archive `buildZip` returns: local parts, central directory, end record. */
  function ZipImage(es: seq<ZipEntry>, crcOf: Checksum): (r: bytes)
    ensures |r| == LocalsSize(es) + CentralsSize(es) + 22
  {
    Locals(es, crcOf) + Centrals(es, crcOf) + Eocd(|es|, CentralsSize(es), LocalsSize(es))
  }

  /** `buildZip`: the loop over the entries, then `concatBytes`. `table` is the module's `CRC_TABLE`. */
  method BuildZip(es: seq<ZipEntry>, table: array<bv32>) returns (out: bytes)
    requires table.Length == 256
    requires forall k: nat :: k < 256 ==> table[k] == TableEntry(k)
    ensures out == ZipImage(es, CrcValue)
  {
    var local: bytes := [];
    var central: bytes := [];
    var offset: nat := 0;
    var i := 0;
    while i < |es|
      invariant 0 <= i <= |es|
      invariant local == Locals(es[..i], CrcValue) && central == Centrals(es[..i], CrcValue) && offset == |local|
    {
      var e := es[i];
      var crc := EntryCrc(e.data, table);
      var localHeader := LocalHeader(e, crc);
      LocalsSnoc(es, i, CrcValue);
      CentralsSnoc(es, i, CrcValue);
      local := local + (localHeader + e.data);
      central := central + CentralHeader(e, crc, offset);
      offset := offset + |localHeader| + |e.data|;
      i := i + 1;
    }
    assert es[..i] == es;
    out := local + central + Eocd(|es|, |central|, offset);
  }

  /** `crc32(data)` with the module's table, as the number the headers store. */
  method EntryCrc(data: bytes, table: array<bv32>) returns (v: nat)
    requires table.Length == 256
    requires forall k: nat :: k < 256 ==> table[k] == TableEntry(k)
    ensures v == CrcValue(data)
  {
    var crc := ComputeCrc32(data, table);
    v := crc as nat;
  }

  lemma {:induction false} LocalsSnoc(es: seq<ZipEntry>, i: nat, crcOf: Checksum)
    requires i < |es|
    ensures Locals(es[..i + 1], crcOf) == Locals(es[..i], crcOf) + LocalPart(es[i], crcOf)
    ensures LocalsSize(es[..i + 1]) == LocalsSize(es[..i]) + PartSize(es[i])
  {
    assert es[..i + 1][..i] == es[..i];
  }

  lemma {:induction false} CentralsSnoc(es: seq<ZipEntry>, i: nat, crcOf: Checksum)
    requires i < |es|
    ensures Centrals(es[..i + 1], crcOf) == Centrals(es[..i], crcOf) + CentralHeader(es[i], crcOf(es[i].data), LocalsSize(es[..i]))
    ensures CentralsSize(es[..i + 1]) == CentralsSize(es[..i]) + CentralSize(es[i])
  {
    assert es[..i + 1][..i] == es[..i];
  }

  // ---------------------------------------------------------------- reader

  /** What `parseZip` records of a central directory header. */
  datatype CentralEntry = CentralEntry(name: bytes, compression: nat, compressedSize: nat, uncompressedSize: nat, localOffset: nat)

  datatype ZipError =
    | NoEndRecord              // no end-of-central-directory signature in the search window
    | OutOfBounds              // a `DataView`/`Uint8Array` access past the buffer (RangeError)
    | BadLocalHeader           // the entry's offset does not hold a local header signature
    | UnsupportedMethod(compression: nat)
    | InflateUnavailable       // method 8 and no working `DecompressionStream`

  /** The lowest position the backwards search for the end record visits. */
  function SearchFloor(buf: bytes): (lo: nat)
    ensures lo <= |buf| - 22 || |buf| < 22
  {
    if |buf| - 22 - 0xFFFF > 0 then |buf| - 22 - 0xFFFF else 0
  }

  /** The backwards search from `i` down to `lo`: the highest position holding the end signature. */
  function ScanEocd(buf: bytes, i: int, lo: nat): (r: Option<nat>)
    requires i + 22 <= |buf|
    ensures r.Some? ==> lo <= r.value <= i && ReadLE32(buf, r.value) == EndSig
    ensures r.Some? ==> forall q :: r.value < q <= i ==> ReadLE32(buf, q) != EndSig
    ensures r.None? ==> forall q :: lo <= q <= i ==> ReadLE32(buf, q) != EndSig
    decreases i + 1
  {
    if i < lo then None
    else if ReadLE32(buf, i) == EndSig then Some(i)
    else ScanEocd(buf, i - 1, lo)
  }

  /** Where `parseZip` finds the end record: the last signature among the final 64 KiB + 22 bytes. */
  function FindEocd(buf: bytes): (r: Option<nat>)
    ensures r.Some? ==> r.value + 22 <= |buf|
  {
    ScanEocd(buf, |buf| - 22, SearchFloor(buf))
  }

  /**
   * The central directory walk from `ptr` to `end`: it stops silently at the first record
   * without the central signature, and a later record with the same name replaces an earlier one.
   */
  function Walk(buf: bytes, ptr: nat, end: nat, acc: map<bytes, CentralEntry>): (r: Result<map<bytes, CentralEntry>, ZipError>)
    decreases if ptr < end then end - ptr else 0
  {
    if ptr >= end then Ok(acc)
    else if ptr + 4 > |buf| then Err(OutOfBounds)
    else if ReadLE32(buf, ptr) != CentralSig then Ok(acc)
    else if ptr + 46 > |buf| then Err(OutOfBounds)
    else
      var n := ReadLE16(buf, ptr + 28);
      var skip := n + ReadLE16(buf, ptr + 30) + ReadLE16(buf, ptr + 32);
      if ptr + 46 + n > |buf| then Err(OutOfBounds)
      else
        var name := buf[ptr + 46..ptr + 46 + n];
        var entry := CentralEntry(name, ReadLE16(buf, ptr + 10), ReadLE32(buf, ptr + 20),
                                  ReadLE32(buf, ptr + 24), ReadLE32(buf, ptr + 42));
        Walk(buf, ptr + 46 + skip, end, acc[name := entry])
  }

  /** `parseZip(buffer)` as a value: the entry map, or the reason it throws. */
  function ZipDirectory(buf: bytes): Result<map<bytes, CentralEntry>, ZipError> {
    match FindEocd(buf)
    case None => Err(NoEndRecord)
    case Some(p) =>
      var size := ReadLE32(buf, p + 12);
      var start := ReadLE32(buf, p + 16);
      Walk(buf, start, start + size, map[])
  }

  /** `parseZip`: the backwards search for the end record, then the walk of the central directory. */
  method ParseZip(buf: bytes) returns (r: Result<map<bytes, CentralEntry>, ZipError>)
    ensures r == ZipDirectory(buf)
  {
    var eocd := FindEndRecord(buf);
    if eocd.None? {
      return Err(NoEndRecord);
    }
    var size := ReadLE32(buf, eocd.value + 12);
    var start := ReadLE32(buf, eocd.value + 16);
    r := WalkDirectory(buf, start, start + size);
  }

  /** The backwards `for` search of `parseZip`, from `byteLength - 22` down to `max(0, byteLength - 22 - 0xffff)`. */
  method FindEndRecord(buf: bytes) returns (eocd: Option<nat>)
    ensures eocd == FindEocd(buf)
  {
    var lo := SearchFloor(buf);
    var i: int := |buf| - 22;
    while i >= lo
      invariant i + 22 <= |buf|
      invariant FindEocd(buf) == ScanEocd(buf, i, lo)
      decreases i + 1
    {
      if ReadLE32(buf, i) == EndSig {
        return Some(i);
      }
      i := i - 1;
    }
    return None;
  }

  /** The `while (ptr < centralOffset + centralSize)` loop of `parseZip`. */
  method WalkDirectory(buf: bytes, start: nat, end: nat) returns (r: Result<map<bytes, CentralEntry>, ZipError>)
    ensures r == Walk(buf, start, end, map[])
  {
    var entries: map<bytes, CentralEntry> := map[];
    var ptr := start;
    while ptr < end
      invariant Walk(buf, start, end, map[]) == Walk(buf, ptr, end, entries)
      decreases end - ptr
    {
      if ptr + 4 > |buf| {
        return Err(OutOfBounds);
      }
      if ReadLE32(buf, ptr) != CentralSig {
        break;
      }
      if ptr + 46 > |buf| {
        return Err(OutOfBounds);
      }
      var compression := ReadLE16(buf, ptr + 10);
      var compressedSize := ReadLE32(buf, ptr + 20);
      var uncompressedSize := ReadLE32(buf, ptr + 24);
      var nameLength := ReadLE16(buf, ptr + 28);
      var extraLength := ReadLE16(buf, ptr + 30);
      var commentLength := ReadLE16(buf, ptr + 32);
      var localOffset := ReadLE32(buf, ptr + 42);
      if ptr + 46 + nameLength > |buf| {
        return Err(OutOfBounds);
      }
      var name := buf[ptr + 46..ptr + 46 + nameLength];
      var entry := CentralEntry(name, compression, compressedSize, uncompressedSize, localOffset);
      var next := ptr + 46 + nameLength + extraLength + commentLength;
      WalkOneRecord(buf, ptr, end, entries, name, entry, next);
      entries := entries[name := entry];
      ptr := next;
    }
    r := Ok(entries);
  }

  /** `getZipEntryData`: the `compressedSize` bytes after the entry's local header, name and extra field. */
  function GetZipEntryData(entry: CentralEntry, buf: bytes): (r: Result<bytes, ZipError>)
    ensures r.Ok? ==> |r.value| == entry.compressedSize && entry.localOffset + 30 <= |buf|
    ensures r.Ok? ==> ReadLE32(buf, entry.localOffset) == LocalSig
  {
    var offset := entry.localOffset;
    if offset + 4 > |buf| then Err(OutOfBounds)
    else if ReadLE32(buf, offset) != LocalSig then Err(BadLocalHeader)
    else if offset + 30 > |buf| then Err(OutOfBounds)
    else
      var dataOffset := offset + 30 + ReadLE16(buf, offset + 26) + ReadLE16(buf, offset + 28);
      if dataOffset + entry.compressedSize > |buf| then Err(OutOfBounds)
      else Ok(buf[dataOffset..dataOffset + entry.compressedSize])
  }

  /**
   * `readZipEntry`: method 0 returns the stored bytes, method 8 hands them to `inflate`
   * (`None` when the browser has no `DecompressionStream` or decompression fails), and every
   * other method is refused.
   */
  function ReadZipEntry(entry: CentralEntry, buf: bytes, inflate: bytes -> Option<bytes>): (r: Result<bytes, ZipError>)
    ensures entry.compression == 0 ==> r == GetZipEntryData(entry, buf)
    ensures entry.compression != 0 && entry.compression != 8 && GetZipEntryData(entry, buf).Ok? ==> r == Err(UnsupportedMethod(entry.compression))
    ensures GetZipEntryData(entry, buf).Err? ==> r == GetZipEntryData(entry, buf)
  {
    match GetZipEntryData(entry, buf)
    case Err(e) => Err(e)
    case Ok(data) =>
      if entry.compression == 0 then Ok(data)
      else if entry.compression == 8 then
        match inflate(data)
        case Some(out) => Ok(out)
        case None => Err(InflateUnavailable)
      else Err(UnsupportedMethod(entry.compression))
  }

  /** `readZipEntryText` before decoding: `None` for a name the directory lacks. */
  function ReadZipEntryBytes(entries: map<bytes, CentralEntry>, buf: bytes, name: bytes, inflate: bytes -> Option<bytes>): (r: Result<Option<bytes>, ZipError>)
    ensures name !in entries ==> r == Ok(None)
    ensures name in entries && ReadZipEntry(entries[name], buf, inflate).Ok? ==> r == Ok(Some(ReadZipEntry(entries[name], buf, inflate).value))
  {
    if name !in entries then Ok(None)
    else
      match ReadZipEntry(entries[name], buf, inflate)
      case Ok(data) => Ok(Some(data))
      case Err(e) => Err(e)
  }

  // ---------------------------------------------------------------- field lemmas

  lemma {:induction false} ReadLE32Field(h: bytes, k: nat, x: nat)
    requires k + 4 <= |h| && h[k..k + 4] == LE32(x)
    ensures ReadLE32(h, k) == x % 0x1_0000_0000
  {
    ReadLE32Within(h, k, LE32(x), 0);
    ReadLE32OfLE32(x);
  }

  lemma {:induction false} ReadLE16Field(h: bytes, k: nat, x: nat)
    requires k + 2 <= |h| && h[k..k + 2] == LE16(x)
    ensures ReadLE16(h, k) == x % 0x1_0000
  {
    ReadLE16Within(h, k, LE16(x), 0);
    ReadLE16OfLE16(x);
  }

  /** The fields of a local header read back as written. */
  lemma {:induction false} LocalFixedFields(e: ZipEntry, crc: nat)
    ensures ReadLE32(LocalFixed(e, crc), 0) == LocalSig
    ensures ReadLE16(LocalFixed(e, crc), 8) == 0
    ensures ReadLE32(LocalFixed(e, crc), 14) == crc % 0x1_0000_0000
    ensures ReadLE32(LocalFixed(e, crc), 18) == |e.data| % 0x1_0000_0000
    ensures ReadLE32(LocalFixed(e, crc), 22) == |e.data| % 0x1_0000_0000
    ensures ReadLE16(LocalFixed(e, crc), 26) == |e.name| % 0x1_0000
    ensures ReadLE16(LocalFixed(e, crc), 28) == 0
  {
    var h := LocalFixed(e, crc);
    assert h[0..4] == LE32(LocalSig);
    ReadLE32Field(h, 0, LocalSig);
    assert h[8..10] == LE16(0);
    ReadLE16Field(h, 8, 0);
    assert h[14..18] == LE32(crc);
    ReadLE32Field(h, 14, crc);
    assert h[18..22] == LE32(|e.data|);
    ReadLE32Field(h, 18, |e.data|);
    assert h[22..26] == LE32(|e.data|);
    ReadLE32Field(h, 22, |e.data|);
    assert h[26..28] == LE16(|e.name|);
    ReadLE16Field(h, 26, |e.name|);
    assert h[28..30] == LE16(0);
    ReadLE16Field(h, 28, 0);
  }

  /** The fields of a central directory header read back as written. */
  lemma {:induction false} CentralFixedFields(e: ZipEntry, crc: nat, offset: nat)
    ensures ReadLE32(CentralFixed(e, crc, offset), 0) == CentralSig
    ensures ReadLE16(CentralFixed(e, crc, offset), 10) == 0
    ensures ReadLE32(CentralFixed(e, crc, offset), 16) == crc % 0x1_0000_0000
    ensures ReadLE32(CentralFixed(e, crc, offset), 20) == |e.data| % 0x1_0000_0000
    ensures ReadLE32(CentralFixed(e, crc, offset), 24) == |e.data| % 0x1_0000_0000
    ensures ReadLE16(CentralFixed(e, crc, offset), 28) == |e.name| % 0x1_0000
    ensures ReadLE16(CentralFixed(e, crc, offset), 30) == 0
    ensures ReadLE16(CentralFixed(e, crc, offset), 32) == 0
    ensures ReadLE32(CentralFixed(e, crc, offset), 42) == offset % 0x1_0000_0000
  {
    var h := CentralFixed(e, crc, offset);
    CentralFieldsLow(h, e, crc, offset);
    CentralFieldsHigh(h, e, crc, offset);
  }

  lemma {:induction false} CentralFieldsLow(h: bytes, e: ZipEntry, crc: nat, offset: nat)
    requires h == CentralFixed(e, crc, offset)
    ensures ReadLE32(h, 0) == CentralSig && ReadLE16(h, 10) == 0
    ensures ReadLE32(h, 16) == crc % 0x1_0000_0000
    ensures ReadLE32(h, 20) == |e.data| % 0x1_0000_0000
  {
    assert h[0..4] == LE32(CentralSig);
    ReadLE32Field(h, 0, CentralSig);
    assert h[10..12] == LE16(0);
    ReadLE16Field(h, 10, 0);
    assert h[16..20] == LE32(crc);
    ReadLE32Field(h, 16, crc);
    assert h[20..24] == LE32(|e.data|);
    ReadLE32Field(h, 20, |e.data|);
  }

  lemma {:induction false} CentralFieldsHigh(h: bytes, e: ZipEntry, crc: nat, offset: nat)
    requires h == CentralFixed(e, crc, offset)
    ensures ReadLE32(h, 24) == |e.data| % 0x1_0000_0000
    ensures ReadLE16(h, 28) == |e.name| % 0x1_0000
    ensures ReadLE16(h, 30) == 0 && ReadLE16(h, 32) == 0
    ensures ReadLE32(h, 42) == offset % 0x1_0000_0000
  {
    assert h[24..28] == LE32(|e.data|);
    ReadLE32Field(h, 24, |e.data|);
    assert h[28..30] == LE16(|e.name|);
    ReadLE16Field(h, 28, |e.name|);
    assert h[30..32] == LE16(0);
    ReadLE16Field(h, 30, 0);
    assert h[32..34] == LE16(0);
    ReadLE16Field(h, 32, 0);
    assert h[42..46] == LE32(offset);
    ReadLE32Field(h, 42, offset);
  }

  /** The fields of the end record read back as written. */
  lemma {:induction false} EocdFields(count: nat, cdSize: nat, cdOffset: nat)
    ensures ReadLE32(Eocd(count, cdSize, cdOffset), 0) == EndSig
    ensures ReadLE16(Eocd(count, cdSize, cdOffset), 8) == count % 0x1_0000
    ensures ReadLE16(Eocd(count, cdSize, cdOffset), 10) == count % 0x1_0000
    ensures ReadLE32(Eocd(count, cdSize, cdOffset), 12) == cdSize % 0x1_0000_0000
    ensures ReadLE32(Eocd(count, cdSize, cdOffset), 16) == cdOffset % 0x1_0000_0000
  {
    var h := Eocd(count, cdSize, cdOffset);
    assert h[0..4] == LE32(EndSig);
    ReadLE32Field(h, 0, EndSig);
    assert h[8..10] == LE16(count);
    ReadLE16Field(h, 8, count);
    assert h[10..12] == LE16(count);
    ReadLE16Field(h, 10, count);
    assert h[12..16] == LE32(cdSize);
    ReadLE32Field(h, 12, cdSize);
    assert h[16..20] == LE32(cdOffset);
    ReadLE32Field(h, 16, cdOffset);
  }

  // ---------------------------------------------------------------- round trip

  /** What `parseZip` should record for an entry `buildZip` wrote at `offset`: stored, both sizes the data length. */
  function Stored(e: ZipEntry, offset: nat): (c: CentralEntry)
    ensures c.name == e.name && c.compression == 0
    ensures c.compressedSize == |e.data| == c.uncompressedSize && c.localOffset == offset
  {
    CentralEntry(e.name, 0, |e.data|, |e.data|, offset)
  }

  /** The directory `buildZip`'s entries describe, later names replacing earlier ones as `Map.set` does. */
  function Directory(es: seq<ZipEntry>): map<bytes, CentralEntry>
    decreases |es|
  {
    if es == [] then map[]
    else
      var init := es[..|es| - 1];
      Directory(init)[es[|es| - 1].name := Stored(es[|es| - 1], LocalsSize(init))]
  }

  /** The entries fit the fields: 16-bit count and name lengths, 32-bit sizes and offsets. */
  predicate Representable(es: seq<ZipEntry>) {
    && |es| < 0x1_0000
    && (forall i :: 0 <= i < |es| ==> |es[i].name| < 0x1_0000)
    && LocalsSize(es) < 0x1_0000_0000
    && CentralsSize(es) < 0x1_0000_0000
  }

  lemma {:induction false} LocalsPrefix(es: seq<ZipEntry>, j: nat, crcOf: Checksum)
    requires j <= |es|
    ensures LocalsSize(es[..j]) <= LocalsSize(es)
    ensures Locals(es, crcOf)[..LocalsSize(es[..j])] == Locals(es[..j], crcOf)
    decreases |es|
  {
    if j == |es| {
      assert es[..j] == es;
    } else {
      var init := es[..|es| - 1];
      assert init[..j] == es[..j];
      LocalsPrefix(init, j, crcOf);
      ConcatParts(Locals(init, crcOf), LocalPart(es[|es| - 1], crcOf));
    }
  }

  lemma {:induction false} CentralsPrefix(es: seq<ZipEntry>, j: nat, crcOf: Checksum)
    requires j <= |es|
    ensures CentralsSize(es[..j]) <= CentralsSize(es)
    ensures Centrals(es, crcOf)[..CentralsSize(es[..j])] == Centrals(es[..j], crcOf)
    decreases |es|
  {
    if j == |es| {
      assert es[..j] == es;
    } else {
      var init := es[..|es| - 1];
      assert init[..j] == es[..j];
      CentralsPrefix(init, j, crcOf);
    }
  }

  /** Entry `k`'s local part sits at offset `LocalsSize(es[..k])` of the archive. */
  lemma {:induction false} LocalPartAt(es: seq<ZipEntry>, k: nat, crcOf: Checksum)
    requires k < |es|
    ensures LocalsSize(es[..k]) + PartSize(es[k]) <= LocalsSize(es)
    ensures Locals(es, crcOf)[LocalsSize(es[..k])..LocalsSize(es[..k]) + PartSize(es[k])] == LocalPart(es[k], crcOf)
  {
    LocalsSnoc(es, k, crcOf);
    LocalsPrefix(es, k + 1, crcOf);
    var a, b := Locals(es[..k], crcOf), LocalPart(es[k], crcOf);
    ConcatParts(a, b);
    SliceWithin(Locals(es, crcOf), 0, |a + b|, a + b, |a|, |b|);
  }

  /** Entry `k`'s central header sits at offset `CentralsSize(es[..k])` of the central directory. */
  lemma {:induction false} CentralHeaderAt(es: seq<ZipEntry>, k: nat, crcOf: Checksum)
    requires k < |es|
    ensures CentralsSize(es[..k]) + CentralSize(es[k]) <= CentralsSize(es)
    ensures Centrals(es, crcOf)[CentralsSize(es[..k])..CentralsSize(es[..k]) + CentralSize(es[k])]
         == CentralHeader(es[k], crcOf(es[k].data), LocalsSize(es[..k]))
  {
    CentralsSnoc(es, k, crcOf);
    CentralsPrefix(es, k + 1, crcOf);
    var a, b := Centrals(es[..k], crcOf), CentralHeader(es[k], crcOf(es[k].data), LocalsSize(es[..k]));
    ConcatParts(a, b);
    SliceWithin(Centrals(es, crcOf), 0, |a + b|, a + b, |a|, |b|);
  }

  /** One round of the walk over a record with the central signature. */
  lemma {:induction false} WalkUnfold(buf: bytes, p: nat, end: nat, acc: map<bytes, CentralEntry>)
    requires p < end && p + 46 <= |buf| && ReadLE32(buf, p) == CentralSig
    requires p + 46 + ReadLE16(buf, p + 28) <= |buf|
    ensures Walk(buf, p, end, acc)
         == Walk(buf, p + 46 + ReadLE16(buf, p + 28) + ReadLE16(buf, p + 30) + ReadLE16(buf, p + 32), end,
                 acc[buf[p + 46..p + 46 + ReadLE16(buf, p + 28)] :=
                     CentralEntry(buf[p + 46..p + 46 + ReadLE16(buf, p + 28)], ReadLE16(buf, p + 10),
                                  ReadLE32(buf, p + 20), ReadLE32(buf, p + 24), ReadLE32(buf, p + 42))])
  {
  }

  /** One round of the walk, with the record's fields already read. */
  lemma {:induction false} WalkOneRecord(buf: bytes, p: nat, end: nat, acc: map<bytes, CentralEntry>,
                                         name: bytes, entry: CentralEntry, next: nat)
    requires p < end && p + 46 <= |buf| && ReadLE32(buf, p) == CentralSig
    requires p + 46 + ReadLE16(buf, p + 28) <= |buf|
    requires name == buf[p + 46..p + 46 + ReadLE16(buf, p + 28)]
    requires entry == CentralEntry(name, ReadLE16(buf, p + 10), ReadLE32(buf, p + 20), ReadLE32(buf, p + 24), ReadLE32(buf, p + 42))
    requires next == p + 46 + ReadLE16(buf, p + 28) + ReadLE16(buf, p + 30) + ReadLE16(buf, p + 32)
    ensures Walk(buf, p, end, acc) == Walk(buf, next, end, acc[name := entry])
  {
    WalkUnfold(buf, p, end, acc);
  }

  /** The fields `parseZip` reads from a central header `buildZip` wrote at `p`. */
  lemma {:induction false} CentralHeaderReads(buf: bytes, p: nat, e: ZipEntry, crc: nat, offset: nat)
    requires p + CentralSize(e) <= |buf| && buf[p..p + CentralSize(e)] == CentralHeader(e, crc, offset)
    requires |e.name| < 0x1_0000 && |e.data| < 0x1_0000_0000 && offset < 0x1_0000_0000
    ensures CentralRecordAt(buf, p, e, offset)
    ensures ReadLE32(buf, p + 16) == crc % 0x1_0000_0000
  {
    var fixed := CentralFixed(e, crc, offset);
    var h := fixed + e.name;
    ConcatParts(fixed, e.name);
    SliceWithin(buf, p, |h|, h, 0, 46);
    SliceWithin(buf, p, |h|, h, 46, |e.name|);
    CentralFixedFields(e, crc, offset);
    ModSmall(|e.name|, 0x1_0000);
    ModSmall(|e.data|, 0x1_0000_0000);
    ModSmall(offset, 0x1_0000_0000);
    ReadLE32Within(buf, p, fixed, 0);
    ReadLE16Within(buf, p, fixed, 10);
    ReadLE32Within(buf, p, fixed, 16);
    ReadLE32Within(buf, p, fixed, 20);
    ReadLE32Within(buf, p, fixed, 24);
    ReadLE16Within(buf, p, fixed, 28);
    ReadLE16Within(buf, p, fixed, 30);
    ReadLE16Within(buf, p, fixed, 32);
    ReadLE32Within(buf, p, fixed, 42);
  }

  /** The fields `getZipEntryData` reads from a local part `buildZip` wrote at `p`. */
  lemma {:induction false} LocalPartReads(buf: bytes, p: nat, e: ZipEntry, crc: nat)
    requires p + PartSize(e) <= |buf| && buf[p..p + PartSize(e)] == LocalHeader(e, crc) + e.data
    requires |e.name| < 0x1_0000
    ensures ReadLE32(buf, p) == LocalSig && ReadLE16(buf, p + 8) == 0
    ensures ReadLE32(buf, p + 14) == crc % 0x1_0000_0000
    ensures ReadLE16(buf, p + 26) == |e.name| && ReadLE16(buf, p + 28) == 0
    ensures buf[p + 30 + |e.name|..p + PartSize(e)] == e.data
  {
    var fixed := LocalFixed(e, crc);
    var part := fixed + e.name + e.data;
    assert part == LocalHeader(e, crc) + e.data;
    SliceWithin(buf, p, |part|, part, 0, 30);
    SliceWithin(buf, p, |part|, part, 30 + |e.name|, |e.data|);
    ConcatParts(fixed + e.name, e.data);
    assert part[..30] == fixed;
    LocalFixedFields(e, crc);
    ModSmall(|e.name|, 0x1_0000);
    ReadLE32Within(buf, p, fixed, 0);
    ReadLE16Within(buf, p, fixed, 8);
    ReadLE32Within(buf, p, fixed, 14);
    ReadLE16Within(buf, p, fixed, 26);
    ReadLE16Within(buf, p, fixed, 28);
  }

  /** The central directory record `parseZip` expects at `p` for entry `e` with its local part at `offset`. */
  predicate CentralRecordAt(buf: bytes, p: nat, e: ZipEntry, offset: nat) {
    && p + CentralSize(e) <= |buf|
    && ReadLE32(buf, p) == CentralSig && ReadLE16(buf, p + 10) == 0
    && ReadLE32(buf, p + 20) == |e.data| && ReadLE32(buf, p + 24) == |e.data|
    && ReadLE16(buf, p + 28) == |e.name| && ReadLE16(buf, p + 30) == 0 && ReadLE16(buf, p + 32) == 0
    && ReadLE32(buf, p + 42) == offset
    && buf[p + 46..p + 46 + |e.name|] == e.name
  }

  /** Entry `k`'s record sits where `buildZip` puts its central header, `base` being where the directory starts. */
  predicate RecordInPlace(buf: bytes, base: nat, es: seq<ZipEntry>, k: nat)
    requires k < |es|
  {
    CentralRecordAt(buf, base + CentralsSize(es[..k]), es[k], LocalsSize(es[..k]))
  }

  /** Every entry's record sits in place. */
  predicate DirectoryAt(buf: bytes, base: nat, es: seq<ZipEntry>) {
    forall k: nat :: k < |es| ==> RecordInPlace(buf, base, es, k)
  }

  /** One round of the walk over a record `buildZip` wrote. */
  lemma {:induction false} WalkStep(buf: bytes, base: nat, end: nat, es: seq<ZipEntry>, j: nat, acc: map<bytes, CentralEntry>)
    requires j < |es| && RecordInPlace(buf, base, es, j) && base + CentralsSize(es[..j]) < end
    ensures Walk(buf, base + CentralsSize(es[..j]), end, acc)
         == Walk(buf, base + CentralsSize(es[..j]) + CentralSize(es[j]), end, acc[es[j].name := Stored(es[j], LocalsSize(es[..j]))])
  {
    WalkRecord(buf, base + CentralsSize(es[..j]), end, es[j], LocalsSize(es[..j]), acc);
  }

  lemma {:induction false} WalkRecord(buf: bytes, p: nat, end: nat, e: ZipEntry, offset: nat, acc: map<bytes, CentralEntry>)
    requires p < end && CentralRecordAt(buf, p, e, offset)
    ensures Walk(buf, p, end, acc) == Walk(buf, p + CentralSize(e), end, acc[e.name := Stored(e, offset)])
  {
    WalkUnfold(buf, p, end, acc);
  }

  /** The walk over the central directory `buildZip` wrote, from record `j` on. */
  lemma {:induction false} WalkFrom(buf: bytes, base: nat, es: seq<ZipEntry>, j: nat)
    requires j <= |es| && DirectoryAt(buf, base, es)
    ensures Walk(buf, base + CentralsSize(es[..j]), base + CentralsSize(es), Directory(es[..j])) == Ok(Directory(es))
    decreases |es| - j
  {
    if j == |es| {
      assert es[..j] == es;
    } else {
      WalkAdvance(buf, base, es, j);
      WalkFrom(buf, base, es, j + 1);
    }
  }

  /** After record `j` the walk continues at record `j + 1` with entry `j` added. */
  lemma {:induction false} WalkAdvance(buf: bytes, base: nat, es: seq<ZipEntry>, j: nat)
    requires j < |es| && DirectoryAt(buf, base, es)
    ensures Walk(buf, base + CentralsSize(es[..j]), base + CentralsSize(es), Directory(es[..j]))
         == Walk(buf, base + CentralsSize(es[..j + 1]), base + CentralsSize(es), Directory(es[..j + 1]))
  {
    CentralsSizePrefix(es, j + 1);
    CentralsSizeSnoc(es, j);
    assert RecordInPlace(buf, base, es, j);
    WalkStep(buf, base, base + CentralsSize(es), es, j, Directory(es[..j]));
    DirectorySnoc(es, j);
  }

  lemma {:induction false} DirectorySnoc(es: seq<ZipEntry>, j: nat)
    requires j < |es|
    ensures Directory(es[..j + 1]) == Directory(es[..j])[es[j].name := Stored(es[j], LocalsSize(es[..j]))]
  {
    assert es[..j + 1][..j] == es[..j];
  }

  lemma {:induction false} CentralsSizeSnoc(es: seq<ZipEntry>, j: nat)
    requires j < |es|
    ensures CentralsSize(es[..j + 1]) == CentralsSize(es[..j]) + CentralSize(es[j])
  {
    assert es[..j + 1][..j] == es[..j];
  }

  lemma {:induction false} CentralsSizePrefix(es: seq<ZipEntry>, j: nat)
    requires j <= |es|
    ensures CentralsSize(es[..j]) <= CentralsSize(es)
    decreases |es|
  {
    if j < |es| {
      var init := es[..|es| - 1];
      assert init[..j] == es[..j];
      CentralsSizePrefix(init, j);
    } else {
      assert es[..j] == es;
    }
  }

  /** How `buildZip`'s output is laid out: the local parts, then the central directory, then the end record. */
  predicate Layout(buf: bytes, es: seq<ZipEntry>, crcOf: Checksum) {
    && |buf| == LocalsSize(es) + CentralsSize(es) + 22
    && LocalsAt(buf, es, crcOf) && CentralsAt(buf, es, crcOf) && EndAt(buf, es)
  }

  predicate LocalsAt(buf: bytes, es: seq<ZipEntry>, crcOf: Checksum) {
    LocalsSize(es) <= |buf| && buf[0..LocalsSize(es)] == Locals(es, crcOf)
  }

  predicate CentralsAt(buf: bytes, es: seq<ZipEntry>, crcOf: Checksum) {
    LocalsSize(es) + CentralsSize(es) <= |buf| && buf[LocalsSize(es)..LocalsSize(es) + CentralsSize(es)] == Centrals(es, crcOf)
  }

  predicate EndAt(buf: bytes, es: seq<ZipEntry>) {
    && LocalsSize(es) + CentralsSize(es) + 22 <= |buf|
    && buf[LocalsSize(es) + CentralsSize(es)..LocalsSize(es) + CentralsSize(es) + 22] == Eocd(|es|, CentralsSize(es), LocalsSize(es))
  }

  /** `buildZip`'s output has that layout. */
  lemma {:induction false} ZipImageLayout(es: seq<ZipEntry>, crcOf: Checksum)
    ensures Layout(ZipImage(es, crcOf), es, crcOf)
  {
    var a, c, d := Locals(es, crcOf), Centrals(es, crcOf), Eocd(|es|, CentralsSize(es), LocalsSize(es));
    ConcatParts(a + c, d);
    ConcatParts(a, c);
    SliceWithin(a + c + d, 0, |a + c|, a + c, 0, |a|);
    SliceWithin(a + c + d, 0, |a + c|, a + c, |a|, |c|);
  }

  /** Entry `k`'s local part inside a laid-out archive. */
  lemma {:induction false} LocalPartInLayout(buf: bytes, es: seq<ZipEntry>, k: nat, crcOf: Checksum)
    requires LocalsAt(buf, es, crcOf) && k < |es|
    ensures LocalsSize(es[..k]) + PartSize(es[k]) <= LocalsSize(es)
    ensures buf[LocalsSize(es[..k])..LocalsSize(es[..k]) + PartSize(es[k])] == LocalPart(es[k], crcOf)
  {
    LocalPartAt(es, k, crcOf);
    SliceWithin(buf, 0, LocalsSize(es), Locals(es, crcOf), LocalsSize(es[..k]), PartSize(es[k]));
  }

  /** Entry `k`'s central header inside a laid-out archive. */
  lemma {:induction false} CentralHeaderInLayout(buf: bytes, es: seq<ZipEntry>, k: nat, crcOf: Checksum)
    requires CentralsAt(buf, es, crcOf) && k < |es|
    ensures LocalsSize(es) + CentralsSize(es[..k]) + CentralSize(es[k]) <= |buf|
    ensures buf[LocalsSize(es) + CentralsSize(es[..k])..LocalsSize(es) + CentralsSize(es[..k]) + CentralSize(es[k])]
         == CentralHeader(es[k], crcOf(es[k].data), LocalsSize(es[..k]))
  {
    var e, init := es[k], es[..k];
    CentralHeaderAt(es, k, crcOf);
    SliceChain(buf, LocalsSize(es), CentralsSize(es), Centrals(es, crcOf), CentralsSize(init), CentralSize(e),
               CentralHeader(e, crcOf(e.data), LocalsSize(init)));
  }

  /** A part of a part copied into `b` is found in `b` at the sum of the offsets. */
  lemma {:induction false} SliceChain(b: bytes, p: nat, n: nat, h: bytes, q: nat, m: nat, g: bytes)
    requires p + n <= |b| && b[p..p + n] == h && q + m <= n && h[q..q + m] == g
    ensures p + q + m <= |b| && b[p + q..p + q + m] == g
  {
    SliceWithin(b, p, n, h, q, m);
  }

  /** Entry `k`'s central header is the record `DirectoryAt` expects, and it carries the entry's checksum. */
  lemma {:induction false} RecordInLayout(buf: bytes, es: seq<ZipEntry>, k: nat, crcOf: Checksum)
    requires Representable(es) && CentralsAt(buf, es, crcOf) && k < |es|
    ensures RecordInPlace(buf, LocalsSize(es), es, k)
    ensures LocalsSize(es) + CentralsSize(es[..k]) + 46 <= |buf|
    ensures ReadLE32(buf, LocalsSize(es) + CentralsSize(es[..k]) + 16) == crcOf(es[k].data) % 0x1_0000_0000
    ensures ReadLE16(buf, LocalsSize(es) + CentralsSize(es[..k]) + 10) == 0
  {
    CentralHeaderInLayout(buf, es, k, crcOf);
    LocalPartAt(es, k, crcOf);
    CentralHeaderReads(buf, LocalsSize(es) + CentralsSize(es[..k]), es[k], crcOf(es[k].data), LocalsSize(es[..k]));
  }

  /** The fields of the end record of a laid-out archive read back as written. */
  lemma {:induction false} EndFieldsInLayout(buf: bytes, es: seq<ZipEntry>)
    requires Representable(es) && EndAt(buf, es)
    ensures ReadLE32(buf, LocalsSize(es) + CentralsSize(es)) == EndSig
    ensures ReadLE16(buf, LocalsSize(es) + CentralsSize(es) + 8) == |es|
    ensures ReadLE16(buf, LocalsSize(es) + CentralsSize(es) + 10) == |es|
    ensures ReadLE32(buf, LocalsSize(es) + CentralsSize(es) + 12) == CentralsSize(es)
    ensures ReadLE32(buf, LocalsSize(es) + CentralsSize(es) + 16) == LocalsSize(es)
  {
    EndRecordReads(buf, LocalsSize(es) + CentralsSize(es), |es|, CentralsSize(es), LocalsSize(es));
  }

  /** The fields `parseZip` reads from an end record written at `p`. */
  lemma {:induction false} EndRecordReads(buf: bytes, p: nat, count: nat, cdSize: nat, cdOffset: nat)
    requires p + 22 <= |buf| && buf[p..p + 22] == Eocd(count, cdSize, cdOffset)
    requires count < 0x1_0000 && cdSize < 0x1_0000_0000 && cdOffset < 0x1_0000_0000
    ensures ReadLE32(buf, p) == EndSig
    ensures ReadLE16(buf, p + 8) == count && ReadLE16(buf, p + 10) == count
    ensures ReadLE32(buf, p + 12) == cdSize && ReadLE32(buf, p + 16) == cdOffset
  {
    var eocd := Eocd(count, cdSize, cdOffset);
    EocdFields(count, cdSize, cdOffset);
    ModSmall(count, 0x1_0000);
    ModSmall(cdSize, 0x1_0000_0000);
    ModSmall(cdOffset, 0x1_0000_0000);
    ReadLE32Within(buf, p, eocd, 0);
    ReadLE16Within(buf, p, eocd, 8);
    ReadLE16Within(buf, p, eocd, 10);
    ReadLE32Within(buf, p, eocd, 12);
    ReadLE32Within(buf, p, eocd, 16);
  }

  /** The backwards search stops at once when the last 22 bytes start with the end signature. */
  lemma {:induction false} EndFoundLast(buf: bytes, p: nat)
    requires |buf| == p + 22 && ReadLE32(buf, p) == EndSig
    ensures FindEocd(buf) == Some(p)
  {
  }

  /** `parseZip` on a laid-out archive yields exactly the directory of the entries. */
  lemma {:induction false} DirectoryOfLayout(buf: bytes, es: seq<ZipEntry>, crcOf: Checksum)
    requires Representable(es) && Layout(buf, es, crcOf)
    ensures ZipDirectory(buf) == Ok(Directory(es))
  {
    EndFieldsInLayout(buf, es);
    DirectoryAtLayout(buf, es, crcOf);
    DirectoryOfRecords(buf, es);
  }

  /** Every central header of a laid-out archive is the record the walk expects. */
  lemma {:induction false} DirectoryAtLayout(buf: bytes, es: seq<ZipEntry>, crcOf: Checksum)
    requires Representable(es) && CentralsAt(buf, es, crcOf)
    ensures DirectoryAt(buf, LocalsSize(es), es)
  {
    forall k: nat | k < |es|
      ensures RecordInPlace(buf, LocalsSize(es), es, k)
    {
      RecordInLayout(buf, es, k, crcOf);
    }
  }

  /** An archive ending in an end record that points at records in place yields their directory. */
  lemma {:induction false} DirectoryOfRecords(buf: bytes, es: seq<ZipEntry>)
    requires |buf| == LocalsSize(es) + CentralsSize(es) + 22
    requires ReadLE32(buf, LocalsSize(es) + CentralsSize(es)) == EndSig
    requires ReadLE32(buf, LocalsSize(es) + CentralsSize(es) + 12) == CentralsSize(es)
    requires ReadLE32(buf, LocalsSize(es) + CentralsSize(es) + 16) == LocalsSize(es)
    requires DirectoryAt(buf, LocalsSize(es), es)
    ensures ZipDirectory(buf) == Ok(Directory(es))
  {
    var p := LocalsSize(es) + CentralsSize(es);
    EndFoundLast(buf, p);
    DirectoryFromEnd(buf, p);
    WalkFrom(buf, LocalsSize(es), es, 0);
    assert es[..0] == [];
  }

  /** With the end record found at `p`, `parseZip` walks the directory that record points at. */
  lemma {:induction false} DirectoryFromEnd(buf: bytes, p: nat)
    requires p + 22 <= |buf| && FindEocd(buf) == Some(p)
    ensures ZipDirectory(buf) == Walk(buf, ReadLE32(buf, p + 16), ReadLE32(buf, p + 16) + ReadLE32(buf, p + 12), map[])
  {
  }

  /** `readZipEntry` on entry `k` of a laid-out archive returns the entry's bytes. */
  lemma {:induction false} EntryOfLayout(buf: bytes, es: seq<ZipEntry>, k: nat, crcOf: Checksum, inflate: bytes -> Option<bytes>)
    requires Representable(es) && Layout(buf, es, crcOf) && k < |es|
    ensures ReadZipEntry(Stored(es[k], LocalsSize(es[..k])), buf, inflate) == Ok(es[k].data)
  {
    LocalPartInLayout(buf, es, k, crcOf);
    EntryDataOfLocalPart(buf, es[k], crcOf(es[k].data), LocalsSize(es[..k]));
  }

  /** The local header of entry `k` of a laid-out archive carries its checksum and compression method 0. */
  lemma {:induction false} LocalChecksumInLayout(buf: bytes, es: seq<ZipEntry>, k: nat, crcOf: Checksum)
    requires Representable(es) && LocalsAt(buf, es, crcOf) && k < |es|
    ensures LocalsSize(es[..k]) + 30 <= |buf|
    ensures ReadLE32(buf, LocalsSize(es[..k]) + 14) == crcOf(es[k].data) % 0x1_0000_0000
    ensures ReadLE16(buf, LocalsSize(es[..k]) + 8) == 0
  {
    LocalPartInLayout(buf, es, k, crcOf);
    LocalPartReads(buf, LocalsSize(es[..k]), es[k], crcOf(es[k].data));
  }

  /** `parseZip` on `buildZip`'s output yields exactly the directory of the entries. */
  lemma {:induction false} ParseZipOfBuildZip(es: seq<ZipEntry>, crcOf: Checksum)
    requires Representable(es)
    ensures ZipDirectory(ZipImage(es, crcOf)) == Ok(Directory(es))
  {
    ZipImageLayout(es, crcOf);
    DirectoryOfLayout(ZipImage(es, crcOf), es, crcOf);
  }

  /** The directory holds exactly the entries' names. */
  lemma {:induction false} DirectoryKeys(es: seq<ZipEntry>)
    ensures Directory(es).Keys == set i | 0 <= i < |es| :: es[i].name
    decreases |es|
  {
    if es != [] {
      var init := es[..|es| - 1];
      DirectoryKeys(init);
      assert forall i :: 0 <= i < |init| ==> init[i] == es[i];
    }
  }

  /** A name maps to the entry written last under it, at that entry's local offset. */
  lemma {:induction false} DirectoryLookup(es: seq<ZipEntry>, k: nat)
    requires k < |es|
    requires forall j :: k < j < |es| ==> es[j].name != es[k].name
    ensures es[k].name in Directory(es)
    ensures Directory(es)[es[k].name] == Stored(es[k], LocalsSize(es[..k]))
    decreases |es|
  {
    var init := es[..|es| - 1];
    if k < |es| - 1 {
      assert init[k] == es[k] && init[..k] == es[..k];
      DirectoryLookup(init, k);
    } else {
      assert init == es[..k];
    }
  }

  /** `getZipEntryData` on a local part `buildZip` wrote returns the original payload. */
  lemma {:induction false} EntryDataOfLocalPart(buf: bytes, e: ZipEntry, crc: nat, offset: nat)
    requires |e.name| < 0x1_0000
    requires offset + PartSize(e) <= |buf| && buf[offset..offset + PartSize(e)] == LocalHeader(e, crc) + e.data
    ensures GetZipEntryData(Stored(e, offset), buf) == Ok(e.data)
  {
    LocalPartReads(buf, offset, e, crc);
  }

  /**
   * The structural round trip: every entry `buildZip` wrote (the last one under each name)
   * comes back from `parseZip` stored, with both sizes equal to its length, and
   * `readZipEntry` returns its bytes without ever calling the inflater.
   */
  lemma {:induction false} ZipRoundTrip(es: seq<ZipEntry>, k: nat, crcOf: Checksum, inflate: bytes -> Option<bytes>)
    requires Representable(es) && k < |es|
    requires forall j :: k < j < |es| ==> es[j].name != es[k].name
    ensures ZipDirectory(ZipImage(es, crcOf)).Ok?
    ensures es[k].name in ZipDirectory(ZipImage(es, crcOf)).value
    ensures ZipDirectory(ZipImage(es, crcOf)).value[es[k].name] == Stored(es[k], LocalsSize(es[..k]))
    ensures ReadZipEntry(Stored(es[k], LocalsSize(es[..k])), ZipImage(es, crcOf), inflate) == Ok(es[k].data)
  {
    ZipImageLayout(es, crcOf);
    DirectoryOfLayout(ZipImage(es, crcOf), es, crcOf);
    DirectoryLookup(es, k);
    EntryOfLayout(ZipImage(es, crcOf), es, k, crcOf, inflate);
  }

  /** In `buildZip`'s output both headers of every entry hold the CRC-32 of its data and method 0. */
  lemma {:induction false} BuildZipCrc(es: seq<ZipEntry>, k: nat)
    requires Representable(es) && k < |es|
    ensures LocalsSize(es[..k]) + 30 <= |ZipImage(es, CrcValue)|
    ensures ReadLE32(ZipImage(es, CrcValue), LocalsSize(es[..k]) + 14) == Crc32(es[k].data) as nat
    ensures ReadLE16(ZipImage(es, CrcValue), LocalsSize(es[..k]) + 8) == 0
    ensures LocalsSize(es) + CentralsSize(es[..k]) + 46 <= |ZipImage(es, CrcValue)|
    ensures ReadLE32(ZipImage(es, CrcValue), LocalsSize(es) + CentralsSize(es[..k]) + 16) == Crc32(es[k].data) as nat
    ensures ReadLE16(ZipImage(es, CrcValue), LocalsSize(es) + CentralsSize(es[..k]) + 10) == 0
  {
    ZipImageLayout(es, CrcValue);
    LocalChecksumInLayout(ZipImage(es, CrcValue), es, k, CrcValue);
    RecordInLayout(ZipImage(es, CrcValue), es, k, CrcValue);
    ModSmall(CrcValue(es[k].data), 0x1_0000_0000);
  }
}
