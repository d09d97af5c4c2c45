/**
 * The CRC-32 the XLSX writer stores in every ZIP header (logger/app.js `makeCrcTable`, `crc32`):
 * the reflected CRC-32 of PKWARE APPNOTE.TXT section 4.4.7, polynomial 0xEDB88320, initial value
 * and final XOR 0xFFFFFFFF, computed with a 256-entry table.
 */
module LoggerCrc {
  import opened Bytes

  const Polynomial: bv32 := 0xEDB8_8320

  /** One bit of the reflected shift register, as the inner loop of `makeCrcTable` writes it. */
  function CrcStep(c: bv32): bv32 {
    if c & 1 == 1 then Polynomial ^ (c >> 1) else c >> 1
  }

  /** `n` steps of the register. */
  function CrcSteps(c: bv32, n: nat): bv32
    decreases n
  {
    if n == 0 then c else CrcSteps(CrcStep(c), n - 1)
  }

  /** The 32-bit register holding the number `k`, counted up from zero (`k` steps of `+ 1`). */
  function Counter(k: nat): bv32
    decreases k
  {
    if k == 0 then 0 else Counter(k - 1) + 1
  }

  /** Entry `k` of `makeCrcTable`: the register started at `k` after eight steps. */
  function TableEntry(k: nat): bv32
    requires k < 256
  {
    CrcSteps(Counter(k), 8)
  }

  /** Known entries of the standard table: 0 stays 0, 1 gives 0x77073096; the register value 0x80 gives the polynomial itself. */
  lemma {:induction false} TableEntrySamples()
    ensures TableEntry(0) == 0
    ensures TableEntry(1) == 0x7707_3096
    ensures CrcSteps(0x80, 8) == Polynomial
    ensures CrcSteps(0xFF, 8) == 0x2D02_EF8D
  {
  }

  /** The table slot `crc32` reads for byte `b`: `(crc ^ b) & 0xff`. */
  function TableIndex(c: bv32, b: byte): (k: nat)
    ensures k < 256
  {
    ((c ^ (b as bv32)) & 0xFF) as nat
  }

  /** The table-driven update of `crc32`: `(crc >>> 8) ^ CRC_TABLE[(crc ^ b) & 0xff]`. */
  function TableUpdate(c: bv32, b: byte): bv32 {
    (c >> 8) ^ TableEntry(TableIndex(c, b))
  }

  /** The register after all of `s`, fed byte by byte from `c`. */
  function CrcFold(c: bv32, s: bytes): bv32
    decreases |s|
  {
    if s == [] then c else CrcFold(TableUpdate(c, s[0]), s[1..])
  }

  /** `crc32(bytes)` as the table-driven loop computes it. */
  function Crc32(s: bytes): bv32 {
    CrcFold(0xFFFF_FFFF, s) ^ 0xFFFF_FFFF
  }

  /** The register after a concatenation is the register after the second part, started from the first. */
  lemma {:induction false} CrcFoldAppend(c: bv32, a: bytes, b: bytes)
    ensures CrcFold(c, a + b) == CrcFold(CrcFold(c, a), b)
    decreases |a|
  {
    if a == [] {
      assert a + b == b;
    } else {
      assert (a + b)[0] == a[0];
      assert (a + b)[1..] == a[1..] + b;
      CrcFoldAppend(TableUpdate(c, a[0]), a[1..], b);
    }
  }

  /** `makeCrcTable`: entry `k` is `k` after eight register steps. */
  method MakeCrcTable() returns (table: array<bv32>)
    ensures fresh(table) && table.Length == 256
    ensures forall k: nat :: k < 256 ==> table[k] == TableEntry(k)
  {
    table := new bv32[256];
    var n: nat := 0;
    var start: bv32 := 0;
    while n < 256
      invariant n <= 256 && start == Counter(n)
      invariant forall k: nat :: k < n ==> table[k] == TableEntry(k)
    {
      var c := ComputeEntry(n, start);
      table[n] := c;
      n, start := n + 1, start + 1;
    }
  }

  /** The inner loop of `makeCrcTable`: eight register steps starting from `n`. */
  method ComputeEntry(n: nat, start: bv32) returns (c: bv32)
    requires n < 256 && start == Counter(n)
    ensures c == TableEntry(n)
  {
    c := start;
    var j := 0;
    while j < 8
      invariant 0 <= j <= 8
      invariant TableEntry(n) == CrcSteps(c, 8 - j)
    {
      StepsUnfold(c, 8 - j);
      c := if c & 1 == 1 then Polynomial ^ (c >> 1) else c >> 1;
      j := j + 1;
    }
  }

  lemma {:induction false} StepsUnfold(c: bv32, m: nat)
    requires m > 0
    ensures CrcSteps(c, m) == CrcSteps(if c & 1 == 1 then Polynomial ^ (c >> 1) else c >> 1, m - 1)
  {
  }

  /** `crc32`: the loop over the bytes with the table, then the final XOR. */
  method ComputeCrc32(s: bytes, table: array<bv32>) returns (crc: bv32)
    requires table.Length == 256
    requires forall k: nat :: k < 256 ==> table[k] == TableEntry(k)
    ensures crc == Crc32(s)
  {
    var c := FoldBytes(s, table);
    crc := c ^ 0xFFFF_FFFF;
  }

  /** The loop of `crc32`: the register after every byte of `s`. */
  method FoldBytes(s: bytes, table: array<bv32>) returns (c: bv32)
    requires table.Length == 256
    requires forall k: nat :: k < 256 ==> table[k] == TableEntry(k)
    ensures c == CrcFold(0xFFFF_FFFF, s)
  {
    c := 0xFFFF_FFFF;
    var i := 0;
    while i < |s|
      invariant 0 <= i <= |s|
      invariant CrcFold(0xFFFF_FFFF, s) == CrcFold(c, s[i..])
    {
      var entry := table[TableIndex(c, s[i])];
      CrcFoldStep(c, s, i);
      c := (c >> 8) ^ entry;
      i := i + 1;
    }
  }

  lemma {:induction false} CrcFoldStep(c: bv32, s: bytes, i: nat)
    requires i < |s|
    ensures CrcFold(c, s[i..]) == CrcFold(TableUpdate(c, s[i]), s[i + 1..])
  {
    assert s[i..][1..] == s[i + 1..];
  }

  /** The CRC-32 of the empty input is 0, and of the single byte 0xFF is 0xFF000000. */
  lemma {:induction false} Crc32Samples()
    ensures Crc32([]) == 0
    ensures Crc32([0xFF]) == 0xFF00_0000
  {
    var s: bytes := [0xFF];
    assert TableIndex(0xFFFF_FFFF, 0xFF) == 0;
    assert TableUpdate(0xFFFF_FFFF, 0xFF) == 0x00FF_FFFF;
    assert CrcFold(0xFFFF_FFFF, s) == CrcFold(0x00FF_FFFF, s[1..]);
  }

  /** The register counted up to `v` holds `v`. */
  lemma {:induction false} CounterOf(v: bv32)
    requires v < 256
    ensures Counter(v as nat) == v
    decreases v as nat
  {
    if v > 0 {
      assert (v - 1) as nat == v as nat - 1;
      CounterOf(v - 1);
    }
  }

  /** One table-driven update, with the slot `v` it reads and the entry `e` there named. */
  lemma {:induction false} UpdateAt(c: bv32, b: byte, v: bv32, e: bv32)
    requires v == (c ^ (b as bv32)) & 0xFF && CrcSteps(v, 8) == e
    ensures TableUpdate(c, b) == (c >> 8) ^ e
  {
    CounterOf(v);
  }

  /** One byte of the fold whose table update is known. */
  lemma {:induction false} FoldOne(s: bytes, i: nat, c: bv32, n: bv32)
    requires i < |s| && TableUpdate(c, s[i]) == n
    ensures CrcFold(c, s[i..]) == CrcFold(n, s[i + 1..])
  {
    CrcFoldStep(c, s, i);
  }

  /** Byte 1 of "123456789": the table update, then the fold step. */
  lemma {:induction false} CheckUpdate0(c: bv32, b: byte)
    requires c == 0xFFFFFFFF && b == 0x31
    ensures TableUpdate(c, b) == 0x7C231048
  {
    assert CrcSteps(0xCE, 8) == 0x7CDCEFB7;
    UpdateAt(c, b, 0xCE, 0x7CDCEFB7);
  }

  lemma {:induction false} CheckStep0(s: bytes, i: nat, c: bv32)
    requires i < |s| && s[i] == 0x31 && c == 0xFFFFFFFF
    ensures CrcFold(c, s[i..]) == CrcFold(0x7C231048, s[i + 1..])
  {
    CheckUpdate0(c, s[i]);
    FoldOne(s, i, c, 0x7C231048);
  }

  /** Byte 2 of "123456789": the table update, then the fold step. */
  lemma {:induction false} CheckUpdate1(c: bv32, b: byte)
    requires c == 0x7C231048 && b == 0x32
    ensures TableUpdate(c, b) == 0xB0ACBB32
  {
    assert CrcSteps(0x7A, 8) == 0xB0D09822;
    UpdateAt(c, b, 0x7A, 0xB0D09822);
  }

  lemma {:induction false} CheckStep1(s: bytes, i: nat, c: bv32)
    requires i < |s| && s[i] == 0x32 && c == 0x7C231048
    ensures CrcFold(c, s[i..]) == CrcFold(0xB0ACBB32, s[i + 1..])
  {
    CheckUpdate1(c, s[i]);
    FoldOne(s, i, c, 0xB0ACBB32);
  }

  /** Byte 3 of "123456789": the table update, then the fold step. */
  lemma {:induction false} CheckUpdate2(c: bv32, b: byte)
    requires c == 0xB0ACBB32 && b == 0x33
    ensures TableUpdate(c, b) == 0x77B79C2D
  {
    assert CrcSteps(0x01, 8) == 0x77073096;
    UpdateAt(c, b, 0x01, 0x77073096);
  }

  lemma {:induction false} CheckStep2(s: bytes, i: nat, c: bv32)
    requires i < |s| && s[i] == 0x33 && c == 0xB0ACBB32
    ensures CrcFold(c, s[i..]) == CrcFold(0x77B79C2D, s[i + 1..])
  {
    CheckUpdate2(c, s[i]);
    FoldOne(s, i, c, 0x77B79C2D);
  }

  /** Byte 4 of "123456789": the table update, then the fold step. */
  lemma {:induction false} CheckUpdate3(c: bv32, b: byte)
    requires c == 0x77B79C2D && b == 0x34
    ensures TableUpdate(c, b) == 0x641C1F5C
  {
    assert CrcSteps(0x19, 8) == 0x646BA8C0;
    UpdateAt(c, b, 0x19, 0x646BA8C0);
  }

  lemma {:induction false} CheckStep3(s: bytes, i: nat, c: bv32)
    requires i < |s| && s[i] == 0x34 && c == 0x77B79C2D
    ensures CrcFold(c, s[i..]) == CrcFold(0x641C1F5C, s[i + 1..])
  {
    CheckUpdate3(c, s[i]);
    FoldOne(s, i, c, 0x641C1F5C);
  }

  /** Byte 5 of "123456789": the table update, then the fold step. */
  lemma {:induction false} CheckUpdate4(c: bv32, b: byte)
    requires c == 0x641C1F5C && b == 0x35
    ensures TableUpdate(c, b) == 0x340AC5E3
  {
    assert CrcSteps(0x69, 8) == 0x346ED9FC;
    UpdateAt(c, b, 0x69, 0x346ED9FC);
  }

  lemma {:induction false} CheckStep4(s: bytes, i: nat, c: bv32)
    requires i < |s| && s[i] == 0x35 && c == 0x641C1F5C
    ensures CrcFold(c, s[i..]) == CrcFold(0x340AC5E3, s[i + 1..])
  {
    CheckUpdate4(c, s[i]);
    FoldOne(s, i, c, 0x340AC5E3);
  }

  /** Byte 6 of "123456789": the table update, then the fold step. */
  lemma {:induction false} CheckUpdate5(c: bv32, b: byte)
    requires c == 0x340AC5E3 && b == 0x36
    ensures TableUpdate(c, b) == 0xF68D2C9E
  {
    assert CrcSteps(0xD5, 8) == 0xF6B9265B;
    UpdateAt(c, b, 0xD5, 0xF6B9265B);
  }

  lemma {:induction false} CheckStep5(s: bytes, i: nat, c: bv32)
    requires i < |s| && s[i] == 0x36 && c == 0x340AC5E3
    ensures CrcFold(c, s[i..]) == CrcFold(0xF68D2C9E, s[i + 1..])
  {
    CheckUpdate5(c, s[i]);
    FoldOne(s, i, c, 0xF68D2C9E);
  }

  /** Byte 7 of "123456789": the table update, then the fold step. */
  lemma {:induction false} CheckUpdate6(c: bv32, b: byte)
    requires c == 0xF68D2C9E && b == 0x37
    ensures TableUpdate(c, b) == 0xAFFC9660
  {
    assert CrcSteps(0xA9, 8) == 0xAF0A1B4C;
    UpdateAt(c, b, 0xA9, 0xAF0A1B4C);
  }

  lemma {:induction false} CheckStep6(s: bytes, i: nat, c: bv32)
    requires i < |s| && s[i] == 0x37 && c == 0xF68D2C9E
    ensures CrcFold(c, s[i..]) == CrcFold(0xAFFC9660, s[i + 1..])
  {
    CheckUpdate6(c, s[i]);
    FoldOne(s, i, c, 0xAFFC9660);
  }

  /** Byte 8 of "123456789": the table update, then the fold step. */
  lemma {:induction false} CheckUpdate7(c: bv32, b: byte)
    requires c == 0xAFFC9660 && b == 0x38
    ensures TableUpdate(c, b) == 0x651F2550
  {
    assert CrcSteps(0x58, 8) == 0x65B0D9C6;
    UpdateAt(c, b, 0x58, 0x65B0D9C6);
  }

  lemma {:induction false} CheckStep7(s: bytes, i: nat, c: bv32)
    requires i < |s| && s[i] == 0x38 && c == 0xAFFC9660
    ensures CrcFold(c, s[i..]) == CrcFold(0x651F2550, s[i + 1..])
  {
    CheckUpdate7(c, s[i]);
    FoldOne(s, i, c, 0x651F2550);
  }

  /** Byte 9 of "123456789": the table update, then the fold step. */
  lemma {:induction false} CheckUpdate8(c: bv32, b: byte)
    requires c == 0x651F2550 && b == 0x39
    ensures TableUpdate(c, b) == 0x340BC6D9
  {
    assert CrcSteps(0x69, 8) == 0x346ED9FC;
    UpdateAt(c, b, 0x69, 0x346ED9FC);
  }

  lemma {:induction false} CheckStep8(s: bytes, i: nat, c: bv32)
    requires i < |s| && s[i] == 0x39 && c == 0x651F2550
    ensures CrcFold(c, s[i..]) == CrcFold(0x340BC6D9, s[i + 1..])
  {
    CheckUpdate8(c, s[i]);
    FoldOne(s, i, c, 0x340BC6D9);
  }

  /** `crc32` from the register the fold ends with. */
  lemma {:induction false} Crc32FromFold(s: bytes, r: bv32)
    requires CrcFold(0xFFFF_FFFF, s) == r
    ensures Crc32(s) == r ^ 0xFFFF_FFFF
  {
  }

  /** Bytes 2 and 3 of "123456789". */
  lemma {:induction false} CheckFoldA(s: bytes)
    requires |s| == 9 && s[1] == 0x32 && s[2] == 0x33
    ensures CrcFold(0x7C231048, s[1..]) == CrcFold(0x77B79C2D, s[3..])
  {
    CheckStep1(s, 1, 0x7C231048);
    CheckStep2(s, 2, 0xB0ACBB32);
  }

  /** Bytes 4 to 6 of "123456789". */
  lemma {:induction false} CheckFoldB(s: bytes)
    requires |s| == 9 && s[3] == 0x34 && s[4] == 0x35 && s[5] == 0x36
    ensures CrcFold(0x77B79C2D, s[3..]) == CrcFold(0xF68D2C9E, s[6..])
  {
    CheckStep3(s, 3, 0x77B79C2D);
    CheckStep4(s, 4, 0x641C1F5C);
    CheckStep5(s, 5, 0x340AC5E3);
  }

  /** Bytes 7 to 9 of "123456789". */
  lemma {:induction false} CheckFoldC(s: bytes)
    requires |s| == 9 && s[6] == 0x37 && s[7] == 0x38 && s[8] == 0x39
    ensures CrcFold(0xF68D2C9E, s[6..]) == CrcFold(0x340BC6D9, s[9..])
  {
    CheckStep6(s, 6, 0xF68D2C9E);
    CheckStep7(s, 7, 0xAFFC9660);
    CheckStep8(s, 8, 0x651F2550);
  }

  /** The fold over the nine bytes of "123456789", three bytes at a time. */
  lemma {:induction false} CheckFold(s: bytes)
    requires |s| == 9 && s[0] == 0x31 && s[1] == 0x32 && s[2] == 0x33 && s[3] == 0x34 && s[4] == 0x35
    requires s[5] == 0x36 && s[6] == 0x37 && s[7] == 0x38 && s[8] == 0x39
    ensures Crc32(s) == 0xCBF4_3926
  {
    CheckStep0(s, 0, 0xFFFFFFFF);
    CheckFoldA(s);
    CheckFoldB(s);
    CheckFoldC(s);
    assert s[0..] == s;
    assert s[9..] == [];
    Crc32FromFold(s, 0x340B_C6D9);
  }

  /** The standard check value: the CRC-32 of the ASCII bytes of "123456789" is 0xCBF43926. */
  lemma {:induction false} Crc32CheckValue()
    ensures Crc32([0x31, 0x32, 0x33, 0x34, 0x35, 0x36, 0x37, 0x38, 0x39]) == 0xCBF4_3926
  {
    CheckFold([0x31, 0x32, 0x33, 0x34, 0x35, 0x36, 0x37, 0x38, 0x39]);
  }

  // ------------------------------------------------------------------ bitwise reference

  /** The bitwise update of the reflected CRC-32: xor the byte in, then eight register steps. */
  function BitwiseUpdate(c: bv32, b: byte): bv32 {
    CrcSteps(c ^ (b as bv32), 8)
  }

  /** The register after all of `s`, fed bit by bit from `c`. */
  function BitwiseFold(c: bv32, s: bytes): bv32
    decreases |s|
  {
    if s == [] then c else BitwiseFold(BitwiseUpdate(c, s[0]), s[1..])
  }

  /** The CRC-32 computed without a table, one bit at a time. */
  function BitwiseCrc32(s: bytes): bv32 {
    BitwiseFold(0xFFFF_FFFF, s) ^ 0xFFFF_FFFF
  }

  /** Exclusive or under a name, so that the linearity proofs below reason about it by congruence. */
  function Xor(a: bv32, b: bv32): bv32 {
    a ^ b
  }

  /** The shifted register of an exclusive or. */
  lemma {:induction false} ShiftXor(x: bv32, y: bv32)
    ensures (x ^ y) >> 1 == (x >> 1) ^ (y >> 1)
  {
  }

  /** The low bit of an exclusive or. */
  lemma {:induction false} LowXor(x: bv32, y: bv32)
    ensures ((x ^ y) & 1 == 1) == ((x & 1 == 1) != (y & 1 == 1))
  {
  }

  /** A register step distributes over exclusive or. */
  lemma {:induction false} StepDistributes(x: bv32, y: bv32)
    ensures CrcStep(x ^ y) == CrcStep(x) ^ CrcStep(y)
  {
    ShiftXor(x, y);
    LowXor(x, y);
    var sx, sy := x >> 1, y >> 1;
    if x & 1 == 1 && y & 1 == 1 {
      assert (Polynomial ^ sx) ^ (Polynomial ^ sy) == sx ^ sy;
    } else if x & 1 == 1 {
      assert Polynomial ^ sx ^ sy == (Polynomial ^ sx) ^ sy;
    } else if y & 1 == 1 {
      assert sx ^ (Polynomial ^ sy) == Polynomial ^ (sx ^ sy);
    }
  }

  /** The same, with the exclusive or named. */
  lemma {:induction false} StepXor(x: bv32, y: bv32, z: bv32)
    requires z == Xor(x, y)
    ensures CrcStep(z) == Xor(CrcStep(x), CrcStep(y))
  {
    StepDistributes(x, y);
  }

  /** One step taken off the front of `n`. */
  lemma {:induction false} StepsFront(c: bv32, n: nat)
    requires n > 0
    ensures CrcSteps(c, n) == CrcSteps(CrcStep(c), n - 1)
  {
  }

  /** Any number of register steps is linear over exclusive or. */
  lemma {:induction false} StepsXor(x: bv32, y: bv32, z: bv32, n: nat)
    requires z == Xor(x, y)
    ensures CrcSteps(z, n) == Xor(CrcSteps(x, n), CrcSteps(y, n))
    decreases n
  {
    if n > 0 {
      StepXor(x, y, z);
      StepsXor(CrcStep(x), CrcStep(y), CrcStep(z), n - 1);
      StepsFront(z, n);
      StepsFront(x, n);
      StepsFront(y, n);
    }
  }

  /** A step on an even register is a shift. */
  lemma {:induction false} StepEven(a: bv32, b: bv32)
    requires a & 1 == 0 && b == a >> 1
    ensures CrcStep(a) == b
  {
  }

  /** The bits a register with clear low byte shows its first eight steps. */
  lemma {:induction false} HighBits(h: bv32, h1: bv32, h2: bv32, h3: bv32, h4: bv32, h5: bv32, h6: bv32, h7: bv32)
    requires h & 0xFF == 0
    requires h1 == h >> 1 && h2 == h1 >> 1 && h3 == h2 >> 1 && h4 == h3 >> 1
    requires h5 == h4 >> 1 && h6 == h5 >> 1 && h7 == h6 >> 1
    ensures h & 1 == 0 && h1 & 1 == 0 && h2 & 1 == 0 && h3 & 1 == 0
    ensures h4 & 1 == 0 && h5 & 1 == 0 && h6 & 1 == 0 && h7 & 1 == 0
    ensures h7 >> 1 == h >> 8
  {
  }

  /** On a register whose low eight bits are clear, eight steps only shift. */
  lemma {:induction false} StepsHigh(h: bv32)
    requires h & 0xFF == 0
    ensures CrcSteps(h, 8) == h >> 8
  {
    var h1 := h >> 1;
    var h2 := h1 >> 1;
    var h3 := h2 >> 1;
    var h4 := h3 >> 1;
    var h5 := h4 >> 1;
    var h6 := h5 >> 1;
    var h7 := h6 >> 1;
    var h8 := h7 >> 1;
    HighBits(h, h1, h2, h3, h4, h5, h6, h7);
    StepEven(h, h1);
    StepEven(h1, h2);
    StepEven(h2, h3);
    StepEven(h3, h4);
    StepEven(h4, h5);
    StepEven(h5, h6);
    StepEven(h6, h7);
    StepEven(h7, h8);
    StepsFront(h, 8);
    StepsFront(h1, 7);
    StepsFront(h2, 6);
    StepsFront(h3, 5);
    StepsFront(h4, 4);
    StepsFront(h5, 3);
    StepsFront(h6, 2);
    StepsFront(h7, 1);
  }

  /** How the byte splits the register for the table: its low byte, and the rest. */
  lemma {:induction false} SplitLow(c: bv32, b: byte, v: bv32, lo: bv32, hi: bv32)
    requires v == c ^ (b as bv32) && lo == v & 0xFF && hi == v & 0xFFFF_FF00
    ensures v == Xor(lo, hi) && hi & 0xFF == 0 && hi >> 8 == c >> 8
  {
    assert (b as bv32) >> 8 == 0;
  }

  /** The last step of the agreement: the shifted rest and the table entry, in either order. */
  lemma {:induction false} XorSwap(e: bv32, hs: bv32, ch: bv32, r: bv32)
    requires r == Xor(e, hs) && hs == ch
    ensures r == Xor(ch, e)
  {
  }

  /** `UpdateAt` with the exclusive or named. */
  lemma {:induction false} UpdateAtXor(c: bv32, b: byte, v: bv32, e: bv32)
    requires v == (c ^ (b as bv32)) & 0xFF && CrcSteps(v, 8) == e
    ensures TableUpdate(c, b) == Xor(c >> 8, e)
  {
    UpdateAt(c, b, v, e);
  }

  /** The bitwise update, with the register after the byte is xored in named. */
  lemma {:induction false} BitwiseAt(c: bv32, b: byte, v: bv32)
    requires v == c ^ (b as bv32)
    ensures BitwiseUpdate(c, b) == CrcSteps(v, 8)
  {
  }

  /** The table update is the bitwise update. */
  lemma {:induction false} UpdateAgrees(c: bv32, b: byte)
    ensures TableUpdate(c, b) == BitwiseUpdate(c, b)
  {
    var v := c ^ (b as bv32);
    var lo, hi := v & 0xFF, v & 0xFFFF_FF00;
    SplitLow(c, b, v, lo, hi);
    StepsXor(lo, hi, v, 8);
    StepsHigh(hi);
    XorSwap(CrcSteps(lo, 8), CrcSteps(hi, 8), c >> 8, CrcSteps(v, 8));
    UpdateAtXor(c, b, lo, CrcSteps(lo, 8));
    BitwiseAt(c, b, v);
  }

  /** The table-driven fold is the bitwise fold. */
  lemma {:induction false} FoldAgrees(c: bv32, s: bytes)
    ensures CrcFold(c, s) == BitwiseFold(c, s)
    decreases |s|
  {
    if s != [] {
      UpdateAgrees(c, s[0]);
      FoldAgrees(TableUpdate(c, s[0]), s[1..]);
    }
  }

  /** `BitwiseCrc32` from the register the bitwise fold ends with. */
  lemma {:induction false} BitwiseFromFold(s: bytes, r: bv32)
    requires BitwiseFold(0xFFFF_FFFF, s) == r
    ensures BitwiseCrc32(s) == r ^ 0xFFFF_FFFF
  {
  }

  /** `crc32` computes the bitwise reflected CRC-32 on every input. */
  lemma {:induction false} Crc32IsBitwise(s: bytes)
    ensures Crc32(s) == BitwiseCrc32(s)
  {
    var r := CrcFold(0xFFFF_FFFF, s);
    FoldAgrees(0xFFFF_FFFF, s);
    Crc32FromFold(s, r);
    BitwiseFromFold(s, r);
  }
}
