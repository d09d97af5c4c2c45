/**
 * Byte buffers as the XLSX writer and reader see them: `Uint8Array` contents, little-endian
 * `DataView.setUint16`/`setUint32` writes and `getUint16`/`getUint32` reads, and the UTF-8
 * encoding `TextEncoder` applies to strings.
 */
module Bytes {

  newtype byte = x: int | 0 <= x < 256

  type bytes = seq<byte>

  /** `setUint16(·, x, true)`: the value is reduced modulo 2^16, low byte first. */
  function LE16(x: nat): (r: bytes)
    ensures |r| == 2
  {
    [(x % 256) as byte, ((x / 256) % 256) as byte]
  }

  /** `setUint32(·, x, true)`: the value is reduced modulo 2^32, low byte first. */
  function LE32(x: nat): (r: bytes)
    ensures |r| == 4
  {
    [(x % 256) as byte, ((x / 0x100) % 256) as byte, ((x / 0x1_0000) % 256) as byte, ((x / 0x100_0000) % 256) as byte]
  }

  /** `getUint16(p, true)`; the source throws a RangeError when `p + 2` exceeds the buffer. */
  function ReadLE16(b: bytes, p: nat): (v: nat)
    requires p + 2 <= |b|
    ensures v < 0x1_0000
  {
    b[p] as nat + 0x100 * b[p + 1] as nat
  }

  /** `getUint32(p, true)`; the source throws a RangeError when `p + 4` exceeds the buffer. */
  function ReadLE32(b: bytes, p: nat): (v: nat)
    requires p + 4 <= |b|
    ensures v < 0x1_0000_0000
  {
    b[p] as nat + 0x100 * b[p + 1] as nat + 0x1_0000 * b[p + 2] as nat + 0x100_0000 * b[p + 3] as nat
  }

  /** Reading back a 16-bit write yields the written value modulo 2^16. */
  lemma {:induction false} ReadLE16OfLE16(x: nat)
    ensures ReadLE16(LE16(x), 0) == x % 0x1_0000
  {
    var q := x / 0x100;
    Recombine16(x, q, x % 0x100, q % 0x100);
  }

  lemma {:induction false} Recombine16(x: nat, q: nat, b0: nat, b1: nat)
    requires x == 0x100 * q + b0 && b0 < 0x100 && b1 == q % 0x100
    ensures x % 0x1_0000 == b0 + 0x100 * b1
  {
    var top := q / 0x100;
    assert q == 0x100 * top + b1;
    assert x == 0x1_0000 * top + (b0 + 0x100 * b1);
  }

  /** Reading back a 32-bit write yields the written value modulo 2^32. */
  lemma {:induction false} ReadLE32OfLE32(x: nat)
    ensures ReadLE32(LE32(x), 0) == x % 0x1_0000_0000
  {
    var q1, q2, q3 := x / 0x100, x / 0x1_0000, x / 0x100_0000;
    DivDiv16(x);
    DivDiv24(x);
    Recombine32(x, q1, q2, q3, x % 0x100, q1 % 0x100, q2 % 0x100, q3 % 0x100);
  }

  lemma {:induction false} Recombine32(x: nat, q1: nat, q2: nat, q3: nat, b0: nat, b1: nat, b2: nat, b3: nat)
    requires x == 0x100 * q1 + b0 && b0 < 0x100
    requires q1 == 0x100 * q2 + b1 && b1 < 0x100
    requires q2 == 0x100 * q3 + b2 && b2 < 0x100
    requires b3 == q3 % 0x100
    ensures x % 0x1_0000_0000 == b0 + 0x100 * b1 + 0x1_0000 * b2 + 0x100_0000 * b3
  {
    var top := q3 / 0x100;
    assert q3 == 0x100 * top + b3;
    assert x == 0x1_0000_0000 * top + (b0 + 0x100 * b1 + 0x1_0000 * b2 + 0x100_0000 * b3);
  }

  lemma {:induction false} DivDiv16(x: nat)
    ensures x / 0x100 == 0x100 * (x / 0x1_0000) + (x / 0x100) % 0x100
  {
    var q, r := x / 0x1_0000, x % 0x1_0000;
    assert x == 0x1_0000 * q + r;
    assert x / 0x100 == 0x100 * q + r / 0x100;
  }

  lemma {:induction false} DivDiv24(x: nat)
    ensures x / 0x1_0000 == 0x100 * (x / 0x100_0000) + (x / 0x1_0000) % 0x100
  {
    var q, r := x / 0x100_0000, x % 0x100_0000;
    assert x == 0x100_0000 * q + r;
    assert x / 0x1_0000 == 0x100 * q + r / 0x1_0000;
  }

  /** Reads inside a copied part see the part's own bytes. */
  lemma {:induction false} ReadLE16Within(b: bytes, p: nat, h: bytes, k: nat)
    requires p + |h| <= |b| && b[p..p + |h|] == h && k + 2 <= |h|
    ensures ReadLE16(b, p + k) == ReadLE16(h, k)
  {
    assert b[p + k] == h[k] && b[p + k + 1] == h[k + 1];
  }

  lemma {:induction false} ReadLE32Within(b: bytes, p: nat, h: bytes, k: nat)
    requires p + |h| <= |b| && b[p..p + |h|] == h && k + 4 <= |h|
    ensures ReadLE32(b, p + k) == ReadLE32(h, k)
  {
    assert b[p + k] == h[k] && b[p + k + 1] == h[k + 1];
    assert b[p + k + 2] == h[k + 2] && b[p + k + 3] == h[k + 3];
  }

  lemma {:induction false} ModSmall(x: nat, m: nat)
    requires x < m
    ensures x % m == x
  {
  }

  /** A slice of a part copied to `b[p..p + n]` is the same slice of the part. */
  lemma {:induction false} SliceWithin(b: bytes, p: nat, n: nat, h: bytes, q: nat, m: nat)
    requires p + n <= |b| && b[p..p + n] == h && q + m <= n
    ensures b[p + q..p + q + m] == h[q..q + m]
  {
    var s1, s2 := b[p + q..p + q + m], h[q..q + m];
    assert forall i :: 0 <= i < m ==> s1[i] == b[p..p + n][q + i];
    assert forall i :: 0 <= i < m ==> s1[i] == s2[i];
  }

  /** The two halves of a concatenation. */
  lemma {:induction false} ConcatParts(a: bytes, c: bytes)
    ensures (a + c)[..|a|] == a && (a + c)[|a|..] == c
    ensures (a + c)[|a|..|a| + |c|] == c
  {
  }

  /** The UTF-8 bytes of one Unicode scalar value. */
  function Utf8Char(c: char): (r: bytes)
    ensures 1 <= |r| <= 4
    ensures (c as int < 0x80) == (|r| == 1)
  {
    var n := c as int;
    if n < 0x80 then [n as byte]
    else if n < 0x800 then [(0xC0 + n / 0x40) as byte, (0x80 + n % 0x40) as byte]
    else if n < 0x1_0000 then
      [(0xE0 + n / 0x1000) as byte, (0x80 + (n / 0x40) % 0x40) as byte, (0x80 + n % 0x40) as byte]
    else
      [(0xF0 + n / 0x4_0000) as byte, (0x80 + (n / 0x1000) % 0x40) as byte,
       (0x80 + (n / 0x40) % 0x40) as byte, (0x80 + n % 0x40) as byte]
  }

  /** `TextEncoder.encode`: the UTF-8 encoding of a string. */
  function Utf8Encode(s: string): (r: bytes)
    ensures |s| <= |r| <= 4 * |s|
  {
    if s == [] then [] else Utf8Char(s[0]) + Utf8Encode(s[1..])
  }

  predicate IsAscii(s: string) {
    forall i :: 0 <= i < |s| ==> s[i] as int < 0x80
  }

  /** ASCII text encodes to one byte per character, each equal to the character code. */
  lemma {:induction false} Utf8EncodeAscii(s: string)
    requires IsAscii(s)
    ensures |Utf8Encode(s)| == |s|
    ensures forall i :: 0 <= i < |s| ==> Utf8Encode(s)[i] as int == s[i] as int
  {
    if s != [] {
      Utf8EncodeAscii(s[1..]);
    }
  }
}
