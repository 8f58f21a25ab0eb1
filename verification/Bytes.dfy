// Fixed-width unsigned integers as bytes, in either byte order.
//
// Reading asks for the bytes to be there, so that every read of a parser is checked; writing asks
// for the number to fit. Each is the inverse of the other, wherever in a buffer the bytes stand, and
// the big-endian forms are also spelled out byte by byte for formats that fix their byte order.
module Bytes {

  type u8 = x: int | 0 <= x < 256

  const TWO_16: nat := 0x1_0000
  const TWO_32: nat := 0x1_0000_0000

  datatype Endian = Little | Big

  function U16At(e: Endian, b: seq<u8>, i: nat): (n: nat)
    requires i + 2 <= |b|
    ensures n < TWO_16
  {
    if e.Big? then b[i] as int * 256 + b[i + 1] as int else b[i + 1] as int * 256 + b[i] as int
  }

  function U32At(e: Endian, b: seq<u8>, i: nat): (n: nat)
    requires i + 4 <= |b|
    ensures n < TWO_32
  {
    if e.Big? then U16At(e, b, i) * 0x1_0000 + U16At(e, b, i + 2)
    else U16At(e, b, i + 2) * 0x1_0000 + U16At(e, b, i)
  }

  function GetU16(e: Endian, b: seq<u8>): nat
    requires |b| == 2
  {
    U16At(e, b, 0)
  }

  function GetU32(e: Endian, b: seq<u8>): (n: nat)
    requires |b| == 4
    ensures n < TWO_32
  {
    U32At(e, b, 0)
  }

  function PutU16(e: Endian, n: nat): (r: seq<u8>)
    requires n < TWO_16
    ensures |r| == 2 && GetU16(e, r) == n
  {
    if e.Big? then [n / 256, n % 256] else [n % 256, n / 256]
  }

  function PutU32(e: Endian, n: nat): (r: seq<u8>)
    requires n < TWO_32
    ensures |r| == 4 && GetU32(e, r) == n
  {
    var high, low := PutU16(e, n / 0x1_0000), PutU16(e, n % 0x1_0000);
    if e.Big? then high + low else low + high
  }

  lemma Halves(n: nat)
    ensures n / 0x1_0000 / 256 == n / 0x100_0000
    ensures n % 0x1_0000 / 256 == n / 256 % 256 && n % 0x1_0000 % 256 == n % 256
  {
  }

  /** Network byte order: the most significant byte comes first. */
  lemma PutBigEndian(n: nat)
    requires n < TWO_32
    ensures PutU32(Big, n) == [n / 0x100_0000, n / 0x1_0000 % 256, n / 256 % 256, n % 256]
  {
    Halves(n);
    assert PutU16(Big, n / 0x1_0000) == [n / 0x100_0000, n / 0x1_0000 % 256];
    assert PutU16(Big, n % 0x1_0000) == [n / 256 % 256, n % 256];
  }

  lemma GetBigEndian(b: seq<u8>)
    requires |b| == 4
    ensures GetU32(Big, b)
         == b[0] as int * 0x100_0000 + b[1] as int * 0x1_0000 + b[2] as int * 256 + b[3] as int
  {
  }

  lemma SameU16(e: Endian, a: seq<u8>, i: nat, b: seq<u8>, j: nat)
    requires i + 2 <= |a| && j + 2 <= |b| && a[i] == b[j] && a[i + 1] == b[j + 1]
    ensures U16At(e, a, i) == U16At(e, b, j)
  {
  }

  lemma SameU32(e: Endian, a: seq<u8>, i: nat, b: seq<u8>, j: nat)
    requires i + 4 <= |a| && j + 4 <= |b|
    requires a[i] == b[j] && a[i + 1] == b[j + 1] && a[i + 2] == b[j + 2] && a[i + 3] == b[j + 3]
    ensures U32At(e, a, i) == U32At(e, b, j)
  {
  }

  /** A number put down by the encoder is read back, wherever it stands. */
  lemma ReadPut16(e: Endian, n: nat, b: seq<u8>, i: nat)
    requires n < 0x1_0000 && i + 2 <= |b| && b[i..i + 2] == PutU16(e, n)
    ensures U16At(e, b, i) == n
  {
    var put := PutU16(e, n);
    assert b[i] == b[i..i + 2][0] && b[i + 1] == b[i..i + 2][1];
    assert U16At(e, put, 0) == n;
    SameU16(e, b, i, put, 0);
  }

  lemma ReadPut32(e: Endian, n: nat, b: seq<u8>, i: nat)
    requires n < 0x1_0000_0000 && i + 4 <= |b| && b[i..i + 4] == PutU32(e, n)
    ensures U32At(e, b, i) == n
  {
    var put, here := PutU32(e, n), b[i..i + 4];
    assert b[i] == here[0] && b[i + 1] == here[1] && b[i + 2] == here[2] && b[i + 3] == here[3];
    assert U32At(e, put, 0) == n;
    SameU32(e, b, i, put, 0);
  }

  lemma U16Inverse(e: Endian, b: seq<u8>)
    requires |b| == 2
    ensures PutU16(e, GetU16(e, b)) == b
  {
  }

  /** The four bytes of a number are determined by it. */
  lemma U32Inverse(e: Endian, b: seq<u8>)
    requires |b| == 4
    ensures PutU32(e, GetU32(e, b)) == b
  {
    var first, second := U16At(e, b, 0), U16At(e, b, 2);
    U16Inverse(e, b[..2]);
    U16Inverse(e, b[2..]);
    var n := GetU32(e, b);
    assert n / 0x1_0000 == (if e.Big? then first else second) && n % 0x1_0000 == (if e.Big? then second else first);
    assert b == b[..2] + b[2..];
  }
}
