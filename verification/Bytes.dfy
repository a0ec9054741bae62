/** Bytes and the big-endian integers of encoding/binary. */
module Bytes {

  type byte = b: int | 0 <= b < 0x100
  type bytes = seq<byte>

  const TWO_16: int := 0x1_0000
  const TWO_32: int := 0x1_0000_0000
  const TWO_63: int := 0x8000_0000_0000_0000
  const TWO_64: int := 0x1_0000_0000_0000_0000

  type u16 = v: int | 0 <= v < TWO_16
  type u32 = v: int | 0 <= v < TWO_32
  type u64 = v: int | 0 <= v < TWO_64

  function U16(v: int): (r: bytes)
    requires 0 <= v < TWO_16
    ensures |r| == 2 && FromU16(r) == v
  {
    [v / 0x100, v % 0x100]
  }

  function FromU16(b: bytes): (v: int)
    requires |b| == 2
    ensures 0 <= v < TWO_16
  {
    (b[0] as int) * 0x100 + (b[1] as int)
  }

  function U32(v: int): (r: bytes)
    requires 0 <= v < TWO_32
    ensures |r| == 4 && FromU32(r) == v
  {
    U16(v / TWO_16) + U16(v % TWO_16)
  }

  function FromU32(b: bytes): (v: int)
    requires |b| == 4
    ensures 0 <= v < TWO_32
  {
    FromU16(b[..2]) * TWO_16 + FromU16(b[2..])
  }

  function U64(v: int): (r: bytes)
    requires 0 <= v < TWO_64
    ensures |r| == 8 && FromU64(r) == v
  {
    U32(v / TWO_32) + U32(v % TWO_32)
  }

  function FromU64(b: bytes): (v: int)
    requires |b| == 8
    ensures 0 <= v < TWO_64
  {
    FromU32(b[..4]) * TWO_32 + FromU32(b[4..])
  }

  // The most significant byte comes first.
  lemma U16Bytes(v: int)
    requires 0 <= v < TWO_16
    ensures (U16(v)[0] as int) * 0x100 + (U16(v)[1] as int) == v
  {
  }

  lemma U32Bytes(v: int)
    requires 0 <= v < TWO_32
    ensures U32(v) == [v / 0x100_0000, v / 0x1_0000 % 0x100, v / 0x100 % 0x100, v % 0x100]
  {
    assert v / 0x1_0000 / 0x100 == v / 0x100_0000 && v % 0x1_0000 / 0x100 == v / 0x100 % 0x100;
    assert v % 0x1_0000 % 0x100 == v % 0x100;
  }

  lemma U64Bytes(v: int)
    requires 0 <= v < TWO_64
    ensures U64(v)[..4] == U32(v / TWO_32) && U64(v)[4..] == U32(v % TWO_32)
    ensures forall i :: 0 <= i < 4 ==> U64(v)[i] == U32(v / TWO_32)[i] && U64(v)[4 + i] == U32(v % TWO_32)[i]
  {
  }

  // Reading and writing again gives the same bytes: the encoding has no second spelling.
  lemma U16OfFrom(b: bytes)
    requires |b| == 2
    ensures U16(FromU16(b)) == b
  {
  }

  lemma U32OfFrom(b: bytes)
    requires |b| == 4
    ensures U32(FromU32(b)) == b
  {
    U16OfFrom(b[..2]);
    U16OfFrom(b[2..]);
    assert FromU32(b) / TWO_16 == FromU16(b[..2]) && FromU32(b) % TWO_16 == FromU16(b[2..]);
    assert b == b[..2] + b[2..];
  }

  lemma U64OfFrom(b: bytes)
    requires |b| == 8
    ensures U64(FromU64(b)) == b
  {
    U32OfFrom(b[..4]);
    U32OfFrom(b[4..]);
    assert FromU64(b) / TWO_32 == FromU32(b[..4]) && FromU64(b) % TWO_32 == FromU32(b[4..]);
    assert b == b[..4] + b[4..];
  }

  // The two's-complement reading of a 64-bit word, as a Go int64 conversion takes it.
  function AsInt64(v: int): int
    requires 0 <= v < TWO_64
  {
    if v < TWO_63 then v else v - TWO_64
  }

  lemma AsInt64Is(v: int)
    requires 0 <= v < TWO_64
    ensures -TWO_63 <= AsInt64(v) < TWO_63 && (v - AsInt64(v)) % TWO_64 == 0
  {
  }

  // The 64-bit word a Go uint64 conversion makes of an int64.
  function AsUint64(v: int): (r: int)
    requires -TWO_63 <= v < TWO_63
    ensures 0 <= r < TWO_64 && AsInt64(r) == v
  {
    if v >= 0 then v else v + TWO_64
  }
}
