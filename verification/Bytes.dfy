/** Big-endian integers over byte strings, as package encoding/binary reads and writes them. */
module Bytes {
  type byte = x: int | 0 <= x < 256
  type bytes = seq<byte>

  const TWO_31 := 0x8000_0000
  const TWO_32 := 0x1_0000_0000
  const TWO_63 := 0x8000_0000_0000_0000
  const TWO_64 := 0x1_0000_0000_0000_0000

  type int16 = x: int | -0x8000 <= x < 0x8000
  type int32 = x: int | -0x8000_0000 <= x < 0x8000_0000
  type int64 = x: int | -0x8000_0000_0000_0000 <= x < 0x8000_0000_0000_0000
  type uint16 = x: int | 0 <= x < 0x1_0000
  type uint32 = x: int | 0 <= x < 0x1_0000_0000
  type uint64 = x: int | 0 <= x < 0x1_0000_0000_0000_0000

  /** Reading. */
  function U16(s: bytes): (v: uint16)
    requires |s| == 2
  {
    var hi: int, lo: int := s[0], s[1];
    hi * 256 + lo
  }

  function U32(s: bytes): (v: uint32)
    requires |s| == 4
  {
    U16(s[..2]) * 0x1_0000 + U16(s[2..])
  }

  function U64(s: bytes): (v: uint64)
    requires |s| == 8
  {
    U32(s[..4]) * 0x1_0000_0000 + U32(s[4..])
  }

  /** Writing: each writer is the right inverse of its reader. */
  function BE16(v: uint16): (s: bytes)
    ensures |s| == 2 && U16(s) == v
  {
    [v / 256, v % 256]
  }

  function BE32(v: uint32): (s: bytes)
    ensures |s| == 4 && U32(s) == v
  {
    var s := BE16(v / 0x1_0000) + BE16(v % 0x1_0000);
    assert s[..2] == BE16(v / 0x1_0000) && s[2..] == BE16(v % 0x1_0000);
    s
  }

  function BE64(v: uint64): (s: bytes)
    ensures |s| == 8 && U64(s) == v
  {
    var s := BE32(v / 0x1_0000_0000) + BE32(v % 0x1_0000_0000);
    assert s[..4] == BE32(v / 0x1_0000_0000) && s[4..] == BE32(v % 0x1_0000_0000);
    s
  }

  /** Two's complement: the Go conversions intN(uintN) and uintN(intN). */
  function Signed16(u: uint16): (v: int16) { if u < 0x8000 then u else u - 0x1_0000 }
  function Signed32(u: uint32): (v: int32) { if u < 0x8000_0000 then u else u - 0x1_0000_0000 }
  function Signed64(u: uint64): (v: int64) {
    if u < 0x8000_0000_0000_0000 then u else u - 0x1_0000_0000_0000_0000
  }

  function Unsigned16(v: int16): (u: uint16) ensures Signed16(u) == v { if v >= 0 then v else v + 0x1_0000 }
  function Unsigned32(v: int32): (u: uint32) ensures Signed32(u) == v { if v >= 0 then v else v + 0x1_0000_0000 }
  function Unsigned64(v: int64): (u: uint64) ensures Signed64(u) == v {
    if v >= 0 then v else v + 0x1_0000_0000_0000_0000
  }

  /** uint16(v) for a Go int v: truncation to the low 16 bits. */
  function Low16(v: int): (u: uint16) { v % 0x1_0000 }

  /** uint32(len) for a Go length: truncation to the low 32 bits. */
  function Low32(v: nat): (u: uint32) { v % 0x1_0000_0000 }

  function Put16(v: int16): (s: bytes) ensures |s| == 2 && Get16(s) == v { BE16(Unsigned16(v)) }
  function Put32(v: int32): (s: bytes) ensures |s| == 4 && Get32(s) == v { BE32(Unsigned32(v)) }
  function Put64(v: int64): (s: bytes) ensures |s| == 8 && Get64(s) == v { BE64(Unsigned64(v)) }

  function Get16(s: bytes): (v: int16) requires |s| == 2 { Signed16(U16(s)) }
  function Get32(s: bytes): (v: int32) requires |s| == 4 { Signed32(U32(s)) }
  function Get64(s: bytes): (v: int64) requires |s| == 8 { Signed64(U64(s)) }

  /** The readers are injective, so a byte group is determined by the number it denotes. */
  lemma U16Injective(a: bytes, b: bytes)
    requires |a| == 2 && |b| == 2 && U16(a) == U16(b)
    ensures a == b
  {
  }

  lemma U32Injective(a: bytes, b: bytes)
    requires |a| == 4 && |b| == 4 && U32(a) == U32(b)
    ensures a == b
  {
    U16Injective(a[..2], b[..2]);
    U16Injective(a[2..], b[2..]);
    assert a == a[..2] + a[2..] && b == b[..2] + b[2..];
  }

  /** trimNul: every trailing zero byte is dropped. */
  function TrimNul(b: bytes): (r: bytes)
    ensures r <= b
    ensures r == [] || r[|r| - 1] != 0
    ensures forall i :: |r| <= i < |b| ==> b[i] == 0
  {
    if b != [] && b[|b| - 1] == 0 then TrimNul(b[..|b| - 1]) else b
  }

  /** A terminating NUL is invisible after trimming, and trimming is exact on text without one at its end. */
  lemma TrimNulTerminated(b: bytes)
    ensures TrimNul(b + [0]) == TrimNul(b)
  {
    assert (b + [0])[..|b|] == b;
  }

  lemma U64Injective(a: bytes, b: bytes)
    requires |a| == 8 && |b| == 8 && U64(a) == U64(b)
    ensures a == b
  {
    U32Injective(a[..4], b[..4]);
    U32Injective(a[4..], b[4..]);
    assert a == a[..4] + a[4..] && b == b[..4] + b[4..];
  }

  /** Numbers are big-endian: the first byte is the most significant. */
  lemma BigEndian(a: byte, b: byte, c: byte, d: byte)
    ensures U16([a, b]) == 0x100 * a as int + b as int
    ensures U32([a, b, c, d]) == 0x100_0000 * a as int + 0x1_0000 * b as int + 0x100 * c as int + d as int
  {
    var s: bytes := [a, b, c, d];
    assert s[..2] == [a, b] && s[2..] == [c, d];
  }

  lemma BigEndian64(hi: bytes, lo: bytes)
    requires |hi| == 4 && |lo| == 4
    ensures U64(hi + lo) == 0x1_0000_0000 * U32(hi) as int + U32(lo) as int
  {
    assert (hi + lo)[..4] == hi && (hi + lo)[4..] == lo;
  }

  /** Signed numbers are two's complement: the top bit is the sign, and the value is right modulo the width. */
  lemma TwosComplement(s: bytes)
    ensures |s| == 2 ==> (Get16(s) < 0 <==> s[0] >= 0x80) && Get16(s) as int % 0x1_0000 == U16(s)
    ensures |s| == 4 ==> (Get32(s) < 0 <==> s[0] >= 0x80) && Get32(s) as int % 0x1_0000_0000 == U32(s)
  {
  }
}
