/** Packed LOB locators (cubrid/internal/protocol/lob.go). */
module LobHandle {
  import opened Bytes
  import opened Wire

  const LOB_HEADER := 16
  const LOB_MAX_CHUNK: nat := 128 * 1024

  /** db_type int32, size int64, locator length int32, locator; the length must be positive and fit. */
  predicate WellPacked(b: bytes)
  {
    |b| >= LOB_HEADER && 1 <= Get32(b[12..16]) && LOB_HEADER + Get32(b[12..16]) as int <= |b|
  }

  /** The packed form with another size: only bytes 4..12 differ. */
  function WithSize(b: bytes, n: int64): (r: bytes)
    requires |b| >= LOB_HEADER
  {
    b[..4] + Put64(n) + b[12..]
  }

  /** Resizing keeps a handle well packed and reads back as the size written. */
  lemma WithSizeReads(b: bytes, n: int64)
    requires WellPacked(b)
    ensures WellPacked(WithSize(b, n)) && |WithSize(b, n)| == |b|
    ensures Get64(WithSize(b, n)[4..12]) == n
    ensures WithSize(b, n)[..4] == b[..4] && WithSize(b, n)[12..] == b[12..]
  {
    var r := WithSize(b, n);
    assert r[4..12] == Put64(n);
    assert r[12..16] == b[12..16];
  }

  class Handle {
    var dbType: int32
    var size: int64
    var locator: bytes
    const raw: array<byte>

    /** The struct and the packed bytes tell the same story. */
    ghost predicate Valid()
      reads this, raw
    {
      && WellPacked(raw[..])
      && size == Get64(raw[..][4..12])
      && dbType == Get32(raw[..][..4])
      && locator == TrimNul(raw[..][LOB_HEADER..LOB_HEADER + Get32(raw[..][12..16])])
    }

    /** A handle over a copy of well-packed bytes. */
    constructor Parse(b: bytes)
      requires WellPacked(b)
      ensures Valid() && raw[..] == b && fresh(raw)
    {
      dbType := Get32(b[0..4]);
      size := Get64(b[4..12]);
      locator := TrimNul(b[LOB_HEADER..LOB_HEADER + Get32(b[12..16])]);
      raw := new byte[|b|](i requires 0 <= i < |b| => b[i]);
      new;
      assert raw[..] == b;
    }

    /** SetSize: the field, and bytes 4..12 of the packed form in place. */
    method SetSize(n: int64)
      requires Valid()
      modifies `size, raw
      ensures Valid() && size == n && raw[..] == WithSize(old(raw[..]), n)
      ensures raw[12..] == old(raw[12..])
    {
      ghost var was := raw[..];
      size := n;
      PutSize(raw, n);
      WithSizeReads(was, n);
      SameLocator(was, raw[..]);
    }
  }

  /** binary.BigEndian.PutUint64 over bytes 4..12. */
  method PutSize(raw: array<byte>, n: int64)
    requires raw.Length >= LOB_HEADER
    modifies raw
    ensures raw[..] == WithSize(old(raw[..]), n)
  {
    var b := BE64(Unsigned64(n));
    ghost var was := raw[..];
    var i := 0;
    while i < 8
      invariant 0 <= i <= 8 && raw.Length == |was|
      invariant forall k :: 0 <= k < raw.Length ==> raw[k] == if 4 <= k < 4 + i then b[k - 4] else was[k]
    {
      raw[4 + i] := b[i];
      i := i + 1;
    }
    assert raw[..] == WithSize(was, n);
  }

  /** ParseLobHandle: a handle over its own copy of the bytes, or nothing when they are not well packed. */
  method ParseLobHandle(b: bytes) returns (h: Option<Handle>)
    ensures h.Some? <==> WellPacked(b)
    ensures h.Some? ==> fresh(h.value) && fresh(h.value.raw) && h.value.Valid() && h.value.raw[..] == b
  {
    if |b| < LOB_HEADER {
      return None;
    }
    var n: int := Get32(b[12..16]);
    if n <= 0 || LOB_HEADER + n > |b| {
      return None;
    }
    var parsed := new Handle.Parse(b);
    h := Some(parsed);
  }

  lemma SameLocator(a: bytes, b: bytes)
    requires |a| == |b| && WellPacked(a) && WellPacked(b) && a[..4] == b[..4] && a[12..] == b[12..]
    ensures Get32(a[12..16]) == Get32(b[12..16])
    ensures a[LOB_HEADER..LOB_HEADER + Get32(a[12..16])] == b[LOB_HEADER..LOB_HEADER + Get32(b[12..16])]
  {
    assert a[12..16] == a[12..][..4] && b[12..16] == b[12..][..4];
    var n: int := Get32(a[12..16]);
    DropSlice(a, 12, 4, 4 + n);
    DropSlice(b, 12, 4, 4 + n);
  }

  lemma DropSlice(a: bytes, i: nat, lo: nat, hi: nat)
    requires lo <= hi && i + hi <= |a|
    ensures a[i..][lo..hi] == a[i + lo..i + hi]
  {
  }

  /** A packed handle as a server prints it; bytes after the locator are allowed. */
  function PackHandle(dbType: int32, size: int64, locator: bytes, extra: bytes): (b: bytes)
    requires |locator| < TWO_31
  {
    Put32(dbType) + (Put64(size) + (Put32(|locator|) + (locator + extra)))
  }

  /** A printed handle is well packed and reads back its type, size and locator. */
  lemma PackedReads(dbType: int32, size: int64, locator: bytes, extra: bytes)
    requires 1 <= |locator| < TWO_31
    ensures var b := PackHandle(dbType, size, locator, extra);
            && WellPacked(b) && Get32(b[..4]) == dbType && Get64(b[4..12]) == size
            && b[16..16 + Get32(b[12..16])] == locator
  {
    var b := PackHandle(dbType, size, locator, extra);
    assert b[..4] == Put32(dbType) && b[4..12] == Put64(size) && b[12..16] == Put32(|locator|);
    assert b[16..16 + |locator|] == locator;
  }

  /** Exactly the printed handles are well packed. */
  lemma WellPackedIsPrinted(b: bytes) returns (locator: bytes, extra: bytes)
    requires WellPacked(b)
    ensures 1 <= |locator| < TWO_31 && b == PackHandle(Get32(b[..4]), Get64(b[4..12]), locator, extra)
  {
    var n: int := Get32(b[12..16]);
    locator, extra := b[16..16 + n], b[16 + n..];
    PutGet32(b[..4]);
    PutGet32(b[12..16]);
    PutGet64(b[4..12]);
    FourFields(b, n);
  }

  lemma FourFields(b: bytes, n: nat)
    requires 16 + n <= |b|
    ensures b == b[..4] + (b[4..12] + (b[12..16] + (b[16..16 + n] + b[16 + n..])))
  {
  }

  lemma PutGet32(s: bytes)
    requires |s| == 4
    ensures Put32(Get32(s)) == s
  {
    U32Injective(Put32(Get32(s)), s);
  }

  lemma PutGet64(s: bytes)
    requires |s| == 8
    ensures Put64(Get64(s)) == s
  {
    U64Injective(Put64(Get64(s)), s);
  }
}
