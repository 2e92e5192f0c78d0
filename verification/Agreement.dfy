/** The program's own encoder and decoder agree, and where the wire form loses information. */
module Agreement {
  import opened Bytes
  import opened Wire
  import opened Codec
  import opened Layout
  import opened Bind

  /** What the decoder hands back for a non-nil scalar bind. */
  function Returned(v: Param): (r: Value)
    requires Scalar(v) && !v.PNil?
  {
    match v
    case PBool(b) => I16(if b then 1 else 0)
    case PInt16(i) => I16(i)
    case PInt32(i) => I32(i)
    case PInt(i) => I64(i)
    case PInt64(i) => I64(i)
    case PFloat32(bits) => F32(bits)
    case PFloat64(bits) => F64(bits)
    case PString(s) => Str(TrimNul(s))
    case PBytes(p) => Raw(p)
    case PTime(c) => Time(StoredClock(c))
  }

  /** The same value with nothing lost; int/int64 and bool/int16 share a wire type by design. */
  function Intended(v: Param): (r: Value)
    requires Scalar(v)
  {
    match v
    case PNil => Nil
    case PString(s) => Str(s)
    case PTime(c) => Time(c)
    case _ => Returned(v)
  }

  /** A condition the caller can check: no trailing NUL, int16 date fields, whole milliseconds. */
  predicate Lossless(v: Param)
  {
    match v
    case PString(s) => NoTrailingNul(s)
    case PTime(c) => FitsClock(Datetime, c)
    case _ => true
  }

  lemma StoredWhenFits(v: int)
    ensures Stored(v) == v <==> IsInt16(v)
  {
  }

  /** The decoder returns the intended value exactly on the lossless binds. */
  lemma ReturnedIsIntended(v: Param)
    requires Scalar(v) && !v.PNil?
    ensures Returned(v) == Intended(v) <==> Lossless(v)
  {
    match v
    case PString(s) => assert NoTrailingNul(s) ==> TrimNul(s) == s;
    case PTime(c) => StoredClockWhenFits(c);
    case _ =>
  }

  lemma StoredClockWhenFits(c: Clock)
    ensures StoredClock(c) == c <==> FitsClock(Datetime, c)
  {
    var fs := ClockFields(Datetime, c);
    forall i | 0 <= i < |fs|
      ensures Stored(fs[i]) == fs[i] <==> IsInt16(fs[i])
    {
      StoredWhenFits(fs[i]);
    }
    assert fs[0] == c.year && fs[1] == c.month && fs[2] == c.day && fs[3] == c.hour
        && fs[4] == c.minute && fs[5] == c.second && fs[6] == c.nanos / 1_000_000;
  }

  /** Each non-nil scalar body decodes under its announced type. */
  lemma ScalarAgrees(v: Param, depth: nat)
    requires Scalar(v) && !v.PNil?
    ensures DecodeValue(WireType(v).value, Body(v), depth) == Ok(Returned(v))
  {
    match v
    case PString(s) => TrimNulTerminated(s);
    case PTime(c) => ClockAgrees(c);
    case PBytes(_) =>
    case PFloat32(_) => FloatAgrees(v);
    case PFloat64(_) => FloatAgrees(v);
    case _ => IntegerAgrees(v);
  }

  lemma FloatAgrees(v: Param)
    requires v.PFloat32? || v.PFloat64?
    ensures DecodeScalar(WireType(v).value, Body(v)) == Ok(Returned(v))
  {
    var b := Body(v);
    assert b[..|b|] == b;
  }

  lemma IntegerAgrees(v: Param)
    requires v.PBool? || v.PInt16? || v.PInt32? || v.PInt? || v.PInt64?
    ensures DecodeScalar(WireType(v).value, Body(v)) == Ok(Returned(v))
  {
    var b := Body(v);
    assert b + [] == b;
    match v
    case PBool(t) => ShortDecodes(TYPE_SHORT, if t then 1 else 0, []);
    case PInt16(i) => ShortDecodes(TYPE_SHORT, i, []);
    case PInt32(i) => IntDecodes(TYPE_INT, i, []);
    case PInt(i) => BigintDecodes(TYPE_BIGINT, i, []);
    case PInt64(i) => BigintDecodes(TYPE_BIGINT, i, []);
  }

  lemma ClockAgrees(c: Clock)
    ensures DecodeClock(TYPE_DATETIME, ClockBody(c)) == Ok(StoredClock(c))
  {
    PrintedClock(TYPE_DATETIME, Datetime, StoredClock(c), []);
    assert ClockBody(c) + [] == ClockBody(c);
    assert ClockFields(Datetime, StoredClock(c)) ==
      [Stored(c.year), Stored(c.month), Stored(c.day), Stored(c.hour), Stored(c.minute),
       Stored(c.second), Stored(c.nanos / 1_000_000)];
  }

  /** An element with an empty body (nil or an empty byte string) comes back as NULL. */
  function ReturnedElem(v: Param): (r: Value)
    requires Scalar(v)
  {
    if Body(v) == [] then Nil else Returned(v)
  }

  function ReturnedElems(vs: seq<Param>): (rs: seq<Value>)
    requires forall i :: 0 <= i < |vs| ==> Scalar(vs[i])
    ensures |rs| == |vs|
    ensures forall i :: 0 <= i < |vs| ==> rs[i] == ReturnedElem(vs[i])
  {
    seq(|vs|, i requires 0 <= i < |vs| => ReturnedElem(vs[i]))
  }

  lemma ElementAgrees(et: byte, v: Param, rest: bytes, depth: nat)
    requires Scalar(v) && |Body(v)| < TWO_31 && (!v.PNil? ==> WireType(v) == Some(et))
    ensures DecodeElem(et, Arg(Body(v)) + rest, depth) ==
            Got(ReturnedElem(v), rest)
  {
    SizedElem(et, Body(v), rest, depth);
    if Body(v) != [] {
      ScalarAgrees(v, depth);
    }
  }

  /** An argument is a response element: the size, then the body. */
  lemma SizedElem(et: byte, body: bytes, rest: bytes, depth: nat)
    requires |body| < TWO_31
    ensures DecodeElem(et, Arg(body) + rest, depth) ==
            if body == [] then Got(Nil, rest) else Leaving(DecodeValue(et, body, depth), rest)
  {
    SizedArg(body);
    Assoc(Put32(|body|), body, rest);
    ReadI32Put(|body|, body + rest);
    ReadBytesPut(body, rest);
  }

  lemma SizedArg(body: bytes)
    requires |body| < TWO_31
    ensures Arg(body) == Put32(|body|) + body
  {
    var n: int := |body|;
    assert Low32(n) == n == Unsigned32(n);
  }

  lemma ReturnedCons(vs: seq<Param>)
    requires vs != [] && forall i :: 0 <= i < |vs| ==> Scalar(vs[i])
    ensures ReturnedElems(vs) == [ReturnedElem(vs[0])] + ReturnedElems(vs[1..])
  {
    var all, rest := ReturnedElems(vs), ReturnedElems(vs[1..]);
    forall i | 0 <= i < |rest|
      ensures rest[i] == all[i + 1]
    {
      assert vs[1..][i] == vs[i + 1];
    }
  }

  lemma ElemsFirst(et: byte, n: nat, s: bytes, depth: nat, v: Value, rest: bytes, vs: seq<Value>)
    requires n > 0 && DecodeElem(et, s, depth) == Got(v, rest) && DecodeElems(et, n - 1, rest, depth) == Ok(vs)
    ensures DecodeElems(et, n, s, depth) == Ok([v] + vs)
  {
  }

  lemma {:induction false} ElementsAgree(et: byte, vs: seq<Param>, depth: nat)
    requires forall i :: 0 <= i < |vs| ==> Scalar(vs[i]) && |Body(vs[i])| < TWO_31
    requires forall i :: 0 <= i < |vs| && !vs[i].PNil? ==> WireType(vs[i]) == Some(et)
    ensures DecodeElems(et, |vs|, InnerElems(vs), depth) == Ok(ReturnedElems(vs))
  {
    if vs != [] {
      var rest := InnerElems(vs[1..]);
      assert InnerElems(vs) == Arg(Body(vs[0])) + rest;
      ElementAgrees(et, vs[0], rest, depth);
      ElementsAgree(et, vs[1..], depth);
      ElemsFirst(et, |vs|, InnerElems(vs), depth, ReturnedElem(vs[0]), rest, ReturnedElems(vs[1..]));
      ReturnedCons(vs);
    }
  }

  /**
   A collection bind with its element count inserted after the element-type byte is exactly a
   response collection: the decoder reads the original list back.
   */
  lemma CollectionAgrees(vs: seq<Param>)
    requires CollectionBody(vs).Done? && |vs| < TWO_31
    requires forall i :: 0 <= i < |vs| && Scalar(vs[i]) ==> |Body(vs[i])| < TWO_31
    ensures forall i :: 0 <= i < |vs| ==> Scalar(vs[i])
    ensures var b := CollectionBody(vs).value;
            DecodeValue(TYPE_SEQUENCE, b[..1] + Put32(|vs|) + b[1..], 0) == Ok(List(ReturnedElems(vs)))
  {
    ScanVets(vs, None);
    var b := CollectionBody(vs).value;
    var et, elems := b[0], InnerElems(vs);
    assert b == [et] + elems;
    ElementsAgree(et, vs, 1);
    GuardRejectsOnlyTheHopeless(et, |vs|, elems, 1);
    assert b[..1] == [et] && b[1..] == elems;
    assert b[..1] + Put32(|vs|) + b[1..] == [et] + (Put32(|vs|) + elems);
    ReadBytePut(et, Put32(|vs|) + elems);
    ReadI32Put(|vs|, elems);
  }

  function IntendedElems(vs: seq<Param>): (r: seq<Value>)
    requires forall i :: 0 <= i < |vs| ==> Scalar(vs[i])
  {
    seq(|vs|, i requires 0 <= i < |vs| => Intended(vs[i]))
  }

  /** The list that comes back is the list that was bound exactly when no element is lossy or an empty byte string. */
  lemma ListReturnedIsIntended(vs: seq<Param>)
    requires forall i :: 0 <= i < |vs| ==> Scalar(vs[i])
    ensures ReturnedElems(vs) == IntendedElems(vs) <==>
            forall i :: 0 <= i < |vs| ==> Lossless(vs[i]) && vs[i] != PBytes([])
  {
    forall i | 0 <= i < |vs|
      ensures ReturnedElems(vs)[i] == IntendedElems(vs)[i] <==> Lossless(vs[i]) && vs[i] != PBytes([])
    {
      if !vs[i].PNil? {
        ReturnedIsIntended(vs[i]);
      }
    }
    if ReturnedElems(vs) == IntendedElems(vs) {
      forall i | 0 <= i < |vs|
        ensures Lossless(vs[i]) && vs[i] != PBytes([])
      {
        assert ReturnedElems(vs)[i] == IntendedElems(vs)[i];
      }
    }
  }
}
