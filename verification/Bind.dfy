/**
 Bind parameter encoding (EncodeParam, encodeCollectionParam, encodeArg): each bind becomes a
 type-byte argument and a value argument.
 */
module Bind {
  import opened Bytes
  import opened Wire
  import opened Codec
  import opened Layout

  /** A Go bind value. Lob stands for *Lob, NilLob for a nil *Lob, Other for any unsupported type. */
  datatype Param =
    | PNil
    | PBool(b: bool)
    | PInt16(i16: int16)
    | PInt32(i32: int32)
    | PInt(i: int64)
    | PInt64(i64: int64)
    | PFloat32(bits32: uint32)
    | PFloat64(bits64: uint64)
    | PString(s: bytes)
    | PBytes(p: bytes)
    | PTime(t: Clock)
    | PNumeric(digits: bytes)
    | PLob(packed: bytes, clob: bool)
    | PNilLob
    | PList(items: seq<Param>)
    | POther

  datatype BindError = Unsupported | Nested | Mixed | AllNull

  datatype Encoded<+T> = Done(value: T) | Refused(error: BindError)

  /** One encoded bind: the announced type and the value bytes. */
  datatype Pair = Pair(typ: byte, body: bytes)

  function PairBytes(p: Pair): (b: bytes)
    ensures |b| >= 9
  {
    Arg([p.typ]) + Arg(p.body)
  }

  /** paramWireType. */
  function WireType(v: Param): (t: Option<byte>)
  {
    match v
    case PNil => Some(TYPE_NULL)
    case PBool(_) => Some(TYPE_SHORT)
    case PInt16(_) => Some(TYPE_SHORT)
    case PInt32(_) => Some(TYPE_INT)
    case PInt(_) => Some(TYPE_BIGINT)
    case PInt64(_) => Some(TYPE_BIGINT)
    case PFloat32(_) => Some(TYPE_FLOAT)
    case PFloat64(_) => Some(TYPE_DOUBLE)
    case PString(_) => Some(TYPE_VARCHAR)
    case PBytes(_) => Some(TYPE_VARBIT)
    case PTime(_) => Some(TYPE_DATETIME)
    case _ => None
  }

  predicate Scalar(v: Param) { WireType(v).Some? }

  /** int16(uint16(v)): what a field holds after the 16-bit store. */
  function Stored(v: int): (i: int16) { Signed16(Low16(v)) }

  /** encodeDateTime keeps each field's low 16 bits and the time to the millisecond. */
  function StoredClock(c: Clock): (d: Clock)
    ensures FitsClock(Datetime, d)
  {
    var ms: int := Stored(c.nanos / 1_000_000);
    Clock(Stored(c.year), Stored(c.month), Stored(c.day), Stored(c.hour), Stored(c.minute), Stored(c.second),
          ms * 1_000_000)
  }

  function ClockBody(c: Clock): (b: bytes)
    ensures |b| == 14
  {
    PrintFields([Stored(c.year), Stored(c.month), Stored(c.day), Stored(c.hour), Stored(c.minute),
                 Stored(c.second), Stored(c.nanos / 1_000_000)])
  }

  /** The value argument's bytes for a vetted scalar. */
  function Body(v: Param): (b: bytes)
    requires Scalar(v)
  {
    match v
    case PNil => []
    case PBool(b) => Put16(if b then 1 else 0)
    case PInt16(i) => Put16(i)
    case PInt32(i) => Put32(i)
    case PInt(i) => Put64(i)
    case PInt64(i) => Put64(i)
    case PFloat32(bits) => BE32(bits)
    case PFloat64(bits) => BE64(bits)
    case PString(s) => s + [0]
    case PBytes(p) => p
    case PTime(c) => ClockBody(c)
  }

  /** The element-type scan: the first non-nil element decides, the others must agree. */
  function Scan(vs: seq<Param>, seen: Option<byte>): (r: Encoded<Option<byte>>)
  {
    if vs == [] then Done(seen)
    else if vs[0].PNil? then Scan(vs[1..], seen)
    else if vs[0].PList? then Refused(Nested)
    else
      match WireType(vs[0])
      case None => Refused(Unsupported)
      case Some(t) => if seen.Some? && seen.value != t then Refused(Mixed) else Scan(vs[1..], Some(t))
  }

  function InnerElems(vs: seq<Param>): (b: bytes)
    requires forall i :: 0 <= i < |vs| ==> Scalar(vs[i])
  {
    if vs == [] then [] else Arg(Body(vs[0])) + InnerElems(vs[1..])
  }

  lemma InnerElemsStep(vs: seq<Param>, i: nat)
    requires i < |vs| && forall i :: 0 <= i < |vs| ==> Scalar(vs[i])
    ensures InnerElems(vs[i..]) == Arg(Body(vs[i])) + InnerElems(vs[i + 1..])
  {
    assert vs[i..][1..] == vs[i + 1..];
  }

  /** The collection value: element type byte, then each element's size and bytes; no element count. */
  function CollectionBody(vs: seq<Param>): (r: Encoded<bytes>)
  {
    match Scan(vs, None)
    case Refused(e) => Refused(e)
    case Done(seen) =>
      if vs != [] && seen.None? then Refused(AllNull)
      else
        ScanVets(vs, None);
        Done([if seen.Some? then seen.value else TYPE_OBJECT] + InnerElems(vs))
  }

  /** encodeArg over EncodeParam. */
  function Encode(v: Param): (r: Encoded<Pair>)
  {
    match v
    case PNilLob => Done(Pair(TYPE_NULL, []))
    case PLob(packed, clob) => Done(Pair(if clob then TYPE_CLOB else TYPE_BLOB, packed))
    case PNumeric(d) => Done(Pair(TYPE_VARCHAR, d + [0]))
    case PList(vs) =>
      (match CollectionBody(vs)
       case Refused(e) => Refused(e)
       case Done(b) => Done(Pair(TYPE_SEQUENCE, b)))
    case _ => if Scalar(v) then Done(Pair(WireType(v).value, Body(v))) else Refused(Unsupported)
  }

  /** A scan that succeeds has vetted every element, and all non-nil ones share the reported type. */
  lemma {:induction false} ScanVets(vs: seq<Param>, seen: Option<byte>)
    requires Scan(vs, seen).Done?
    ensures forall i :: 0 <= i < |vs| ==> Scalar(vs[i])
    ensures forall i :: 0 <= i < |vs| && !vs[i].PNil? ==> Scan(vs, seen).value == WireType(vs[i])
    ensures seen.Some? ==> Scan(vs, seen).value == seen
  {
    if vs != [] {
      var next := if vs[0].PNil? then seen else WireType(vs[0]);
      ScanVets(vs[1..], next);
      forall i | 0 <= i < |vs|
        ensures Scalar(vs[i]) && (!vs[i].PNil? ==> Scan(vs, seen).value == WireType(vs[i]))
      {
        if i > 0 {
          assert vs[i] == vs[1..][i - 1];
        }
      }
    }
  }

  // ---------- The encoder as it runs ----------

  method EncodeScalarValue(w: Writer, v: Param)
    requires Scalar(v)
    modifies w
    ensures w.buf == old(w.buf) + Arg(Body(v))
  {
    match v
    case PNil => w.ArgNull();
    case PBool(b) => w.ArgShort(if b then 1 else 0);
    case PInt(i) => w.ArgLong(i);
    case PInt16(i) => w.ArgShort(i);
    case PInt32(i) => w.ArgInt(i);
    case PInt64(i) => w.ArgLong(i);
    case PFloat32(bits) => w.ArgBytes(BE32(bits));
    case PFloat64(bits) => w.ArgBytes(BE64(bits));
    case PString(s) => w.ArgString(s);
    case PBytes(p) => w.ArgBytes(p);
    case PTime(c) => w.ArgBytes(ClockBody(c));
  }

  /** What an encoder promises of the writer: the pair appended, or a refusal that wrote nothing. */
  ghost predicate Emits(r: Encoded<Pair>, err: Option<BindError>, before: bytes, after: bytes) {
    match r
    case Done(p) => err == None && after == before + PairBytes(p)
    case Refused(e) => err == Some(e) && after == before
  }

  /** The first loop of encodeCollectionParam. */
  method ScanElements(vs: seq<Param>) returns (r: Encoded<Option<byte>>)
    ensures r == Scan(vs, None)
  {
    var elemType, seen := TYPE_OBJECT, false;
    var i := 0;
    while i < |vs|
      invariant 0 <= i <= |vs|
      invariant Scan(vs, None) == Scan(vs[i..], if seen then Some(elemType) else None)
    {
      if vs[i].PList? {
        return Refused(Nested);
      }
      if !vs[i].PNil? {
        var t := WireType(vs[i]);
        if t.None? {
          return Refused(Unsupported);
        }
        if !seen {
          elemType, seen := t.value, true;
        } else if t.value != elemType {
          return Refused(Mixed);
        }
      }
      i := i + 1;
    }
    return Done(if seen then Some(elemType) else None);
  }

  /** The second loop of encodeCollectionParam. */
  method WriteElements(inner: Writer, vs: seq<Param>)
    requires forall i :: 0 <= i < |vs| ==> Scalar(vs[i])
    modifies inner
    ensures inner.buf == old(inner.buf) + InnerElems(vs)
  {
    var i := 0;
    while i < |vs|
      invariant 0 <= i <= |vs|
      invariant old(inner.buf) + InnerElems(vs) == inner.buf + InnerElems(vs[i..])
    {
      InnerElemsStep(vs, i);
      Assoc(inner.buf, Arg(Body(vs[i])), InnerElems(vs[i + 1..]));
      EncodeScalarValue(inner, vs[i]);
      i := i + 1;
    }
    assert inner.buf + [] == inner.buf;
  }

  method EncodeCollectionParam(w: Writer, vs: seq<Param>) returns (err: Option<BindError>)
    modifies w
    ensures Emits(Encode(PList(vs)), err, old(w.buf), w.buf)
  {
    var seen := ScanElements(vs);
    if seen.Refused? {
      return Some(seen.error);
    }
    if |vs| > 0 && seen.value.None? {
      return Some(AllNull);
    }
    ScanVets(vs, None);
    var inner := new Writer();
    var et := if seen.value.Some? then seen.value.value else TYPE_OBJECT;
    inner.RawByte(et);
    assert inner.buf == [et];
    WriteElements(inner, vs);
    w.ArgByte(TYPE_SEQUENCE);
    w.ArgBytes(inner.buf);
    Assoc(old(w.buf), Arg([TYPE_SEQUENCE]), Arg(inner.buf));
    return None;
  }

  /** EncodeParam on a non-collection value. */
  method EncodeScalarParam(w: Writer, v: Param) returns (err: Option<BindError>)
    modifies w
    ensures Emits(if Scalar(v) then Done(Pair(WireType(v).value, Body(v))) else Refused(Unsupported),
                  err, old(w.buf), w.buf)
  {
    var t := WireType(v);
    if t.None? {
      return Some(Unsupported);
    }
    w.ArgByte(t.value);
    EncodeScalarValue(w, v);
    Assoc(old(w.buf), Arg([t.value]), Arg(Body(v)));
    return None;
  }

  method EncodeArg(w: Writer, v: Param) returns (err: Option<BindError>)
    modifies w
    ensures Emits(Encode(v), err, old(w.buf), w.buf)
  {
    match v
    case PNilLob =>
      err := EncodeScalarParam(w, PNil);
    case PLob(packed, clob) =>
      EncodeLobParam(w, packed, clob);
      err := None;
    case PNumeric(d) =>
      err := EncodeScalarParam(w, PString(d));
    case PList(vs) =>
      err := EncodeCollectionParam(w, vs);
    case _ =>
      EncodePlain(v);
      err := EncodeScalarParam(w, v);
  }

  lemma EncodePlain(v: Param)
    requires !v.PNilLob? && !v.PLob? && !v.PNumeric? && !v.PList?
    ensures Encode(v) == if Scalar(v) then Done(Pair(WireType(v).value, Body(v))) else Refused(Unsupported)
  {
  }

  /** A LOB binds as its type and its packed handle. */
  method EncodeLobParam(w: Writer, packed: bytes, clob: bool)
    modifies w
    ensures w.buf == old(w.buf) + PairBytes(Pair(if clob then TYPE_CLOB else TYPE_BLOB, packed))
  {
    var typ := if clob then TYPE_CLOB else TYPE_BLOB;
    w.ArgByte(typ);
    w.ArgBytes(packed);
    Assoc(old(w.buf), Arg([typ]), Arg(packed));
  }

  // ---------- Exactly which lists are accepted ----------

  /** Some element is non-nil, every non-nil one is a scalar, and they share one wire type. */
  ghost predicate Uniform(vs: seq<Param>, t: byte) {
    && (exists i :: 0 <= i < |vs| && !vs[i].PNil?)
    && forall i :: 0 <= i < |vs| && !vs[i].PNil? ==> WireType(vs[i]) == Some(t)
  }

  lemma {:induction false} ScanAccepts(vs: seq<Param>, seen: Option<byte>, t: byte)
    requires forall i :: 0 <= i < |vs| && !vs[i].PNil? ==> WireType(vs[i]) == Some(t)
    requires seen.None? || seen == Some(t)
    ensures Scan(vs, seen).Done?
    ensures Scan(vs, seen).value == if seen.Some? || (exists i :: 0 <= i < |vs| && !vs[i].PNil?) then Some(t) else None
  {
    if vs != [] {
      assert forall i :: 0 <= i < |vs[1..]| ==> vs[1..][i] == vs[i + 1];
      ScanAccepts(vs[1..], if vs[0].PNil? then seen else Some(t), t);
      if i :| 0 <= i < |vs| && !vs[i].PNil? && vs[0].PNil? {
        assert vs[1..][i - 1] == vs[i];
      }
    }
  }

  /** A list binds if and only if it is empty or uniform; nil elements are always allowed beside others. */
  lemma ListAccepted(vs: seq<Param>)
    ensures Encode(PList(vs)).Done? <==> vs == [] || exists t: byte :: Uniform(vs, t)
  {
    if t: byte :| Uniform(vs, t) {
      ScanAccepts(vs, None, t);
    }
    if Encode(PList(vs)).Done? && vs != [] {
      ScanVets(vs, None);
      var t := Scan(vs, None).value.value;
      if forall i :: 0 <= i < |vs| ==> vs[i].PNil? {
        ScanAccepts(vs, None, t);
      }
      assert Uniform(vs, t);
    }
  }

  /** The wire types and the fixed pairs, by number. */
  lemma BindTable(v: Param)
    ensures v.PNil? ==> WireType(v) == Some(0)
    ensures v.PInt32? ==> WireType(v) == Some(8)
    ensures v.PBool? || v.PInt16? ==> WireType(v) == Some(9)
    ensures v.PFloat32? ==> WireType(v) == Some(11)
    ensures v.PFloat64? ==> WireType(v) == Some(12)
    ensures v.PInt? || v.PInt64? ==> WireType(v) == Some(21)
    ensures v.PString? ==> WireType(v) == Some(2)
    ensures v.PBytes? ==> WireType(v) == Some(6)
    ensures v.PTime? ==> WireType(v) == Some(22)
    ensures v.PLob? ==> Encode(v) == Done(Pair(if v.clob then 24 else 23, v.packed))
    ensures v.PNilLob? ==> Encode(v) == Done(Pair(0, []))
    ensures v.PNumeric? ==> Encode(v) == Encode(PString(v.digits))
    ensures v.PList? && Encode(v).Done? ==> Encode(v).value.typ == 18
    ensures v == PList([]) ==> Encode(v) == Done(Pair(18, [19]))
  {
    assert [TYPE_OBJECT] + InnerElems([]) == [TYPE_OBJECT];
  }
}
