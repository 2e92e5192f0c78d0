/**
 The documented response layout of a value, as a printer independent of the decoder, and the
 theorem that the decoder inverts it exactly up to the nesting cap.
 */
module Layout {
  import opened Bytes
  import opened Wire
  import opened Codec

  /** What a server sends: a NULL element (any size <= 0 marks it), a scalar, or a collection. */
  datatype Tree =
    | Null(marker: int32)
    | Leaf(value: Value)
    | Coll(et: byte, elems: seq<Tree>)

  predicate NoTrailingNul(b: bytes) { b == [] || b[|b| - 1] != 0 }

  predicate IsInt16(v: int) { -0x8000 <= v < 0x8000 }

  /** How a wire type lays out its value, by type number. */
  datatype Form =
    | Text | Json | Short | Int | Bigint | Float | Double | Bits
    | Date | TimeOfDay | Timestamp | Datetime | ZonedTimestamp | ZonedDatetime
    | Collection | NoForm

  function FormOf(typ: byte): (f: Form)
  {
    if typ == 1 || typ == 2 || typ == 3 || typ == 4 || typ == 7 || typ == 25 then Text
    else if typ == 5 || typ == 6 then Bits
    else if typ == 8 || typ == 27 then Int
    else if typ == 9 || typ == 26 then Short
    else if typ == 21 || typ == 28 then Bigint
    else if typ == 11 then Float
    else if typ == 10 || typ == 12 then Double
    else if typ == 13 then Date
    else if typ == 14 then TimeOfDay
    else if typ == 15 then Timestamp
    else if typ == 22 then Datetime
    else if typ == 29 || typ == 30 then ZonedTimestamp
    else if typ == 31 || typ == 32 then ZonedDatetime
    else if typ == 16 || typ == 17 || typ == 18 then Collection
    else if typ == 34 then Json
    else NoForm
  }

  predicate IsPlainClock(f: Form) { f.Date? || f.TimeOfDay? || f.Timestamp? || f.Datetime? }

  predicate IsZonedClock(f: Form) { f.ZonedTimestamp? || f.ZonedDatetime? }

  /** The int16 fields a date/time form puts on the wire. */
  function ClockFields(f: Form, c: Clock): (fs: seq<int>)
  {
    match f
    case Date => [c.year, c.month, c.day]
    case TimeOfDay => [c.hour, c.minute, c.second]
    case Timestamp => [c.year, c.month, c.day, c.hour, c.minute, c.second]
    case ZonedTimestamp => [c.year, c.month, c.day, c.hour, c.minute, c.second]
    case _ => [c.year, c.month, c.day, c.hour, c.minute, c.second, c.nanos / 1_000_000]
  }

  /** A clock the form can carry: the fields it omits have their default, the rest fit int16. */
  predicate FitsClock(f: Form, c: Clock)
  {
    && (forall i :: 0 <= i < |ClockFields(f, c)| ==> IsInt16(ClockFields(f, c)[i]))
    && (f.Date? ==> c.hour == c.minute == c.second == c.nanos == 0)
    && (f.TimeOfDay? ==> c.year == c.month == c.day == 1 && c.nanos == 0)
    && (f.Timestamp? || f.ZonedTimestamp? ==> c.nanos == 0)
    && c.nanos % 1_000_000 == 0
  }

  predicate FitsScalar(typ: byte, v: Value)
  {
    var f := FormOf(typ);
    match f
    case Text => v.Str? && NoTrailingNul(v.text)
    case Json => v.Raw? && NoTrailingNul(v.raw)
    case Int => v.I32?
    case Short => v.I16?
    case Bigint => v.I64?
    case Float => v.F32?
    case Double => v.F64?
    case Bits => v.Raw?
    case Collection => false
    case NoForm => false
    case _ =>
      if IsZonedClock(f) then v.Zoned? && FitsClock(f, v.wall) && NoTrailingNul(v.zone)
      else v.Time? && FitsClock(f, v.clock)
  }

  function PrintFields(fs: seq<int>): (b: bytes)
    requires forall i :: 0 <= i < |fs| ==> IsInt16(fs[i])
    ensures |b| == 2 * |fs|
  {
    if fs == [] then [] else assert IsInt16(fs[0]); Put16(fs[0]) + PrintFields(fs[1..])
  }

  function PrintScalar(typ: byte, v: Value): (b: bytes)
    requires FitsScalar(typ, v)
  {
    match v
    case Str(text) => text + [0]
    case Raw(raw) => if FormOf(typ).Json? then raw + [0] else raw
    case I32(i) => Put32(i)
    case I16(i) => Put16(i)
    case I64(i) => Put64(i)
    case F32(bits) => BE32(bits)
    case F64(bits) => BE64(bits)
    case Time(c) => PrintFields(ClockFields(FormOf(typ), c))
    case Zoned(c, zone) => PrintFields(ClockFields(FormOf(typ), c)) + zone + [0]
  }

  /** t is a well-formed value of wire type typ. */
  predicate Fits(typ: byte, t: Tree)
    decreases t, 0
  {
    match t
    case Null(_) => false
    case Leaf(v) => FitsScalar(typ, v)
    case Coll(et, elems) => FormOf(typ).Collection? && |elems| < TWO_31 && FitsAll(et, elems)
  }

  predicate FitsElem(et: byte, t: Tree)
    decreases t, 2
  {
    if t.Null? then t.marker <= 0 else Fits(et, t) && |Print(et, t)| < TWO_31
  }

  predicate FitsAll(et: byte, elems: seq<Tree>)
    decreases elems, 0
  {
    elems == [] || (FitsElem(et, elems[0]) && FitsAll(et, elems[1..]))
  }

  function Print(typ: byte, t: Tree): (b: bytes)
    requires Fits(typ, t)
    decreases t, 1
  {
    match t
    case Leaf(v) => PrintScalar(typ, v)
    case Coll(et, elems) => [et] + Put32(|elems|) + PrintAll(et, elems)
  }

  function PrintElem(et: byte, t: Tree): (b: bytes)
    requires FitsElem(et, t)
    ensures |b| >= 4
    decreases t, 3
  {
    if t.Null? then Put32(t.marker) else Put32(|Print(et, t)|) + Print(et, t)
  }

  function PrintAll(et: byte, elems: seq<Tree>): (b: bytes)
    requires FitsAll(et, elems)
    ensures |b| >= 4 * |elems|
    decreases elems, 1
  {
    if elems == [] then [] else PrintElem(et, elems[0]) + PrintAll(et, elems[1..])
  }

  /**
   The Go value a tree stands for: wire types are forgotten, and an element whose body is empty
   (an empty bit string) is indistinguishable from NULL.
   */
  function Meaning(t: Tree): (v: Value)
    decreases t, 0
  {
    match t
    case Null(_) => Nil
    case Leaf(v) => v
    case Coll(et, elems) => List(MeaningAll(et, elems))
  }

  function MeaningAll(et: byte, elems: seq<Tree>): (vs: seq<Value>)
    ensures |vs| == |elems|
    decreases elems, 1
  {
    if elems == [] then []
    else
      [if FormOf(et).Bits? && elems[0] == Leaf(Raw([])) then Nil else Meaning(elems[0])] + MeaningAll(et, elems[1..])
  }

  function Depth(t: Tree): (d: nat)
    decreases t, 0
  {
    if t.Coll? then 1 + DepthAll(t.elems) else 0
  }

  function DepthAll(elems: seq<Tree>): (d: nat)
    decreases elems, 1
  {
    if elems == [] then 0
    else
      var h, t := Depth(elems[0]), DepthAll(elems[1..]);
      if h > t then h else t
  }

  // ---------- Scalars ----------

  lemma {:induction false} PrintedField(fs: seq<int>, rest: bytes, i: nat)
    requires forall j :: 0 <= j < |fs| ==> IsInt16(fs[j])
    requires i < |fs|
    ensures Field(PrintFields(fs) + rest, i) == fs[i]
  {
    var tail := PrintFields(fs[1..]) + rest;
    assert PrintFields(fs) + rest == Put16(fs[0]) + tail;
    if i == 0 {
      assert (Put16(fs[0]) + tail)[0..2] == Put16(fs[0]);
    } else {
      PrintedField(fs[1..], rest, i - 1);
      assert (Put16(fs[0]) + tail)[2 * i..2 * i + 2] == tail[2 * (i - 1)..2 * (i - 1) + 2];
    }
  }

  /** The four unzoned types and their forms. */
  predicate ClockType(typ: byte, f: Form)
  {
    match f
    case Date => typ == 13
    case TimeOfDay => typ == 14
    case Timestamp => typ == 15
    case Datetime => typ == 22
    case _ => false
  }

  /** A clock reads back its wall-clock fields, whatever follows them. */
  lemma PrintedClock(typ: byte, f: Form, c: Clock, extra: bytes)
    requires ClockType(typ, f) && FitsClock(f, c)
    ensures DecodeClock(typ, PrintFields(ClockFields(f, c)) + extra) == Ok(c)
  {
    var fs := ClockFields(f, c);
    forall i | 0 <= i < |fs|
      ensures Field(PrintFields(fs) + extra, i) == fs[i]
    {
      PrintedField(fs, extra, i);
    }
  }

  lemma TrimTerminated(b: bytes)
    requires NoTrailingNul(b)
    ensures TrimNul(b + [0]) == b
  {
    TrimNulTerminated(b);
  }

  /** A fixed-width value decodes to itself whatever follows it. */
  lemma PrintedFixed(typ: byte, v: Value, extra: bytes)
    requires FitsScalar(typ, v) && Width(FormOf(typ)) > 0 && !v.Zoned?
    ensures DecodeScalar(typ, PrintScalar(typ, v) + extra) == Ok(v)
  {
    if v.Time? {
      PrintedTime(typ, v.clock, extra);
    } else {
      PrintedNumber(typ, v, extra);
    }
  }

  /** Every scalar decodes to itself. */
  lemma PrintedScalar(typ: byte, v: Value)
    requires FitsScalar(typ, v)
    ensures DecodeScalar(typ, PrintScalar(typ, v)) == Ok(v)
  {
    if v.Str? || v.Raw? {
      PrintedBytes(typ, v);
    } else if v.Zoned? {
      PrintedZoned(typ, v.wall, v.zone);
    } else {
      PrintedFixed(typ, v, []);
      assert PrintScalar(typ, v) + [] == PrintScalar(typ, v);
    }
  }

  lemma PrintedBytes(typ: byte, v: Value)
    requires FitsScalar(typ, v) && (v.Str? || v.Raw?)
    ensures DecodeScalar(typ, PrintScalar(typ, v)) == Ok(v)
  {
    if v.Str? {
      TextDecodes(typ, v.text);
    } else if typ == 34 {
      JsonDecodes(v.raw);
    }
  }

  lemma TextDecodes(typ: byte, text: bytes)
    requires IsText(typ) && NoTrailingNul(text)
    ensures DecodeScalar(typ, text + [0]) == Ok(Str(text))
  {
    TrimTerminated(text);
  }

  lemma JsonDecodes(raw: bytes)
    requires NoTrailingNul(raw)
    ensures DecodeScalar(34, raw + [0]) == Ok(Raw(raw))
  {
    TrimTerminated(raw);
  }

  lemma PrintedNumber(typ: byte, v: Value, extra: bytes)
    requires FitsScalar(typ, v) && (v.I16? || v.I32? || v.I64? || v.F32? || v.F64?)
    ensures DecodeScalar(typ, PrintScalar(typ, v) + extra) == Ok(v)
  {
    match v
    case I16(i) => ShortDecodes(typ, i, extra);
    case I32(i) => IntDecodes(typ, i, extra);
    case I64(i) => BigintDecodes(typ, i, extra);
    case F32(bits) => FloatDecodes(bits, extra);
    case F64(bits) => DoubleDecodes(typ, bits, extra);
  }

  lemma ShortDecodes(typ: byte, i: int16, extra: bytes)
    requires typ == 9 || typ == 26
    ensures DecodeScalar(typ, Put16(i) + extra) == Ok(I16(i))
  {
    assert (Put16(i) + extra)[..2] == Put16(i);
  }

  lemma IntDecodes(typ: byte, i: int32, extra: bytes)
    requires typ == 8 || typ == 27
    ensures DecodeScalar(typ, Put32(i) + extra) == Ok(I32(i))
  {
    assert (Put32(i) + extra)[..4] == Put32(i);
  }

  lemma BigintDecodes(typ: byte, i: int64, extra: bytes)
    requires typ == 21 || typ == 28
    ensures DecodeScalar(typ, Put64(i) + extra) == Ok(I64(i))
  {
    assert (Put64(i) + extra)[..8] == Put64(i);
  }

  lemma FloatDecodes(bits: uint32, extra: bytes)
    ensures DecodeScalar(11, BE32(bits) + extra) == Ok(F32(bits))
  {
    assert (BE32(bits) + extra)[..4] == BE32(bits);
  }

  lemma DoubleDecodes(typ: byte, bits: uint64, extra: bytes)
    requires typ == 10 || typ == 12
    ensures DecodeScalar(typ, BE64(bits) + extra) == Ok(F64(bits))
  {
    assert (BE64(bits) + extra)[..8] == BE64(bits);
  }

  lemma PrintedTime(typ: byte, c: Clock, extra: bytes)
    requires IsPlainClock(FormOf(typ)) && FitsClock(FormOf(typ), c)
    ensures DecodeScalar(typ, PrintFields(ClockFields(FormOf(typ), c)) + extra) == Ok(Time(c))
  {
    PrintedClock(typ, FormOf(typ), c, extra);
  }

  lemma PrintedZoned(typ: byte, c: Clock, zone: bytes)
    requires IsZonedClock(FormOf(typ)) && FitsClock(FormOf(typ), c) && NoTrailingNul(zone)
    ensures DecodeScalar(typ, PrintFields(ClockFields(FormOf(typ), c)) + zone + [0]) == Ok(Zoned(c, zone))
  {
    if typ == 29 || typ == 30 {
      ZonedTimestampDecodes(typ, c, zone);
    } else {
      ZonedDatetimeDecodes(typ, c, zone);
    }
  }

  /** TIMESTAMPTZ and TIMESTAMPLTZ: year to second, twelve bytes, then the zone. */
  lemma ZonedTimestampDecodes(typ: byte, c: Clock, zone: bytes)
    requires (typ == 29 || typ == 30) && FitsClock(ZonedTimestamp, c) && NoTrailingNul(zone)
    ensures DecodeScalar(typ, PrintFields(ClockFields(ZonedTimestamp, c)) + zone + [0]) == Ok(Zoned(c, zone))
  {
    assert ClockFields(Timestamp, c) == ClockFields(ZonedTimestamp, c);
    ZonedByParts(typ, 15, Timestamp, c, zone);
    ZonedIsScalar(typ, PrintFields(ClockFields(Timestamp, c)) + zone + [0]);
  }

  /** DATETIMETZ and DATETIMELTZ: year to second and the milliseconds, fourteen bytes, then the zone. */
  lemma ZonedDatetimeDecodes(typ: byte, c: Clock, zone: bytes)
    requires (typ == 31 || typ == 32) && FitsClock(ZonedDatetime, c) && NoTrailingNul(zone)
    ensures DecodeScalar(typ, PrintFields(ClockFields(ZonedDatetime, c)) + zone + [0]) == Ok(Zoned(c, zone))
  {
    assert ClockFields(Datetime, c) == ClockFields(ZonedDatetime, c);
    ZonedByParts(typ, 22, Datetime, c, zone);
    ZonedIsScalar(typ, PrintFields(ClockFields(Datetime, c)) + zone + [0]);
  }

  lemma ZonedIsScalar(typ: byte, data: bytes)
    requires 29 <= typ <= 32
    ensures DecodeScalar(typ, data) == DecodeZoned(typ, data)
  {
  }

  lemma ZonedByParts(typ: byte, base: byte, f: Form, c: Clock, zone: bytes)
    requires ClockType(base, f) && FitsClock(f, c) && NoTrailingNul(zone)
    requires ZonedBase(typ) == base && ClockWidth(base) == 2 * |ClockFields(f, c)|
    ensures DecodeZoned(typ, PrintFields(ClockFields(f, c)) + zone + [0]) == Ok(Zoned(c, zone))
  {
    var body := PrintFields(ClockFields(f, c));
    var b := body + zone + [0];
    assert b[..|body|] == body && b[|body|..] == zone + [0] && body + [] == body;
    PrintedClock(base, f, c, []);
    TrimTerminated(zone);
  }

  /** The bytes a fixed-width form takes; a zoned form takes them before its zone. */
  function Width(f: Form): (n: nat)
  {
    match f
    case Short => 2
    case Int => 4
    case Float => 4
    case Bigint => 8
    case Double => 8
    case Date => 6
    case TimeOfDay => 6
    case Timestamp => 12
    case ZonedTimestamp => 12
    case Datetime => 14
    case ZonedDatetime => 14
    case _ => 0
  }

  /** Too few bytes for a form are refused, and an unknown type is named in its error. */
  lemma WhatIsRefused(typ: byte, data: bytes, depth: nat)
    ensures |data| < Width(FormOf(typ)) ==> DecodeValue(typ, data, depth) == Err(ShortBuffer)
    ensures FormOf(typ).NoForm? ==> DecodeValue(typ, data, depth) == Err(UnsupportedType(typ))
  {
  }

  // ---------- Trees ----------

  /** Decoding at `depth` enclosing collections: the tree itself, or TooDeep when it does not fit under the cap. */
  lemma {:induction false} PrintedTree(typ: byte, t: Tree, depth: nat)
    requires Fits(typ, t) && depth <= MAX_COLLECTION_DEPTH
    ensures DecodeValue(typ, Print(typ, t), depth) ==
            if depth + Depth(t) <= MAX_COLLECTION_DEPTH then Ok(Meaning(t)) else Err(TooDeep)
    decreases t, 1
  {
    match t
    case Leaf(v) => PrintedLeaf(typ, v, depth);
    case Coll(et, elems) => PrintedCollection(et, elems, depth);
  }

  lemma PrintedLeaf(typ: byte, v: Value, depth: nat)
    requires FitsScalar(typ, v)
    ensures DecodeValue(typ, PrintScalar(typ, v), depth) == Ok(v)
  {
    PrintedScalar(typ, v);
    NotACollection(typ, v);
  }

  lemma NotACollection(typ: byte, v: Value)
    requires FitsScalar(typ, v)
    ensures !IsCollection(typ)
  {
  }

  lemma {:induction false} PrintedCollection(et: byte, elems: seq<Tree>, depth: nat)
    requires |elems| < TWO_31 && FitsAll(et, elems) && depth <= MAX_COLLECTION_DEPTH
    ensures DecodeCollection([et] + Put32(|elems|) + PrintAll(et, elems), depth) ==
            if depth + 1 + DepthAll(elems) <= MAX_COLLECTION_DEPTH then Ok(List(MeaningAll(et, elems)))
            else Err(TooDeep)
    decreases elems, 2
  {
    if depth < MAX_COLLECTION_DEPTH {
      var body := PrintAll(et, elems);
      PrintedHeader(et, |elems|, body);
      PrintedElems(et, elems, [], depth + 1);
      assert body + [] == body;
      CollectionByParts([et] + Put32(|elems|) + body, Header(et, |elems|), body, depth,
                        if depth + 1 + DepthAll(elems) <= MAX_COLLECTION_DEPTH then Ok(MeaningAll(et, elems))
                        else Err(TooDeep));
    }
  }

  lemma PrintedHeader(et: byte, n: int32, body: bytes)
    requires 0 <= n && 4 * n <= |body|
    ensures DecodeHeader([et] + Put32(n) + body) == Got(Header(et, n), body)
  {
    Assoc([et], Put32(n), body);
    ReadBytePut(et, Put32(n) + body);
    ReadI32Put(n, body);
  }

  lemma {:induction false} PrintedElems(et: byte, elems: seq<Tree>, rest: bytes, depth: nat)
    requires FitsAll(et, elems) && depth <= MAX_COLLECTION_DEPTH
    ensures DecodeElems(et, |elems|, PrintAll(et, elems) + rest, depth) ==
            if depth + DepthAll(elems) <= MAX_COLLECTION_DEPTH then Ok(MeaningAll(et, elems)) else Err(TooDeep)
    decreases elems, 1
  {
    if elems != [] {
      var tail := PrintAll(et, elems[1..]) + rest;
      Assoc(PrintElem(et, elems[0]), PrintAll(et, elems[1..]), rest);
      PrintedElem(et, elems[0], tail, depth);
      PrintedElems(et, elems[1..], rest, depth);
    }
  }

  lemma {:induction false} PrintedElem(et: byte, t: Tree, rest: bytes, depth: nat)
    requires FitsElem(et, t)
    requires depth <= MAX_COLLECTION_DEPTH
    ensures DecodeElem(et, PrintElem(et, t) + rest, depth) ==
            if depth + Depth(t) <= MAX_COLLECTION_DEPTH
            then Got(if FormOf(et).Bits? && t == Leaf(Raw([])) then Nil else Meaning(t), rest)
            else Fail(TooDeep)
    decreases t, 2
  {
    if t.Null? {
      ReadI32Put(t.marker, rest);
    } else {
      var body := Print(et, t);
      Assoc(Put32(|body|), body, rest);
      ReadI32Put(|body|, body + rest);
      if body != [] {
        ReadBytesPut(body, rest);
        PrintedTree(et, t, depth);
      }
    }
  }

  /** decode(print(t)) is t exactly when t nests at most 32 collections, and an error for every deeper tree. */
  lemma TreeRoundTrip(typ: byte, t: Tree)
    requires Fits(typ, t)
    ensures DecodeValue(typ, Print(typ, t), 0) == Ok(Meaning(t)) <==> Depth(t) <= 32
    ensures Depth(t) > 32 ==> DecodeValue(typ, Print(typ, t), 0) == Err(TooDeep)
  {
    PrintedTree(typ, t, 0);
  }
}
