/** Response value decoding (cubrid/internal/protocol/codec.go). */
module Codec {
  import opened Bytes
  import opened Wire

  const TYPE_NULL: byte := 0
  const TYPE_VARCHAR: byte := 2
  const TYPE_VARBIT: byte := 6
  const TYPE_INT: byte := 8
  const TYPE_SHORT: byte := 9
  const TYPE_FLOAT: byte := 11
  const TYPE_DOUBLE: byte := 12
  const TYPE_DATE: byte := 13
  const TYPE_TIME: byte := 14
  const TYPE_TIMESTAMP: byte := 15
  const TYPE_SET: byte := 16
  const TYPE_MULTISET: byte := 17
  const TYPE_SEQUENCE: byte := 18
  const TYPE_OBJECT: byte := 19
  const TYPE_BIGINT: byte := 21
  const TYPE_DATETIME: byte := 22
  const TYPE_BLOB: byte := 23
  const TYPE_CLOB: byte := 24
  const TYPE_JSON: byte := 34

  const MAX_COLLECTION_DEPTH := 32

  /** Wall-clock fields; calendar normalisation and zone lookup belong to package time. */
  datatype Clock = Clock(year: int, month: int, day: int, hour: int, minute: int, second: int, nanos: int)

  /** A decoded column value. Floats are their bit patterns. */
  datatype Value =
    | Nil
    | I16(i16: int16)
    | I32(i32: int32)
    | I64(i64: int64)
    | F32(bits32: uint32)
    | F64(bits64: uint64)
    | Str(text: bytes)
    | Raw(raw: bytes)
    | Time(clock: Clock)
    | Zoned(wall: Clock, zone: bytes)
    | Lob(packed: bytes, clob: bool)
    | List(items: seq<Value>)

  // CHAR, VARCHAR, NCHAR, VARNCHAR, NUMERIC, ENUM
  predicate IsText(typ: byte) { 1 <= typ <= 4 || typ == 7 || typ == 25 }
  // INT, UINT
  predicate IsInt(typ: byte) { typ == TYPE_INT || typ == 27 }
  // SHORT, USHORT
  predicate IsShort(typ: byte) { typ == TYPE_SHORT || typ == 26 }
  // BIGINT, UBIGINT
  predicate IsBigint(typ: byte) { typ == TYPE_BIGINT || typ == 28 }
  // DOUBLE, MONETARY
  predicate IsDouble(typ: byte) { typ == TYPE_DOUBLE || typ == 10 }
  // BIT, VARBIT
  predicate IsBit(typ: byte) { typ == 5 || typ == TYPE_VARBIT }
  predicate IsClock(typ: byte) { 13 <= typ <= 15 || typ == TYPE_DATETIME }
  // TIMESTAMPTZ, TIMESTAMPLTZ, DATETIMETZ, DATETIMELTZ
  predicate IsZoned(typ: byte) { 29 <= typ <= 32 }
  predicate IsCollection(typ: byte) { 16 <= typ <= 18 }

  /** The i-th big-endian int16 of a date/time body. */
  function Field(b: bytes, i: nat): (v: int16)
    requires 2 * i + 2 <= |b|
  {
    Get16(b[2 * i..2 * i + 2])
  }

  function ClockWidth(typ: byte): (n: nat)
  {
    if typ == TYPE_DATE || typ == TYPE_TIME then 6 else if typ == TYPE_TIMESTAMP then 12 else 14
  }

  function DecodeClock(typ: byte, b: bytes): (r: Result<Clock>)
  {
    if |b| < ClockWidth(typ) then Err(ShortBuffer)
    else if typ == TYPE_DATE then Ok(Clock(Field(b, 0), Field(b, 1), Field(b, 2), 0, 0, 0, 0))
    else if typ == TYPE_TIME then Ok(Clock(1, 1, 1, Field(b, 0), Field(b, 1), Field(b, 2), 0))
    else if typ == TYPE_TIMESTAMP then
      Ok(Clock(Field(b, 0), Field(b, 1), Field(b, 2), Field(b, 3), Field(b, 4), Field(b, 5), 0))
    else
      var ms: int := Field(b, 6);
      Ok(Clock(Field(b, 0), Field(b, 1), Field(b, 2), Field(b, 3), Field(b, 4), Field(b, 5), ms * 1_000_000))
  }

  /** A zoned value is the base type's wall-clock fields, then the zone name. */
  function ZonedBase(typ: byte): (base: byte)
  {
    if typ == 29 || typ == 30 then TYPE_TIMESTAMP else TYPE_DATETIME
  }

  function DecodeZoned(typ: byte, b: bytes): (r: Result<Value>)
  {
    var n := ClockWidth(ZonedBase(typ));
    if |b| < n then Err(ShortBuffer)
    else
      match DecodeClock(ZonedBase(typ), b[..n])
      case Err(e) => Err(e)
      case Ok(t) => Ok(Zoned(t, TrimNul(b[n..])))
  }

  /** decodeValue on every non-collection type. */
  function DecodeScalar(typ: byte, data: bytes): (r: Result<Value>)
    ensures r.Ok? ==> !r.value.List? && !r.value.Nil?
  {
    if IsText(typ) then Ok(Str(TrimNul(data)))
    else if typ == TYPE_JSON then Ok(Raw(TrimNul(data)))
    else if IsInt(typ) then (if |data| < 4 then Err(ShortBuffer) else Ok(I32(Get32(data[..4]))))
    else if IsShort(typ) then (if |data| < 2 then Err(ShortBuffer) else Ok(I16(Get16(data[..2]))))
    else if IsBigint(typ) then (if |data| < 8 then Err(ShortBuffer) else Ok(I64(Get64(data[..8]))))
    else if typ == TYPE_FLOAT then (if |data| < 4 then Err(ShortBuffer) else Ok(F32(U32(data[..4]))))
    else if IsDouble(typ) then (if |data| < 8 then Err(ShortBuffer) else Ok(F64(U64(data[..8]))))
    else if IsBit(typ) then Ok(Raw(data))
    else if IsClock(typ) then
      (match DecodeClock(typ, data) case Err(e) => Err(e) case Ok(t) => Ok(Time(t)))
    else if IsZoned(typ) then DecodeZoned(typ, data)
    else Err(UnsupportedType(typ))
  }

  function DecodeValue(typ: byte, data: bytes, depth: nat): (r: Result<Value>)
    decreases |data|, 2
  {
    if IsCollection(typ) then DecodeCollection(data, depth) else DecodeScalar(typ, data)
  }

  /** Element type and count; a count that cannot fit the bytes left is refused before allocating. */
  datatype Header = Header(et: byte, count: nat)

  function DecodeHeader(b: bytes): (p: Parsed<Header>)
    ensures p.Got? ==> |p.rest| == |b| - 5 && 4 * p.value.count <= |p.rest|
  {
    match ReadByte(b)
    case Fail(e) => Fail(e)
    case Got(et, s) =>
      match ReadI32(s)
      case Fail(e) => Fail(e)
      case Got(n, t) => if n < 0 || 4 * n > |t| then Fail(BadCount(n)) else Got(Header(et, n), t)
  }

  function DecodeCollection(b: bytes, depth: nat): (r: Result<Value>)
    decreases |b|, 1
  {
    if depth >= MAX_COLLECTION_DEPTH then Err(TooDeep)
    else
      match DecodeHeader(b)
      case Fail(e) => Err(e)
      case Got(h, t) =>
        match DecodeElems(h.et, h.count, t, depth + 1)
        case Err(e) => Err(e)
        case Ok(vs) => Ok(List(vs))
  }

  /** One element off the front of s: a size <= 0 is NULL, otherwise that many bytes of type et. */
  function DecodeElem(et: byte, s: bytes, depth: nat): (p: Parsed<Value>)
    ensures p.Got? ==> |p.rest| + 4 <= |s|
    decreases |s|, 0
  {
    match ReadI32(s)
    case Fail(e) => Fail(e)
    case Got(sz, t) =>
      if sz <= 0 then Got(Nil, t)
      else
        match ReadBytes(t, sz)
        case Fail(e) => Fail(e)
        case Got(eb, u) => Leaving(DecodeValue(et, eb, depth), u)
  }

  function DecodeElems(et: byte, n: nat, s: bytes, depth: nat): (r: Result<seq<Value>>)
    decreases |s|, 1
  {
    if n == 0 then Ok([])
    else
      match DecodeElem(et, s, depth)
      case Fail(e) => Err(e)
      case Got(v, t) => Prepend([v], DecodeElems(et, n - 1, t, depth))
  }

  function Prepend(vs: seq<Value>, r: Result<seq<Value>>): (q: Result<seq<Value>>)
    ensures vs == [] ==> q == r
    ensures r == Ok([]) ==> q == Ok(vs)
  {
    match r
    case Err(e) => Err(e)
    case Ok(ws) =>
      assert vs == [] ==> vs + ws == ws;
      assert ws == [] ==> vs + ws == vs;
      Ok(vs + ws)
  }

  /** One turn of the element loop: the decoded element moves from the input to the output. */
  lemma ElemsStep(et: byte, m: nat, s: bytes, depth: nat, out: seq<Value>)
    requires m > 0
    ensures match DecodeElem(et, s, depth)
            case Fail(e) => Prepend(out, DecodeElems(et, m, s, depth)) == Err(e)
            case Got(v, t) =>
              Prepend(out, DecodeElems(et, m, s, depth)) == Prepend(out + [v], DecodeElems(et, m - 1, t, depth))
  {
    match DecodeElem(et, s, depth)
    case Fail(_) =>
    case Got(v, t) =>
      var r := DecodeElems(et, m - 1, t, depth);
      if r.Ok? {
        assert out + ([v] + r.value) == (out + [v]) + r.value;
      }
  }

  /** Column and CALL values of declared type NULL carry their own one- or two-byte type prefix. */
  function DecodeSelfDescribed(data: bytes): (r: Result<Value>)
  {
    if |data| == 0 then Err(ShortBuffer)
    else if data[0] >= 0x80 && |data| < 2 then Err(ShortBuffer)
    else
      var kind := (data[0] / 0x20) % 4;
      var typ := if data[0] < 0x80 then data[0] else if kind == 0 then data[1] else 15 + kind;
      var rest := if data[0] < 0x80 then data[1..] else data[2..];
      if typ == TYPE_NULL then Ok(Nil) else DecodeValue(typ, rest, 0)
  }

  // ---------- What decoding reserves ----------

  /** The slots of every `make` along the decode of a value, whether it then succeeds or fails. */
  function Reserved(typ: byte, data: bytes, depth: nat): (n: nat)
    decreases |data|, 2
  {
    if IsCollection(typ) then ReservedCollection(data, depth) else 0
  }

  function ReservedCollection(b: bytes, depth: nat): (n: nat)
    decreases |b|, 1
  {
    if depth >= MAX_COLLECTION_DEPTH then 0
    else
      match DecodeHeader(b)
      case Fail(_) => 0
      case Got(h, t) => h.count + ReservedElems(h.et, h.count, t, depth + 1)
  }

  function ReservedElem(et: byte, s: bytes, depth: nat): (n: nat)
    decreases |s|, 0
  {
    match ReadI32(s)
    case Fail(_) => 0
    case Got(sz, t) =>
      if sz <= 0 then 0
      else
        match ReadBytes(t, sz)
        case Fail(_) => 0
        case Got(eb, _) => Reserved(et, eb, depth)
  }

  /** Elements after one that does not decode are never reached. */
  function ReservedElems(et: byte, n: nat, s: bytes, depth: nat): (m: nat)
    decreases |s|, 1
  {
    if n == 0 then 0
    else
      ReservedElem(et, s, depth) +
      match DecodeElem(et, s, depth)
      case Fail(_) => 0
      case Got(_, t) => ReservedElems(et, n - 1, t, depth)
  }

  /** levels * n, by addition: every level of nesting may spend the bytes once. */
  ghost function Budget(levels: nat, n: nat): (b: nat)
  {
    if levels == 0 then 0 else n + Budget(levels - 1, n)
  }

  lemma BudgetIsProduct(levels: nat, n: nat)
    ensures Budget(levels, n) == levels * n
  {
  }

  lemma BudgetSplits(levels: nat, m: nat, n: nat, total: nat)
    requires m + n <= total
    ensures Budget(levels, m) + Budget(levels, n) <= Budget(levels, total)
  {
  }

  lemma BudgetOfLevel(levels: nat, n: nat, cost: nat, t: nat, b: nat)
    requires levels >= 1 && 4 * n <= t <= b && 4 * cost <= Budget(levels - 1, t)
    ensures 4 * (n + cost) <= Budget(levels, b)
  {
    BudgetSplits(levels - 1, t, 0, b);
  }

  lemma {:induction false} ValueWithinBudget(typ: byte, data: bytes, depth: nat)
    requires depth <= MAX_COLLECTION_DEPTH
    ensures 4 * Reserved(typ, data, depth) <= Budget(MAX_COLLECTION_DEPTH - depth, |data|)
    decreases |data|, 2
  {
    var h := DecodeHeader(data);
    if IsCollection(typ) && depth < MAX_COLLECTION_DEPTH && h.Got? {
      ElemsWithinBudget(h.value.et, h.value.count, h.rest, depth + 1);
      BudgetOfLevel(MAX_COLLECTION_DEPTH - depth, h.value.count,
                    ReservedElems(h.value.et, h.value.count, h.rest, depth + 1), |h.rest|, |data|);
    }
  }

  /** One element is paid for by its own bytes. */
  lemma {:induction false} ElemWithinBudget(et: byte, s: bytes, depth: nat) returns (width: nat)
    requires depth <= MAX_COLLECTION_DEPTH
    ensures width <= |s| && 4 * ReservedElem(et, s, depth) <= Budget(MAX_COLLECTION_DEPTH - depth, width)
    ensures DecodeElem(et, s, depth).Got? ==> |DecodeElem(et, s, depth).rest| + width <= |s|
    decreases |s|, 0
  {
    width := 0;
    var n := ReadI32(s);
    if n.Got? && n.value > 0 && ReadBytes(n.rest, n.value).Got? {
      width := n.value;
      ValueWithinBudget(et, ReadBytes(n.rest, n.value).value, depth);
    }
  }

  lemma {:induction false} ElemsWithinBudget(et: byte, n: nat, s: bytes, depth: nat)
    requires depth <= MAX_COLLECTION_DEPTH
    ensures 4 * ReservedElems(et, n, s, depth) <= Budget(MAX_COLLECTION_DEPTH - depth, |s|)
    decreases |s|, 1
  {
    if n > 0 {
      var levels := MAX_COLLECTION_DEPTH - depth;
      var width := ElemWithinBudget(et, s, depth);
      var p := DecodeElem(et, s, depth);
      if p.Got? {
        ElemsWithinBudget(et, n - 1, p.rest, depth);
        BudgetSplits(levels, width, |p.rest|, |s|);
      } else {
        BudgetSplits(levels, width, 0, |s|);
      }
    }
  }

  /** Whatever the bytes, a whole decode reserves at most 32 * len / 4 slots. */
  lemma ReservationIsBounded(typ: byte, data: bytes)
    ensures 4 * Reserved(typ, data, 0) <= 32 * |data|
  {
    ValueWithinBudget(typ, data, 0);
    BudgetIsProduct(MAX_COLLECTION_DEPTH, |data|);
  }

  // ---------- The factor 32 is needed ----------

  /** A collection of one collection, announcing as many elements as its bytes could hold. */
  function Wrap(inner: bytes): (b: bytes)
    requires |inner| + 9 < TWO_31
    ensures |b| == |inner| + 9
  {
    [TYPE_SEQUENCE] + (Put32((4 + |inner|) / 4) + (Put32(|inner|) + inner))
  }

  function Nest(k: nat, core: bytes): (b: bytes)
    requires |core| + 9 * k < TWO_31
    ensures |b| == |core| + 9 * k
  {
    if k == 0 then core else Wrap(Nest(k - 1, core))
  }

  ghost predicate ReservesAtLeast(b: bytes, depth: nat, m: nat) { 4 * ReservedCollection(b, depth) >= m }

  lemma {:induction false} NestReserves(k: nat, core: bytes, depth: nat)
    requires depth + k <= MAX_COLLECTION_DEPTH && |core| + 9 * k < TWO_31
    ensures ReservesAtLeast(Nest(k, core), depth, Budget(k, |core|))
    decreases k
  {
    if k > 0 {
      var inner := Nest(k - 1, core);
      NestReserves(k - 1, core, depth + 1);
      WrapReserves(inner, depth, Budget(k - 1, |core|), Budget(k, |core|));
    }
  }

  /** A wrapped collection reserves for itself and for the one inside it. */
  lemma WrapReserves(inner: bytes, depth: nat, b: nat, m: nat)
    requires depth < MAX_COLLECTION_DEPTH && |inner| + 9 < TWO_31
    requires ReservesAtLeast(inner, depth + 1, b) && m <= |inner| + b
    ensures ReservesAtLeast(Wrap(inner), depth, m)
  {
    var n: int32 := (4 + |inner|) / 4;
    var t := Put32(|inner|) + inner;
    ReadBytePut(TYPE_SEQUENCE, Put32(n) + t);
    ReadI32Put(n, t);
    assert DecodeHeader(Wrap(inner)) == Got(Header(TYPE_SEQUENCE, n), t);
    ReservedByParts(Wrap(inner), Header(TYPE_SEQUENCE, n), t, depth);
    ReservedFirst(TYPE_SEQUENCE, n, t, depth + 1);
    InnerReserved(inner, depth + 1);
  }

  lemma InnerReserved(inner: bytes, depth: nat)
    requires |inner| < TWO_31
    ensures ReservedElem(TYPE_SEQUENCE, Put32(|inner|) + inner, depth) >=
            if inner == [] then 0 else ReservedCollection(inner, depth)
  {
    ReadI32Put(|inner|, inner);
    assert inner + [] == inner;
    ReadBytesPut(inner, []);
  }

  /** For every length there are bytes reserving 32 * (len - 288) / 4 slots, so no bound without the factor holds. */
  lemma BoundIsTight(core: bytes)
    requires |core| + 9 * MAX_COLLECTION_DEPTH < TWO_31
    ensures var data := Nest(MAX_COLLECTION_DEPTH, core);
            |data| == |core| + 288 && 4 * Reserved(TYPE_SEQUENCE, data, 0) >= MAX_COLLECTION_DEPTH * (|data| - 288)
  {
    NestReserves(MAX_COLLECTION_DEPTH, core, 0);
    BudgetIsProduct(MAX_COLLECTION_DEPTH, |core|);
  }

  // ---------- The decoding loop ----------

  /** decodeValue as it runs, with the slots it reserves counted on success and on failure alike. */
  method RunDecodeValue(typ: byte, data: bytes, depth: nat) returns (r: Result<Value>, slots: nat)
    ensures r == DecodeValue(typ, data, depth) && slots == Reserved(typ, data, depth)
    decreases |data|, 2
  {
    if IsCollection(typ) {
      r, slots := RunDecodeCollection(data, depth);
    } else {
      r, slots := DecodeScalar(typ, data), 0;
    }
  }

  /** DecodeValue. */
  method Decode(typ: byte, data: bytes) returns (r: Result<Value>, slots: nat)
    ensures r == DecodeValue(typ, data, 0) && slots == Reserved(typ, data, 0)
    ensures 4 * slots <= 32 * |data|
  {
    r, slots := RunDecodeValue(typ, data, 0);
    ReservationIsBounded(typ, data);
  }

  method RunDecodeCollection(b: bytes, depth: nat) returns (r: Result<Value>, slots: nat)
    ensures r == DecodeCollection(b, depth) && slots == ReservedCollection(b, depth)
    decreases |b|, 1
  {
    if depth >= MAX_COLLECTION_DEPTH {
      return Err(TooDeep), 0;
    }
    var rd := new Reader(b);
    var h := RunDecodeHeader(rd);
    if h.Err? {
      return Err(h.error), 0;
    }
    slots := h.value.count;
    CollectionByParts(b, h.value, rd.Rest(), depth, DecodeElems(h.value.et, h.value.count, rd.Rest(), depth + 1));
    ReservedByParts(b, h.value, rd.Rest(), depth);
    var vs, cost := RunDecodeElems(h.value.et, h.value.count, rd, depth + 1);
    slots := slots + cost;
    r := if vs.Err? then Err(vs.error) else Ok(List(vs.value));
  }

  /** A collection, from its header and its elements. */
  lemma CollectionByParts(b: bytes, h: Header, t: bytes, depth: nat, r: Result<seq<Value>>)
    requires depth < MAX_COLLECTION_DEPTH && DecodeHeader(b) == Got(h, t)
    requires DecodeElems(h.et, h.count, t, depth + 1) == r
    ensures DecodeCollection(b, depth) == if r.Err? then Err(r.error) else Ok(List(r.value))
  {
  }

  lemma ReservedByParts(b: bytes, h: Header, t: bytes, depth: nat)
    requires depth < MAX_COLLECTION_DEPTH && DecodeHeader(b) == Got(h, t)
    ensures ReservedCollection(b, depth) == h.count + ReservedElems(h.et, h.count, t, depth + 1)
  {
  }

  method RunDecodeHeader(rd: Reader) returns (h: Result<Header>)
    requires rd.Valid()
    modifies rd
    ensures rd.Valid() && Agrees(DecodeHeader(old(rd.Rest())), h, rd.Rest())
  {
    var et := rd.Byte();
    if et.Err? {
      return Err(et.error);
    }
    var n := rd.Int32();
    if n.Err? {
      return Err(n.error);
    }
    if n.value < 0 || n.value * 4 > |rd.buf| - rd.off {
      return Err(BadCount(n.value));
    }
    return Ok(Header(et.value, n.value));
  }

  /** After i elements `out` is decoded and s is unread. */
  ghost predicate DecodedTo(et: byte, n: nat, t: bytes, depth: nat, i: nat, out: seq<Value>, s: bytes) {
    i <= n && DecodeElems(et, n, t, depth) == Prepend(out, DecodeElems(et, n - i, s, depth))
  }

  /** After i elements `cost` slots were reserved and s is unread. */
  ghost predicate ReservedTo(et: byte, n: nat, t: bytes, depth: nat, i: nat, cost: nat, s: bytes) {
    i <= n && ReservedElems(et, n, t, depth) == cost + ReservedElems(et, n - i, s, depth)
  }

  lemma DecodedStep(et: byte, n: nat, t: bytes, depth: nat, i: nat, out: seq<Value>, s: bytes)
    requires i < n && DecodedTo(et, n, t, depth, i, out, s)
    ensures var p := DecodeElem(et, s, depth);
            && (p.Fail? ==> DecodeElems(et, n, t, depth) == Err(p.error))
            && (p.Got? ==> DecodedTo(et, n, t, depth, i + 1, out + [p.value], p.rest))
  {
    ElemsStep(et, n - i, s, depth, out);
  }

  lemma ReservedStep(et: byte, n: nat, t: bytes, depth: nat, i: nat, cost: nat, s: bytes)
    requires i < n && ReservedTo(et, n, t, depth, i, cost, s)
    ensures var p, c := DecodeElem(et, s, depth), cost + ReservedElem(et, s, depth);
            && (p.Fail? ==> ReservedElems(et, n, t, depth) == c)
            && (p.Got? ==> ReservedTo(et, n, t, depth, i + 1, c, p.rest))
  {
    ReservedFirst(et, n - i, s, depth);
  }

  lemma DecodedAll(et: byte, n: nat, t: bytes, depth: nat, out: seq<Value>, cost: nat, s: bytes)
    requires DecodedTo(et, n, t, depth, n, out, s) && ReservedTo(et, n, t, depth, n, cost, s)
    ensures DecodeElems(et, n, t, depth) == Ok(out) && ReservedElems(et, n, t, depth) == cost
  {
  }

  lemma ReservedFirst(et: byte, n: nat, s: bytes, depth: nat)
    requires n > 0
    ensures var p, c := DecodeElem(et, s, depth), ReservedElem(et, s, depth);
            ReservedElems(et, n, s, depth) == c + if p.Fail? then 0 else ReservedElems(et, n - 1, p.rest, depth)
  {
  }

  method RunDecodeElems(et: byte, n: nat, rd: Reader, depth: nat) returns (r: Result<seq<Value>>, cost: nat)
    requires rd.Valid()
    modifies rd
    ensures r == DecodeElems(et, n, old(rd.Rest()), depth)
    ensures cost == ReservedElems(et, n, old(rd.Rest()), depth)
    decreases |rd.Rest()|, 1
  {
    ghost var t := rd.Rest();
    var out: seq<Value>, i := [], 0;
    cost := 0;
    while i < n
      invariant 0 <= i <= n && rd.Valid() && |rd.Rest()| <= |t|
      invariant DecodedTo(et, n, t, depth, i, out, rd.Rest()) && ReservedTo(et, n, t, depth, i, cost, rd.Rest())
    {
      DecodedStep(et, n, t, depth, i, out, rd.Rest());
      ReservedStep(et, n, t, depth, i, cost, rd.Rest());
      var v, c := RunDecodeElem(et, rd, depth);
      cost := cost + c;
      if v.Err? {
        return Err(v.error), cost;
      }
      out, i := out + [v.value], i + 1;
    }
    DecodedAll(et, n, t, depth, out, cost, rd.Rest());
    r := Ok(out);
  }

  /** The loop body; `cost` is what decoding this element reserves. */
  method RunDecodeElem(et: byte, rd: Reader, depth: nat) returns (v: Result<Value>, cost: nat)
    requires rd.Valid()
    modifies rd
    ensures rd.Valid() && Agrees(DecodeElem(et, old(rd.Rest()), depth), v, rd.Rest())
    ensures cost == ReservedElem(et, old(rd.Rest()), depth)
    decreases |rd.Rest()|, 0
  {
    var sz := rd.Int32();
    if sz.Err? {
      return Err(sz.error), 0;
    }
    if sz.value <= 0 {
      return Ok(Nil), 0;
    }
    var eb := rd.Take(sz.value);
    if eb.Err? {
      return Err(eb.error), 0;
    }
    v, cost := RunDecodeValue(et, eb.value, depth);
  }

  // ---------- What a successful decode can hold ----------

  /** Number of enclosing lists around the deepest element. */
  function Nesting(v: Value): (d: nat)
    decreases v, 0
  {
    if v.List? then 1 + NestingAll(v.items) else 0
  }

  function NestingAll(vs: seq<Value>): (d: nat)
    ensures forall i :: 0 <= i < |vs| ==> Nesting(vs[i]) <= d
    decreases vs, 1
  {
    if vs == [] then 0
    else
      var h, t := Nesting(vs[0]), NestingAll(vs[1..]);
      assert forall i :: 1 <= i < |vs| ==> vs[i] == vs[1..][i - 1];
      if h > t then h else t
  }

  /** Elements at every level of the tree. */
  function Elements(v: Value): (n: nat)
    decreases v, 0
  {
    if v.List? then ElementsAll(v.items) else 0
  }

  function ElementsAll(vs: seq<Value>): (n: nat)
    ensures n >= |vs|
    decreases vs, 1
  {
    if vs == [] then 0 else 1 + Elements(vs[0]) + ElementsAll(vs[1..])
  }

  lemma {:induction false} DecodedValueIsBounded(typ: byte, data: bytes, depth: nat)
    requires depth <= MAX_COLLECTION_DEPTH
    requires DecodeValue(typ, data, depth).Ok?
    ensures var v := DecodeValue(typ, data, depth).value;
            && depth + Nesting(v) <= MAX_COLLECTION_DEPTH
            && 4 * Elements(v) <= |data|
            && (IsCollection(typ) ==> 4 * Elements(v) + 5 <= |data|)
    decreases |data|, 2
  {
    if IsCollection(typ) {
      var h := DecodeHeader(data);
      DecodedElemsAreBounded(h.value.et, h.value.count, h.rest, depth + 1);
    }
  }

  lemma {:induction false} DecodedElemsAreBounded(et: byte, n: nat, s: bytes, depth: nat)
    requires depth <= MAX_COLLECTION_DEPTH
    requires DecodeElems(et, n, s, depth).Ok?
    ensures var vs := DecodeElems(et, n, s, depth).value;
            |vs| == n && depth + NestingAll(vs) <= MAX_COLLECTION_DEPTH && 4 * ElementsAll(vs) <= |s|
    decreases |s|, 1
  {
    if n > 0 {
      var v, t := DecodeElem(et, s, depth).value, DecodeElem(et, s, depth).rest;
      if v != Nil {
        var sz, u := ReadI32(s).value, ReadI32(s).rest;
        DecodedValueIsBounded(et, ReadBytes(u, sz).value, depth);
      }
      DecodedElemsAreBounded(et, n - 1, t, depth);
      var vs := DecodeElems(et, n, s, depth).value;
      assert vs[1..] == DecodeElems(et, n - 1, t, depth).value;
    }
  }

  /** On every input whatever, a count the guard turns away is a count the elements would not have met. */
  lemma {:induction false} GuardRejectsOnlyTheHopeless(et: byte, n: nat, s: bytes, depth: nat)
    requires DecodeElems(et, n, s, depth).Ok?
    ensures 4 * n <= |s|
    decreases n
  {
    if n > 0 {
      GuardRejectsOnlyTheHopeless(et, n - 1, DecodeElem(et, s, depth).rest, depth);
    }
  }
}
