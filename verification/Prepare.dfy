/** Column metadata of PREPARE and GET_SCHEMA_INFO responses (cubrid/stmt.go, cubrid/schema.go). */
module Prepare {
  import opened Bytes
  import opened Wire
  import opened Arguments
  import opened Codec

  const FLAG_BYTES := 7

  /** The bytes each of the two count guards demands for n columns. */
  function Needed(full: bool, n: int): (b: int) { if full then 28 * n else 11 * n }

  datatype ColType = ColType(charset: int, kind: int, code: byte)

  /** The short form: type, scale, precision, name. */
  datatype Head = Head(typ: ColType, scale: int16, precision: int32, name: bytes)

  /** What only the PREPARE form adds. */
  datatype Tail = Tail(attr: bytes, table: bytes, nullable: bool, default: bytes,
                       autoIncrement: bool, unique: bool, primary: bool, foreign: bool)

  datatype Column = Column(head: Head, tail: Tail)

  const NO_TAIL := Tail([], [], false, [], false, false, false, false)

  /** The type a value of the column is decoded by. */
  function DecodeType(c: Column): (t: byte)
  {
    match c.head.typ.kind
    case 1 => TYPE_SET
    case 2 => TYPE_MULTISET
    case 3 => TYPE_SEQUENCE
    case _ => c.head.typ.code
  }

  // ---------- Reading ----------

  /** One byte, or two when the top bit is set. */
  function ReadType(s: bytes): (p: Parsed<ColType>)
    ensures p.Got? ==> |s| >= |p.rest| + 1
  {
    match ReadByte(s)
    case Fail(e) => Fail(e)
    case Got(b, t) =>
      if b < 0x80 then Got(ColType(0, b / 0x20, b % 0x20), t)
      else
        match ReadByte(t)
        case Fail(e) => Fail(e)
        case Got(code, u) => Got(ColType(b % 8, (b / 0x20) % 4, code), u)
  }

  function ReadHead(s: bytes): (p: Parsed<Head>)
    ensures p.Got? ==> |s| >= |p.rest| + 11
  {
    match ReadType(s)
    case Fail(e) => Fail(e)
    case Got(typ, t) =>
      match ReadI16(t)
      case Fail(e) => Fail(e)
      case Got(scale, u) =>
        match ReadI32(u)
        case Fail(e) => Fail(e)
        case Got(precision, v) =>
          match ReadString(v)
          case Fail(e) => Fail(e)
          case Got(name, w) => Got(Head(typ, scale, precision, name), w)
  }

  function ReadTail(s: bytes): (p: Parsed<Tail>)
    ensures p.Got? ==> |s| >= |p.rest| + 20
  {
    match ReadString(s)
    case Fail(e) => Fail(e)
    case Got(attr, t) =>
      match ReadString(t)
      case Fail(e) => Fail(e)
      case Got(table, u) =>
        match ReadByte(u)
        case Fail(e) => Fail(e)
        case Got(nb, v) =>
          match ReadString(v)
          case Fail(e) => Fail(e)
          case Got(default, w) =>
            match ReadBytes(w, FLAG_BYTES)
            case Fail(e) => Fail(e)
            case Got(f, x) => Got(TailOf(attr, table, nb, default, f), x)
  }

  function TailOf(attr: bytes, table: bytes, nb: byte, default: bytes, f: bytes): (t: Tail)
    requires |f| == FLAG_BYTES
  {
    Tail(attr, table, nb == 0, default, f[0] == 1, f[1] == 1, f[2] == 1, f[5] == 1)
  }

  function ReadColumn(full: bool, s: bytes): (p: Parsed<Column>)
    ensures p.Got? ==> |s| >= |p.rest| + Needed(full, 1)
  {
    match ReadHead(s)
    case Fail(e) => Fail(e)
    case Got(h, t) =>
      if !full then Got(Column(h, NO_TAIL), t)
      else
        match ReadTail(t)
        case Fail(e) => Fail(e)
        case Got(l, u) => Got(Column(h, l), u)
  }

  function Reading(full: bool): (read: bytes -> Parsed<Column>) { s => ReadColumn(full, s) }

  /** The guarded column list. */
  function GuardedColumns(full: bool, s: bytes): (p: Parsed<seq<Column>>)
  {
    match ReadI32(s)
    case Fail(e) => Fail(e)
    case Got(n, t) =>
      if n < 0 || Needed(full, n) > |t| then Fail(BadCount(n)) else Many(Reading(full), n, t)
  }

  /** On every input whatever, a count the guard turns away is a count the columns would not have met. */
  lemma {:induction false} GuardRejectsOnlyTheHopeless(full: bool, n: nat, s: bytes)
    ensures Many(Reading(full), n, s).Got? ==> Needed(full, n) <= |s|
  {
    if Many(Reading(full), n, s).Got? {
      ManyCosts(Reading(full), full, n, s);
    }
  }

  lemma {:induction false} ManyCosts<T>(read: bytes -> Parsed<T>, full: bool, n: nat, s: bytes)
    requires forall t :: read(t).Got? ==> |t| >= |read(t).rest| + Needed(full, 1)
    requires Many(read, n, s).Got?
    ensures Needed(full, n) <= |s|
  {
    if n > 0 {
      ManyCosts(read, full, n - 1, read(s).rest);
    }
  }

  /** The columns reserved before the first is read: the count, if the guard lets it through. */
  function ReservedColumns(full: bool, s: bytes): (n: nat)
    ensures Needed(full, n) <= |s|
  {
    match ReadI32(s)
    case Fail(_) => 0
    case Got(n, t) => if n < 0 || Needed(full, n) > |t| then 0 else n
  }

  datatype Prepared = Prepared(handle: int32, cmdType: byte, params: nat, cols: seq<Column>)

  datatype PreparedHead = PreparedHead(handle: int32, cmdType: byte, params: nat)

  /** The fields of a PREPARE response before its columns, for a statement of sqlLen bytes. */
  function ReadPreparedHead(sqlLen: nat, p: bytes): (r: Parsed<PreparedHead>)
    ensures r.Got? ==> r.value.params <= sqlLen && |r.rest| <= |p|
  {
    match ReadStatus(p)
    case Fail(e) => Fail(e)
    case Got(handle, s) =>
      match ReadBytes(s, 4)
      case Fail(e) => Fail(e)
      case Got(_, t) =>
        match ReadByte(t)
        case Fail(e) => Fail(e)
        case Got(cmd, u) =>
          match ReadI32(u)
          case Fail(e) => Fail(e)
          case Got(pc, v) =>
            if pc < 0 || pc > sqlLen then Fail(BadCount(pc))
            else
              match ReadByte(v)
              case Fail(e) => Fail(e)
              case Got(_, w) => Got(PreparedHead(handle, cmd, pc), w)
  }

  /** prepare's parse of its response. */
  function ParsePrepare(sqlLen: nat, p: bytes): (r: Result<Prepared>)
  {
    match ReadPreparedHead(sqlLen, p)
    case Fail(e) => Err(e)
    case Got(h, s) =>
      match GuardedColumns(true, s)
      case Fail(e) => Err(e)
      case Got(cols, _) => Ok(Prepared(h.handle, h.cmdType, h.params, cols))
  }

  /** On every response whatever, what prepare reserves is paid for by the payload. */
  function ReservedByPrepare(sqlLen: nat, p: bytes): (n: nat)
    ensures 28 * n <= |p|
  {
    var h := ReadPreparedHead(sqlLen, p);
    if h.Fail? then 0 else ReservedColumns(true, h.rest)
  }

  // ---------- The reading loops ----------

  method RunReadType(rd: Reader) returns (r: Result<ColType>)
    requires rd.Valid()
    modifies rd
    ensures rd.Valid() && Agrees(ReadType(old(rd.Rest())), r, rd.Rest())
  {
    var b := rd.Byte();
    if b.Err? {
      return Err(b.error);
    }
    if b.value >= 0x80 {
      var code := rd.Byte();
      if code.Err? {
        return Err(code.error);
      }
      return Ok(ColType(b.value % 8, (b.value / 0x20) % 4, code.value));
    }
    r := Ok(ColType(0, b.value / 0x20, b.value % 0x20));
  }

  /** readSchemaColumn, and the first half of readColumn. */
  method RunReadHead(rd: Reader) returns (r: Result<Head>)
    requires rd.Valid()
    modifies rd
    ensures rd.Valid() && Agrees(ReadHead(old(rd.Rest())), r, rd.Rest())
  {
    var typ := RunReadType(rd);
    if typ.Err? {
      return Err(typ.error);
    }
    var scale := rd.Int16();
    if scale.Err? {
      return Err(scale.error);
    }
    var precision := rd.Int32();
    if precision.Err? {
      return Err(precision.error);
    }
    var name := rd.String();
    if name.Err? {
      return Err(name.error);
    }
    r := Ok(Head(typ.value, scale.value, precision.value, name.value));
  }

  /** The seven flag bytes, one at a time. */
  method RunReadFlags(rd: Reader) returns (r: Result<bytes>)
    requires rd.Valid()
    modifies rd
    ensures rd.Valid() && Agrees(ReadBytes(old(rd.Rest()), FLAG_BYTES), r, rd.Rest())
  {
    ghost var s := rd.Rest();
    var flags: bytes := [];
    for i := 0 to FLAG_BYTES
      invariant rd.Valid() && |flags| == i <= |s| && flags == s[..i] && rd.Rest() == s[i..]
    {
      var b := rd.Byte();
      if b.Err? {
        return Err(b.error);
      }
      flags := flags + [b.value];
    }
    r := Ok(flags);
  }

  method RunReadTail(rd: Reader) returns (r: Result<Tail>)
    requires rd.Valid()
    modifies rd
    ensures rd.Valid() && Agrees(ReadTail(old(rd.Rest())), r, rd.Rest())
  {
    var attr := rd.String();
    if attr.Err? {
      return Err(attr.error);
    }
    var table := rd.String();
    if table.Err? {
      return Err(table.error);
    }
    var nb := rd.Byte();
    if nb.Err? {
      return Err(nb.error);
    }
    var default := rd.String();
    if default.Err? {
      return Err(default.error);
    }
    var f := RunReadFlags(rd);
    if f.Err? {
      return Err(f.error);
    }
    r := Ok(TailOf(attr.value, table.value, nb.value, default.value, f.value));
  }

  method RunReadColumn(rd: Reader, full: bool) returns (r: Result<Column>)
    requires rd.Valid()
    modifies rd
    ensures rd.Valid() && Agrees(Reading(full)(old(rd.Rest())), r, rd.Rest())
  {
    var h := RunReadHead(rd);
    if h.Err? {
      return Err(h.error);
    }
    if !full {
      return Ok(Column(h.value, NO_TAIL));
    }
    var l := RunReadTail(rd);
    if l.Err? {
      return Err(l.error);
    }
    r := Ok(Column(h.value, l.value));
  }

  /** The guarded column loop; `slots` is the capacity reserved before the first column is read. */
  method RunReadColumns(rd: Reader, full: bool) returns (r: Result<seq<Column>>, slots: nat)
    requires rd.Valid()
    modifies rd
    ensures rd.Valid() && Agrees(GuardedColumns(full, old(rd.Rest())), r, rd.Rest())
    ensures slots == ReservedColumns(full, old(rd.Rest()))
    ensures r.Ok? ==> slots == |r.value|
  {
    slots := 0;
    var n := rd.Int32();
    if n.Err? {
      return Err(n.error), 0;
    }
    if n.value < 0 || Needed(full, n.value) > |rd.buf| - rd.off {
      return Err(BadCount(n.value)), 0;
    }
    slots := n.value;
    r := RunMany(rd, full, n.value);
  }

  method RunMany(rd: Reader, full: bool, n: nat) returns (r: Result<seq<Column>>)
    requires rd.Valid()
    modifies rd
    ensures rd.Valid() && Agrees(Many(Reading(full), n, old(rd.Rest())), r, rd.Rest())
    ensures r.Ok? ==> |r.value| == n
  {
    ghost var s := rd.Rest();
    var cols: seq<Column>, i := [], 0;
    ManyStart(Reading(full), n, s);
    while i < n
      invariant 0 <= i <= n && rd.Valid() && ManyLoop(Reading(full), n, s, i, cols, rd.Rest())
    {
      ManyStep(Reading(full), n, s, i, cols, rd.Rest());
      var c := RunReadColumn(rd, full);
      if c.Err? {
        return Err(c.error);
      }
      cols, i := cols + [c.value], i + 1;
    }
    ManyEnd(Reading(full), n, s, cols, rd.Rest());
    r := Ok(cols);
  }

  method RunReadPreparedHead(rd: Reader, sqlLen: nat) returns (r: Result<PreparedHead>)
    requires rd.Valid()
    modifies rd
    ensures rd.Valid() && Agrees(ReadPreparedHead(sqlLen, old(rd.Rest())), r, rd.Rest())
  {
    var handle := rd.Status();
    if handle.Err? {
      return Err(handle.error);
    }
    var life := rd.Take(4);
    if life.Err? {
      return Err(life.error);
    }
    var cmd := rd.Byte();
    if cmd.Err? {
      return Err(cmd.error);
    }
    var pc := rd.Int32();
    if pc.Err? {
      return Err(pc.error);
    }
    if pc.value < 0 || pc.value > sqlLen {
      return Err(BadCount(pc.value));
    }
    var updatable := rd.Byte();
    if updatable.Err? {
      return Err(updatable.error);
    }
    r := Ok(PreparedHead(handle.value, cmd.value, pc.value));
  }

  /** prepare after its round trip. */
  method RunPrepare(sqlLen: nat, p: bytes) returns (r: Result<Prepared>, slots: nat)
    ensures r == ParsePrepare(sqlLen, p) && slots == ReservedByPrepare(sqlLen, p)
    ensures r.Ok? ==> r.value.params <= sqlLen && slots == |r.value.cols|
  {
    var rd := new Reader(p);
    var h := RunReadPreparedHead(rd, sqlLen);
    if h.Err? {
      return Err(h.error), 0;
    }
    var cols;
    cols, slots := RunReadColumns(rd, true);
    if cols.Err? {
      return Err(cols.error), slots;
    }
    r := Ok(Prepared(h.value.handle, h.value.cmdType, h.value.params, cols.value));
  }

  // ---------- What a server prints ----------

  /** A string field: absent (any length <= 0), or NUL-terminated. */
  datatype Text = NoText(len: int32) | Text(chars: bytes)

  predicate TextOk(t: Text) { if t.NoText? then t.len <= 0 else |t.chars| + 1 < TWO_31 }

  function TextOf(t: Text): (b: bytes) { if t.NoText? then [] else t.chars }

  function PrintText(t: Text): (b: bytes)
    requires TextOk(t)
    ensures |b| >= 4
  {
    if t.NoText? then Put32(t.len) else Put32(|t.chars| + 1) + (t.chars + [0])
  }

  /** The old one-byte type field, or the extended one. */
  datatype WireType = Legacy(kind: int, code: byte) | Extended(charset: int, spare: int, kind: int, code: byte)

  predicate TypeOk(t: WireType)
  {
    0 <= t.kind < 4 && if t.Legacy? then t.code < 0x20 else 0 <= t.charset < 8 && 0 <= t.spare < 4
  }

  function PrintType(t: WireType): (b: bytes)
    requires TypeOk(t)
    ensures |b| >= 1
  {
    if t.Legacy? then [t.kind * 0x20 + t.code]
    else [0x80 + t.kind * 0x20 + t.spare * 8 + t.charset, t.code]
  }

  datatype WireColumn = WireColumn(typ: WireType, scale: int16, precision: int32, name: Text, attr: Text, table: Text,
                                   nullByte: byte, default: Text, flags: bytes)

  predicate ColumnOk(c: WireColumn)
  {
    && TypeOk(c.typ) && TextOk(c.name) && TextOk(c.attr) && TextOk(c.table) && TextOk(c.default)
    && |c.flags| == FLAG_BYTES
  }

  function PrintHead(c: WireColumn): (b: bytes)
    requires ColumnOk(c)
  {
    PrintType(c.typ) + (Put16(c.scale) + (Put32(c.precision) + PrintText(c.name)))
  }

  function PrintTail(c: WireColumn): (b: bytes)
    requires ColumnOk(c)
  {
    PrintText(c.attr) + (PrintText(c.table) + ([c.nullByte] + (PrintText(c.default) + c.flags)))
  }

  function PrintColumn(full: bool, c: WireColumn): (b: bytes)
    requires ColumnOk(c)
  {
    if full then PrintHead(c) + PrintTail(c) else PrintHead(c)
  }

  function PrintColumns(full: bool, cs: seq<WireColumn>): (b: bytes)
    requires forall i :: 0 <= i < |cs| ==> ColumnOk(cs[i])
  {
    if cs == [] then [] else PrintColumn(full, cs[0]) + PrintColumns(full, cs[1..])
  }

  /** The Go column a wire column stands for. */
  function Denoted(full: bool, c: WireColumn): (d: Column)
    requires ColumnOk(c)
  {
    Column(Head(ColType(if c.typ.Legacy? then 0 else c.typ.charset, c.typ.kind, c.typ.code),
                c.scale, c.precision, TextOf(c.name)),
           if full then Tail(TextOf(c.attr), TextOf(c.table), c.nullByte == 0, TextOf(c.default),
                             c.flags[0] == 1, c.flags[1] == 1, c.flags[2] == 1, c.flags[5] == 1)
           else NO_TAIL)
  }

  lemma TextRoundTrip(t: Text, rest: bytes)
    requires TextOk(t)
    ensures ReadString(PrintText(t) + rest) == Got(TextOf(t), rest)
  {
    if t.NoText? {
      ReadI32Put(t.len, rest);
    } else {
      ReadStringPut(t.chars, rest);
    }
  }

  lemma LegacyByte(kind: int, code: int)
    requires 0 <= kind < 4 && 0 <= code < 0x20
    ensures var b := kind * 0x20 + code;
            0 <= b < 0x80 && b / 0x20 == kind && b % 0x20 == code
  {
  }

  lemma ExtendedByte(kind: int, spare: int, charset: int)
    requires 0 <= kind < 4 && 0 <= spare < 4 && 0 <= charset < 8
    ensures var b := 0x80 + kind * 0x20 + spare * 8 + charset;
            0x80 <= b < 0x100 && (b / 0x20) % 4 == kind && b % 8 == charset
  {
    var b := 0x80 + kind * 0x20 + spare * 8 + charset;
    assert b == 0x20 * (4 + kind) + (spare * 8 + charset);
    assert b / 0x20 == 4 + kind;
    assert b == 8 * (16 + 4 * kind + spare) + charset;
  }

  lemma TypeRoundTrip(t: WireType, rest: bytes)
    requires TypeOk(t)
    ensures ReadType(PrintType(t) + rest) ==
            Got(ColType(if t.Legacy? then 0 else t.charset, t.kind, t.code), rest)
  {
    match t
    case Legacy(kind, code) =>
      LegacyByte(kind, code);
      ReadBytePut(kind * 0x20 + code, rest);
    case Extended(charset, spare, kind, code) =>
      ExtendedByte(kind, spare, charset);
      TwoBytes(0x80 + kind * 0x20 + spare * 8 + charset, code, rest);
  }

  /** An extended type field, its first byte given. */
  lemma TwoBytes(b: byte, code: byte, rest: bytes)
    requires b >= 0x80
    ensures ReadType([b, code] + rest) == Got(ColType(b % 8, (b / 0x20) % 4, code), rest)
  {
    assert [b, code] + rest == [b] + ([code] + rest);
    ReadBytePut(b, [code] + rest);
    ReadBytePut(code, rest);
  }

  lemma HeadRoundTrip(c: WireColumn, rest: bytes)
    requires ColumnOk(c)
    ensures ReadHead(PrintHead(c) + rest) == Got(Denoted(true, c).head, rest)
  {
    var n, p, s := PrintText(c.name), Put32(c.precision), Put16(c.scale);
    Assoc(PrintType(c.typ), s + (p + n), rest);
    Assoc(s, p + n, rest);
    Assoc(p, n, rest);
    TypeRoundTrip(c.typ, s + (p + (n + rest)));
    ReadI16Put(c.scale, p + (n + rest));
    ReadI32Put(c.precision, n + rest);
    TextRoundTrip(c.name, rest);
  }

  lemma TailRoundTrip(c: WireColumn, rest: bytes)
    requires ColumnOk(c)
    ensures ReadTail(PrintTail(c) + rest) == Got(Denoted(true, c).tail, rest)
  {
    var a, t, d, f, nb := PrintText(c.attr), PrintText(c.table), PrintText(c.default), c.flags, [c.nullByte];
    Assoc(a, t + (nb + (d + f)), rest);
    Assoc(t, nb + (d + f), rest);
    Assoc(nb, d + f, rest);
    Assoc(d, f, rest);
    TextRoundTrip(c.attr, t + (nb + (d + (f + rest))));
    TextRoundTrip(c.table, nb + (d + (f + rest)));
    ReadBytePut(c.nullByte, d + (f + rest));
    TextRoundTrip(c.default, f + rest);
    ReadBytesPut(f, rest);
  }

  lemma ColumnRoundTrip(full: bool, c: WireColumn, rest: bytes)
    requires ColumnOk(c)
    ensures ReadColumn(full, PrintColumn(full, c) + rest) == Got(Denoted(full, c), rest)
  {
    if full {
      Assoc(PrintHead(c), PrintTail(c), rest);
      HeadRoundTrip(c, PrintTail(c) + rest);
      TailRoundTrip(c, rest);
    } else {
      HeadRoundTrip(c, rest);
    }
  }

  function DenotedAll(full: bool, cs: seq<WireColumn>): (ds: seq<Column>)
    requires forall i :: 0 <= i < |cs| ==> ColumnOk(cs[i])
    ensures |ds| == |cs|
    ensures forall i :: 0 <= i < |cs| ==> ds[i] == Denoted(full, cs[i])
  {
    if cs == [] then [] else [Denoted(full, cs[0])] + DenotedAll(full, cs[1..])
  }

  lemma {:induction false} ColumnsRoundTrip(full: bool, cs: seq<WireColumn>, rest: bytes)
    requires forall i :: 0 <= i < |cs| ==> ColumnOk(cs[i])
    ensures Many(Reading(full), |cs|, PrintColumns(full, cs) + rest) == Got(DenotedAll(full, cs), rest)
  {
    if cs == [] {
      assert PrintColumns(full, cs) + rest == rest;
    } else {
      var more := PrintColumns(full, cs[1..]);
      Assoc(PrintColumn(full, cs[0]), more, rest);
      ColumnRoundTrip(full, cs[0], more + rest);
      ColumnsRoundTrip(full, cs[1..], rest);
    }
  }

  /** The guards let every well-formed column list through, and it reads back as the columns it denotes. */
  lemma ColumnListRoundTrip(full: bool, cs: seq<WireColumn>, rest: bytes)
    requires |cs| < TWO_31 && forall i :: 0 <= i < |cs| ==> ColumnOk(cs[i])
    ensures GuardedColumns(full, Put32(|cs|) + (PrintColumns(full, cs) + rest)) == Got(DenotedAll(full, cs), rest)
  {
    var s := PrintColumns(full, cs) + rest;
    ReadI32Put(|cs|, s);
    ColumnsRoundTrip(full, cs, rest);
    GuardRejectsOnlyTheHopeless(full, |cs|, s);
  }

  /** A whole PREPARE response. */
  function PrintPrepare(handle: int32, life: bytes, cmd: byte, params: int32, updatable: byte, cs: seq<WireColumn>,
                        rest: bytes): (b: bytes)
    requires |cs| < TWO_31 && forall i :: 0 <= i < |cs| ==> ColumnOk(cs[i])
  {
    var cols := Put32(|cs|) + (PrintColumns(true, cs) + rest);
    Put32(handle) + (life + ([cmd] + (Put32(params) + ([updatable] + cols))))
  }

  lemma PrepareRoundTrip(sqlLen: nat, handle: int32, life: bytes, cmd: byte, params: int32, updatable: byte,
                         cs: seq<WireColumn>, rest: bytes)
    requires handle >= 0 && |life| == 4 && 0 <= params
    requires |cs| < TWO_31 && forall i :: 0 <= i < |cs| ==> ColumnOk(cs[i])
    ensures ParsePrepare(sqlLen, PrintPrepare(handle, life, cmd, params, updatable, cs, rest)) ==
            if params <= sqlLen then Ok(Prepared(handle, cmd, params, DenotedAll(true, cs))) else Err(BadCount(params))
  {
    ColumnListRoundTrip(true, cs, rest);
    PrepareByParts(sqlLen, handle, life, cmd, params, updatable, Put32(|cs|) + (PrintColumns(true, cs) + rest),
                   DenotedAll(true, cs), rest);
  }

  lemma PrepareByParts(sqlLen: nat, handle: int32, life: bytes, cmd: byte, params: int32, updatable: byte,
                       cols: bytes, ds: seq<Column>, rest: bytes)
    requires handle >= 0 && |life| == 4 && 0 <= params && GuardedColumns(true, cols) == Got(ds, rest)
    ensures ParsePrepare(sqlLen, Put32(handle) + (life + ([cmd] + (Put32(params) + ([updatable] + cols))))) ==
            if params <= sqlLen then Ok(Prepared(handle, cmd, params, ds)) else Err(BadCount(params))
  {
    PrepareHead(sqlLen, handle, life, cmd, params, updatable, cols);
  }

  lemma PrepareHead(sqlLen: nat, handle: int32, life: bytes, cmd: byte, params: int32, updatable: byte, cols: bytes)
    requires handle >= 0 && |life| == 4 && 0 <= params
    ensures ReadPreparedHead(sqlLen, Put32(handle) + (life + ([cmd] + (Put32(params) + ([updatable] + cols))))) ==
            if params > sqlLen then Fail(BadCount(params)) else Got(PreparedHead(handle, cmd, params), cols)
  {
    var u := [updatable] + cols;
    var t := Put32(params) + u;
    var s := [cmd] + t;
    ReadI32Put(handle, life + s);
    ReadBytesPut(life, s);
    ReadBytePut(cmd, t);
    ReadI32Put(params, u);
    ReadBytePut(updatable, cols);
  }

  /** The type number a printed column's values are sent in: its collection kind, or its own code. */
  function Declared(c: WireColumn): (t: byte)
  {
    if c.typ.kind == 1 then 16 else if c.typ.kind == 2 then 17 else if c.typ.kind == 3 then 18 else c.typ.code
  }

  lemma DecodedAsDeclared(full: bool, c: WireColumn)
    requires ColumnOk(c)
    ensures DecodeType(Denoted(full, c)) == Declared(c)
  {
  }

  // ---------- GET_SCHEMA_INFO ----------

  datatype SchemaAnswer = SchemaAnswer(handle: int32, total: int32, cols: seq<Column>)

  function ReadSchemaHead(p: bytes): (r: Parsed<(int32, int32)>)
    ensures r.Got? ==> |r.rest| <= |p|
  {
    match ReadStatus(p)
    case Fail(e) => Fail(e)
    case Got(handle, s) =>
      match ReadI32(s)
      case Fail(e) => Fail(e)
      case Got(total, t) => Got((handle, total), t)
  }

  function ParseSchema(p: bytes): (r: Result<SchemaAnswer>)
  {
    match ReadSchemaHead(p)
    case Fail(e) => Err(e)
    case Got(h, s) =>
      match GuardedColumns(false, s)
      case Fail(e) => Err(e)
      case Got(cols, _) => Ok(SchemaAnswer(h.0, h.1, cols))
  }

  /** On every response whatever, what SchemaInfo reserves is paid for by the payload. */
  function ReservedBySchema(p: bytes): (n: nat)
    ensures 11 * n <= |p|
  {
    var h := ReadSchemaHead(p);
    if h.Fail? then 0 else ReservedColumns(false, h.rest)
  }

  /** SchemaInfo after its round trip. */
  method RunSchema(p: bytes) returns (r: Result<SchemaAnswer>, slots: nat)
    ensures r == ParseSchema(p) && slots == ReservedBySchema(p)
    ensures r.Ok? ==> slots == |r.value.cols|
  {
    var rd := new Reader(p);
    var handle := rd.Status();
    if handle.Err? {
      return Err(handle.error), 0;
    }
    var total := rd.Int32();
    if total.Err? {
      return Err(total.error), 0;
    }
    var cols;
    cols, slots := RunReadColumns(rd, false);
    if cols.Err? {
      return Err(cols.error), slots;
    }
    r := Ok(SchemaAnswer(handle.value, total.value, cols.value));
  }

  /** A whole GET_SCHEMA_INFO response. */
  lemma SchemaRoundTrip(handle: int32, total: int32, cs: seq<WireColumn>, rest: bytes)
    requires handle >= 0 && |cs| < TWO_31 && forall i :: 0 <= i < |cs| ==> ColumnOk(cs[i])
    ensures ParseSchema(Put32(handle) + (Put32(total) + (Put32(|cs|) + (PrintColumns(false, cs) + rest)))) ==
            Ok(SchemaAnswer(handle, total, DenotedAll(false, cs)))
  {
    ColumnListRoundTrip(false, cs, rest);
    SchemaByParts(handle, total, Put32(|cs|) + (PrintColumns(false, cs) + rest));
  }

  lemma SchemaByParts(handle: int32, total: int32, cols: bytes)
    requires handle >= 0 && GuardedColumns(false, cols).Got?
    ensures ParseSchema(Put32(handle) + (Put32(total) + cols)) ==
            Ok(SchemaAnswer(handle, total, GuardedColumns(false, cols).value))
  {
    SchemaHead(handle, total, cols);
  }

  lemma SchemaHead(handle: int32, total: int32, cols: bytes)
    requires handle >= 0
    ensures ReadSchemaHead(Put32(handle) + (Put32(total) + cols)) == Got((handle, total), cols)
  {
    ReadI32Put(handle, Put32(total) + cols);
    ReadI32Put(total, cols);
  }
}
