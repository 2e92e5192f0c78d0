/**
 The EXECUTE_BATCH_PREPAREDSTATEMENT payload: every row's binds back to back, with no row count
 and no separators. A reader that knows only the parameter count recovers every row.
 */
module BatchRequest {
  import opened Bytes
  import opened Wire
  import opened Codec
  import opened Layout
  import opened Bind
  import opened Agreement

  // ---------- What is written ----------

  function PairsBytes(ps: seq<Pair>): (b: bytes)
  {
    if ps == [] then [] else PairBytes(ps[0]) + PairsBytes(ps[1..])
  }

  /** Encoding stops at the first refused bind. */
  function EncodeAll(vs: seq<Param>): (r: Encoded<seq<Pair>>)
    ensures r.Done? ==> |r.value| == |vs|
    ensures r.Done? ==> forall i :: 0 <= i < |vs| ==> Encode(vs[i]) == Done(r.value[i])
  {
    if vs == [] then Done([])
    else
      match Encode(vs[0])
      case Refused(e) => Refused(e)
      case Done(p) =>
        match EncodeAll(vs[1..])
        case Refused(e) => Refused(e)
        case Done(ps) => Done([p] + ps)
  }

  function Flatten<T>(rows: seq<seq<T>>): (ps: seq<T>)
  {
    if rows == [] then [] else rows[0] + Flatten(rows[1..])
  }

  /** Every length the encoder stores fits its 32-bit field. */
  predicate Sized(v: Param)
  {
    && (Encode(v).Done? ==> |Encode(v).value.body| < TWO_32)
    && (v.PList? ==> forall i :: 0 <= i < |v.items| && Scalar(v.items[i]) ==> |Body(v.items[i])| < TWO_32)
  }

  // ---------- The peer's reading ----------

  function ReadPairs(s: bytes): (r: Option<seq<Pair>>)
    decreases |s|
  {
    if s == [] then Some([])
    else
      match ReadArg(s)
      case Fail(_) => None
      case Got(tb, t) =>
        if |tb| != 1 then None
        else
          match ReadArg(t)
          case Fail(_) => None
          case Got(body, u) =>
            match ReadPairs(u)
            case None => None
            case Some(ps) => Some([Pair(tb[0], body)] + ps)
  }

  /** Consecutive groups of k; a remainder shorter than k is not a row. */
  function Chunk<T>(k: nat, ps: seq<T>): (rows: seq<seq<T>>)
    requires k >= 1
    decreases |ps|
  {
    if |ps| < k then [] else [ps[..k]] + Chunk(k, ps[k..])
  }

  function RestoreScalar(typ: byte, body: bytes): (v: Param)
  {
    if typ == TYPE_NULL then PNil
    else if typ == TYPE_SHORT && |body| == 2 then PInt16(Get16(body))
    else if typ == TYPE_INT && |body| == 4 then PInt32(Get32(body))
    else if typ == TYPE_BIGINT && |body| == 8 then PInt64(Get64(body))
    else if typ == TYPE_FLOAT && |body| == 4 then PFloat32(U32(body))
    else if typ == TYPE_DOUBLE && |body| == 8 then PFloat64(U64(body))
    else if typ == TYPE_VARCHAR && |body| >= 1 then PString(body[..|body| - 1])
    else if typ == TYPE_VARBIT then PBytes(body)
    else if typ == TYPE_DATETIME && |body| == 14 then PTime(DecodeClock(TYPE_DATETIME, body).value)
    else POther
  }

  function RestoreElems(et: byte, s: bytes): (vs: seq<Param>)
    decreases |s|
  {
    match ReadArg(s)
    case Fail(_) => []
    case Got(b, t) => [if b == [] then PNil else RestoreScalar(et, b)] + RestoreElems(et, t)
  }

  function Restore(p: Pair): (v: Param)
  {
    if p.typ == TYPE_BLOB || p.typ == TYPE_CLOB then PLob(p.body, p.typ == TYPE_CLOB)
    else if p.typ == TYPE_SEQUENCE && |p.body| >= 1 then PList(RestoreElems(p.body[0], p.body[1..]))
    else RestoreScalar(p.typ, p.body)
  }

  function RestoreAll(ps: seq<Pair>): (vs: seq<Param>)
    ensures |vs| == |ps|
  {
    seq(|ps|, i requires 0 <= i < |ps| => Restore(ps[i]))
  }

  /** All rows of a batch body, given the statement's parameter count. */
  function ReadBatch(k: nat, s: bytes): (r: Option<seq<seq<Param>>>)
    requires k >= 1
  {
    match ReadPairs(s)
    case None => None
    case Some(ps) => Some(Chunk(k, RestoreAll(ps)))
  }

  // ---------- What a bind means on the wire ----------

  /** The documented merges: bool/int16, int/int64, Numeric/string, nil/nil *Lob; time as stored. */
  function NormalScalar(v: Param): (n: Param)
    requires Scalar(v)
  {
    match v
    case PBool(b) => PInt16(if b then 1 else 0)
    case PInt(i) => PInt64(i)
    case PTime(c) => PTime(StoredClock(c))
    case _ => v
  }

  /** Inside a collection an empty byte string is a zero size, which is NULL. */
  function NormalElem(v: Param): (n: Param)
  {
    if !Scalar(v) then POther else if Body(v) == [] then PNil else NormalScalar(v)
  }

  function NormalElems(vs: seq<Param>): (ns: seq<Param>)
    ensures |ns| == |vs|
  {
    seq(|vs|, i requires 0 <= i < |vs| => NormalElem(vs[i]))
  }

  function Normal(v: Param): (n: Param)
  {
    match v
    case PNilLob => PNil
    case PLob(_, _) => v
    case PNumeric(d) => PString(d)
    case PList(vs) => PList(NormalElems(vs))
    case _ => if Scalar(v) then NormalScalar(v) else POther
  }

  function NormalRow(vs: seq<Param>): (ns: seq<Param>)
    ensures |ns| == |vs|
  {
    seq(|vs|, i requires 0 <= i < |vs| => Normal(vs[i]))
  }

  function NormalRows(rows: seq<seq<Param>>): (ns: seq<seq<Param>>)
    ensures |ns| == |rows|
  {
    seq(|rows|, i requires 0 <= i < |rows| => NormalRow(rows[i]))
  }

  // ---------- The reading recovers what was written ----------

  lemma {:induction false} PairsRoundTrip(ps: seq<Pair>)
    requires forall i :: 0 <= i < |ps| ==> |ps[i].body| < TWO_32
    ensures ReadPairs(PairsBytes(ps)) == Some(ps)
  {
    if ps != [] {
      var p, rest := ps[0], PairsBytes(ps[1..]);
      Assoc(Arg([p.typ]), Arg(p.body), rest);
      ReadArgPut([p.typ], Arg(p.body) + rest);
      ReadArgPut(p.body, rest);
      PairsRoundTrip(ps[1..]);
      assert PairsBytes(ps) == Arg([p.typ]) + (Arg(p.body) + rest);
      assert [p] + ps[1..] == ps;
    }
  }

  lemma {:induction false} ChunkFlatten<T>(k: nat, rows: seq<seq<T>>)
    requires k >= 1 && forall i :: 0 <= i < |rows| ==> |rows[i]| == k
    ensures Chunk(k, Flatten(rows)) == rows
  {
    if rows != [] {
      var ps := Flatten(rows);
      assert ps[..k] == rows[0] && ps[k..] == Flatten(rows[1..]);
      ChunkFlatten(k, rows[1..]);
    }
  }

  lemma RestoredScalar(v: Param)
    requires Scalar(v)
    ensures RestoreScalar(WireType(v).value, Body(v)) == NormalScalar(v)
  {
    match v
    case PTime(c) => ClockAgrees(c);
    case _ =>
  }

  lemma RestoredElem(et: byte, v: Param, rest: bytes)
    requires Scalar(v) && |Body(v)| < TWO_32 && (!v.PNil? ==> WireType(v) == Some(et))
    ensures RestoreElems(et, Arg(Body(v)) + rest) == [NormalElem(v)] + RestoreElems(et, rest)
  {
    ReadArgPut(Body(v), rest);
    RestoredScalar(v);
  }

  lemma {:induction false} RestoredElems(et: byte, vs: seq<Param>)
    requires forall i :: 0 <= i < |vs| ==> Scalar(vs[i]) && |Body(vs[i])| < TWO_32
    requires forall i :: 0 <= i < |vs| && !vs[i].PNil? ==> WireType(vs[i]) == Some(et)
    ensures RestoreElems(et, InnerElems(vs)) == NormalElems(vs)
  {
    if vs != [] {
      RestoredElem(et, vs[0], InnerElems(vs[1..]));
      RestoredElems(et, vs[1..]);
      NormalElemsCons(vs);
    }
  }

  lemma NormalElemsCons(vs: seq<Param>)
    requires vs != []
    ensures NormalElems(vs) == [NormalElem(vs[0])] + NormalElems(vs[1..])
  {
  }

  lemma ConsInjective<T>(a: T, x: seq<T>, b: T, y: seq<T>)
    requires [a] + x == [b] + y
    ensures a == b && x == y
  {
    assert a == ([a] + x)[0] && b == ([b] + y)[0];
    assert x == ([a] + x)[1..] && y == ([b] + y)[1..];
  }

  lemma RestoredList(vs: seq<Param>)
    requires Encode(PList(vs)).Done? && Sized(PList(vs))
    ensures Restore(Encode(PList(vs)).value) == PList(NormalElems(vs))
  {
    ScanVets(vs, None);
    var b := CollectionBody(vs).value;
    assert b[1..] == InnerElems(vs);
    RestoredElems(b[0], vs);
  }

  lemma RestoredParam(v: Param)
    requires Encode(v).Done? && Sized(v)
    ensures Restore(Encode(v).value) == Normal(v)
  {
    if v.PList? {
      RestoredList(v.items);
    } else {
      RestoredPlain(v);
    }
  }

  lemma RestoredPlain(v: Param)
    requires Encode(v).Done? && !v.PList?
    ensures Restore(Encode(v).value) == Normal(v)
  {
    if v.PNumeric? {
      RestoredScalar(PString(v.digits));
    } else if Scalar(v) {
      RestoredAsScalar(v);
    }
  }

  lemma RestoredAsScalar(v: Param)
    requires Scalar(v)
    ensures Encode(v).Done? && Restore(Encode(v).value) == Normal(v)
  {
    ScalarType(v);
    RestoredScalar(v);
    assert Encode(v) == Done(Pair(WireType(v).value, Body(v)));
  }

  lemma ScalarType(v: Param)
    requires Scalar(v)
    ensures WireType(v).value !in {TYPE_SEQUENCE, TYPE_BLOB, TYPE_CLOB}
  {
  }

  lemma {:induction false} NormalFlatten(rows: seq<seq<Param>>)
    ensures NormalRow(Flatten(rows)) == Flatten(NormalRows(rows))
  {
    if rows != [] {
      NormalFlatten(rows[1..]);
      assert NormalRows(rows)[1..] == NormalRows(rows[1..]);
      assert NormalRow(Flatten(rows)) == NormalRow(rows[0]) + NormalRow(Flatten(rows[1..]));
    }
  }

  /** The bytes of a batch determine its rows and their number, although no row count is sent. */
  lemma BatchReadable(k: nat, rows: seq<seq<Param>>)
    requires k >= 1 && forall i :: 0 <= i < |rows| ==> |rows[i]| == k
    requires EncodeAll(Flatten(rows)).Done?
    requires forall i :: 0 <= i < |Flatten(rows)| ==> Sized(Flatten(rows)[i])
    ensures ReadBatch(k, PairsBytes(EncodeAll(Flatten(rows)).value)) == Some(NormalRows(rows))
  {
    var vs := Flatten(rows);
    var ps := EncodeAll(vs).value;
    PairsRoundTrip(ps);
    forall i | 0 <= i < |ps|
      ensures Restore(ps[i]) == Normal(vs[i])
    {
      RestoredParam(vs[i]);
    }
    assert RestoreAll(ps) == NormalRow(vs);
    NormalFlatten(rows);
    ChunkFlatten(k, NormalRows(rows));
  }

  // ---------- Exactly the documented merges ----------

  lemma ScalarByNormal(v: Param)
    requires Scalar(v)
    ensures Scalar(NormalScalar(v)) && WireType(NormalScalar(v)) == WireType(v)
    ensures Body(NormalScalar(v)) == Body(v)
  {
    match v
    case PTime(c) => StoredTwice(c);
    case _ =>
  }

  lemma StoredTwice(c: Clock)
    ensures ClockBody(StoredClock(c)) == ClockBody(c)
  {
    assert forall v :: Stored(Stored(v)) == Stored(v);
  }

  lemma {:induction false} ElemsByNormal(vs: seq<Param>, ws: seq<Param>)
    requires forall i :: 0 <= i < |vs| ==> Scalar(vs[i])
    requires forall i :: 0 <= i < |ws| ==> Scalar(ws[i])
    requires NormalElems(vs) == NormalElems(ws)
    ensures InnerElems(vs) == InnerElems(ws)
  {
    assert |vs| == |NormalElems(vs)| == |ws|;
    if vs != [] {
      NormalElemsCons(vs);
      NormalElemsCons(ws);
      ConsInjective(NormalElem(vs[0]), NormalElems(vs[1..]), NormalElem(ws[0]), NormalElems(ws[1..]));
      SameElemBody(vs[0], ws[0]);
      ElemsByNormal(vs[1..], ws[1..]);
    }
  }

  lemma SameElemBody(v: Param, w: Param)
    requires Scalar(v) && Scalar(w) && NormalElem(v) == NormalElem(w)
    ensures Body(v) == Body(w)
    ensures Body(v) != [] ==> WireType(v) == WireType(w)
  {
    ScalarByNormal(v);
    ScalarByNormal(w);
    BodyMeansNotNil(v);
    BodyMeansNotNil(w);
  }

  lemma BodyMeansNotNil(v: Param)
    requires Scalar(v)
    ensures Body(v) != [] ==> !NormalScalar(v).PNil?
  {
  }

  /** The element type is decided by the first element with a body; failing that, only byte strings can be empty. */
  lemma SameElemType(vs: seq<Param>, ws: seq<Param>)
    requires CollectionBody(vs).Done? && CollectionBody(ws).Done?
    requires NormalElems(vs) == NormalElems(ws)
    ensures CollectionBody(vs).value[0] == CollectionBody(ws).value[0]
  {
    ScanVets(vs, None);
    ScanVets(ws, None);
    assert |vs| == |NormalElems(vs)| == |ws|;
    if vs != [] {
      var i := FirstTyped(vs);
      assert NormalElem(vs[i]) == NormalElems(vs)[i] == NormalElem(ws[i]);
      SameElemBody(vs[i], ws[i]);
      if Body(vs[i]) == [] {
        var j := FirstTyped(ws);
        assert NormalElem(vs[j]) == NormalElems(vs)[j] == NormalElem(ws[j]);
        SameElemBody(vs[j], ws[j]);
      }
    }
  }

  /** Some element that is not nil, preferring one with a body. */
  lemma FirstTyped(vs: seq<Param>) returns (i: nat)
    requires CollectionBody(vs).Done? && vs != []
    ensures i < |vs| && Scalar(vs[i]) && !vs[i].PNil? && CollectionBody(vs).value[0] == WireType(vs[i]).value
    ensures Body(vs[i]) == [] ==>
              vs[i].PBytes? && forall j :: 0 <= j < |vs| ==> Scalar(vs[j]) && Body(vs[j]) == []
  {
    ScanVets(vs, None);
    if exists j :: 0 <= j < |vs| && Body(vs[j]) != [] {
      i :| 0 <= i < |vs| && Body(vs[i]) != [];
    } else {
      ScanFindsType(vs);
      i :| 0 <= i < |vs| && !vs[i].PNil?;
    }
  }

  lemma {:induction false} ScanFindsType(vs: seq<Param>)
    requires Scan(vs, None).Done? && Scan(vs, None).value.Some?
    ensures exists i :: 0 <= i < |vs| && !vs[i].PNil?
  {
    if vs[0].PNil? {
      ScanFindsType(vs[1..]);
      var i :| 0 <= i < |vs[1..]| && !vs[1..][i].PNil?;
      assert !vs[i + 1].PNil?;
    }
  }

  /** Two binds are sent as the same bytes exactly when they differ only by the documented merges. */
  lemma SameBytesIffSameMeaning(v: Param, w: Param)
    requires Encode(v).Done? && Encode(w).Done? && Sized(v) && Sized(w)
    ensures Encode(v) == Encode(w) <==> Normal(v) == Normal(w)
  {
    if Encode(v) == Encode(w) {
      SameBytesSameMeaning(v, w);
    }
    if Normal(v) == Normal(w) {
      SameMeaningSameBytes(v, w);
    }
  }

  lemma SameBytesSameMeaning(v: Param, w: Param)
    requires Encode(v).Done? && Sized(v) && Sized(w) && Encode(v) == Encode(w)
    ensures Normal(v) == Normal(w)
  {
    RestoredParam(v);
    RestoredParam(w);
  }

  lemma SameMeaningSameBytes(v: Param, w: Param)
    requires Encode(v).Done? && Encode(w).Done? && Normal(v) == Normal(w)
    ensures Encode(v) == Encode(w)
  {
    if v.PList? {
      SameList(v.items, w.items);
    } else {
      EncodeByNormal(v);
      EncodeByNormal(w);
    }
  }

  lemma SameList(vs: seq<Param>, ws: seq<Param>)
    requires Encode(PList(vs)).Done? && Encode(PList(ws)).Done? && Normal(PList(vs)) == Normal(PList(ws))
    ensures Encode(PList(vs)) == Encode(PList(ws))
  {
    ScanVets(vs, None);
    ScanVets(ws, None);
    SameElemType(vs, ws);
    ElemsByNormal(vs, ws);
  }

  lemma EncodeByNormal(v: Param)
    requires Encode(v).Done? && !v.PList?
    ensures Encode(v) == Encode(Normal(v))
  {
    if Scalar(v) {
      ScalarByNormal(v);
    }
  }

  /** Without parameters the guard of ExecBatch is needed: any number of rows is the same empty body. */
  lemma {:induction false} ParameterlessBatchesCollide(rows: seq<seq<Param>>)
    requires forall i :: 0 <= i < |rows| ==> rows[i] == []
    ensures Flatten(rows) == [] && PairsBytes(EncodeAll(Flatten(rows)).value) == []
  {
    if rows != [] {
      ParameterlessBatchesCollide(rows[1..]);
    }
  }
}
