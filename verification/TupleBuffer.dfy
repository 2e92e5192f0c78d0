/**
 The tuple buffer as the program keeps it in memory: a backing array that every FETCH overwrites in
 place, holding references to rows. Rows handed out earlier share no memory with later ones.
 */
module TupleBuffer {
  import opened Bytes
  import opened Wire
  import opened Codec
  import opened Cursor

  /** The referenced rows hold these values. */
  ghost predicate Holds(refs: seq<array<Value>>, rows: seq<Row>)
    reads refs
  {
    |refs| == |rows| && forall i :: 0 <= i < |refs| ==> refs[i][..] == rows[i]
  }

  lemma HoldsSnoc(refs: seq<array<Value>>, r: array<Value>, rows: seq<Row>, row: Row)
    requires Holds(refs, rows) && r[..] == row
    ensures Holds(refs + [r], rows + [row])
  {
  }

  /** No row of one list is a row of the other. */
  ghost predicate Apart(kept: seq<array<Value>>, refs: seq<array<Value>>) {
    forall i :: 0 <= i < |kept| ==> kept[i] !in refs
  }

  class Tuples {
    var backing: array<array<Value>>
    var len: nat
    var pos: nat
    var nextIndex: int32

    ghost predicate Valid()
      reads this
    {
      pos <= len <= backing.Length
    }

    ghost function Refs(): (refs: seq<array<Value>>)
      requires Valid()
      reads this, backing
    {
      backing[..len]
    }

    constructor ()
      ensures Valid() && Refs() == [] && pos == 0 && nextIndex == 1 && fresh(backing)
    {
      var none := new Value[0](_ => Nil);
      backing := new array<Value>[0](_ => none);
      len, pos, nextIndex := 0, 0, 1;
    }

    /** append: in place while there is room, otherwise into a larger copy. */
    method Append(row: array<Value>)
      requires Valid()
      modifies this`len, this`backing, backing
      ensures Valid() && (backing == old(backing) || fresh(backing))
      ensures Refs() == old(Refs()) + [row]
    {
      if len == backing.Length {
        var old_ := backing;
        backing := new array<Value>[2 * len + 1](i reads this, old_ => if 0 <= i < old_.Length then old_[i] else row);
      }
      backing[len] := row;
      len := len + 1;
    }

    /** One row, written cell by cell into memory of its own. */
    method ReadRow(cols: seq<byte>, isCall: bool, rd: Reader) returns (err: Option<Error>, row: array<Value>)
      requires rd.Valid()
      modifies rd
      ensures rd.Valid() && fresh(row)
      ensures var p := ParseCells(cols, isCall, old(rd.Rest()));
              if p.Got? then err == None && row[..] == p.value && rd.Rest() == p.rest else err == Some(p.error)
    {
      row := new Value[|cols|](_ => Nil);
      var j := 0;
      ghost var whole, got: Row := ParseCells(cols, isCall, rd.Rest()), [];
      assert cols[0..] == cols;
      while j < |cols|
        invariant 0 <= j <= |cols| && rd.Valid() && row[..j] == got
        invariant whole == Onto(got, ParseCells(cols[j..], isCall, rd.Rest()))
      {
        CellsStep(cols, isCall, j, got, rd.Rest());
        var v := ReadCell(cols[j], isCall, rd);
        if v.Err? {
          return Some(v.error), row;
        }
        row[j] := v.value;
        j, got := j + 1, got + [v.value];
      }
      assert row[..|cols|] == row[..];
      err := None;
    }

    /** One turn of the tuple loop; `got` is what the buffer holds of a block of m tuples that began at s. */
    method ReadTuple(cols: seq<byte>, isCall: bool, rd: Reader,
                     ghost m: nat, ghost s: bytes, ghost next: int32, ghost i: nat, ghost got: seq<Row>,
                     ghost kept: seq<array<Value>>)
      returns (err: Option<Error>, ghost more: seq<Row>)
      requires Valid() && rd.Valid() && Holds(Refs(), got) && Apart(kept, Refs())
      requires i < m && TuplesLoop(m, cols, isCall, s, next, i, got, rd.Rest(), nextIndex)
      modifies this`len, this`backing, this`nextIndex, backing, rd
      ensures Valid() && rd.Valid() && (backing == old(backing) || fresh(backing))
      ensures Holds(Refs(), more) && Apart(kept, Refs())
      ensures err.Some? ==> ParseTuples(m, cols, isCall, s, next) == Block(more, nextIndex, err, [])
      ensures err.None? ==> TuplesLoop(m, cols, isCall, s, next, i + 1, more, rd.Rest(), nextIndex)
    {
      TuplesStep(m, cols, isCall, s, next, i, got, rd.Rest(), nextIndex);
      more := got;
      var row;
      err, row := TakeTuple(cols, isCall, rd);
      if err.None? {
        ghost var refs := Refs();
        more := got + [row[..]];
        Append(row);
        HoldsSnoc(refs, row, got, row[..]);
      }
    }

    /** The part of a tuple's turn that reads. */
    method TakeTuple(cols: seq<byte>, isCall: bool, rd: Reader) returns (err: Option<Error>, row: array?<Value>)
      requires rd.Valid()
      modifies this`nextIndex, rd
      ensures rd.Valid()
      ensures var p := ParseTuple(cols, isCall, old(rd.Rest()));
              && nextIndex == NextAfter(p, old(nextIndex))
              && err == (if p.Tuple? then None else Some(p.error))
              && (p.Tuple? ==> rd.Rest() == p.rest && row != null && fresh(row) && row[..] == p.row)
    {
      var idx := rd.Int32();
      if idx.Err? {
        return Some(idx.error), null;
      }
      nextIndex := Succ(idx.value);
      var oid := rd.Take(8);
      if oid.Err? {
        return Some(oid.error), null;
      }
      err, row := ReadRow(cols, isCall, rd);
    }

    /** The tuple loop of consumeFetch, into an emptied buffer. */
    method Fill(cols: seq<byte>, isCall: bool, rd: Reader, n: int, ghost kept: seq<array<Value>>)
      returns (err: Option<Error>)
      requires Valid() && rd.Valid() && len == 0
      modifies this`len, this`backing, this`nextIndex, backing, rd
      ensures Valid() && (backing == old(backing) || fresh(backing)) && Apart(kept, Refs())
      ensures var b := ParseTuples(if n < 0 then 0 else n, cols, isCall, old(rd.Rest()), old(nextIndex));
              Holds(Refs(), b.rows) && nextIndex == b.next && err == b.failure
    {
      ghost var m, s, next, got: seq<Row> := if n < 0 then 0 else n, rd.Rest(), nextIndex, [];
      var i := 0;
      while i < n
        invariant 0 <= i <= m && Valid() && rd.Valid()
        invariant backing == old(backing) || fresh(backing)
        invariant Holds(Refs(), got) && Apart(kept, Refs())
        invariant TuplesLoop(m, cols, isCall, s, next, i, got, rd.Rest(), nextIndex)
      {
        err, got := ReadTuple(cols, isCall, rd, m, s, next, i, got, kept);
        if err.Some? {
          return;
        }
        i := i + 1;
      }
      TuplesEnd(m, cols, isCall, s, next, got, rd.Rest(), nextIndex);
      err := None;
    }

    /**
     fetchNext past its status: the old references are dropped and the backing array is reused. No row
     existing before the call, handed out or saved, is written or referred to any more.
     */
    method Refill(cols: seq<byte>, isCall: bool, rd: Reader, n: int, ghost kept: seq<array<Value>>)
      returns (err: Option<Error>)
      requires Valid() && rd.Valid()
      modifies this, backing, rd
      ensures Valid() && pos == 0 && (backing == old(backing) || fresh(backing))
      ensures var b := ParseTuples(if n < 0 then 0 else n, cols, isCall, old(rd.Rest()), old(nextIndex));
              Holds(Refs(), b.rows) && nextIndex == b.next && err == b.failure
      ensures Apart(kept, Refs()) && forall i :: 0 <= i < |kept| ==> kept[i][..] == old(kept[i][..])
    {
      len, pos := 0, 0;
      err := Fill(cols, isCall, rd, n, kept);
    }

    /** Next within a batch: the caller gets the reference itself. */
    method Hand() returns (row: array<Value>)
      requires Valid() && pos < len
      modifies `pos
      ensures Valid() && pos == old(pos) + 1 && row == Refs()[old(pos)]
    {
      row := backing[pos];
      pos := pos + 1;
    }
  }

  /** The row handed out is the buffer's own reference, and the next batch leaves it alone. */
  method HandThenRefill(t: Tuples, cols: seq<byte>, isCall: bool, rd: Reader, n: int, ghost rows: seq<Row>)
    returns (row: array<Value>, err: Option<Error>)
    requires t.Valid() && t.pos < t.len && rd.Valid() && Holds(t.Refs(), rows)
    modifies t, t.backing, rd
    ensures t.Valid() && row == old(t.Refs()[t.pos]) && row[..] == rows[old(t.pos)] && row !in t.Refs()
    ensures var b := ParseTuples(if n < 0 then 0 else n, cols, isCall, old(rd.Rest()), old(t.nextIndex));
            Holds(t.Refs(), b.rows) && t.nextIndex == b.next && err == b.failure && t.pos == 0
  {
    row := t.Hand();
    ghost var kept := [row];
    err := t.Refill(cols, isCall, rd, n, kept);
    assert row == kept[0];
  }

  // ---------- Any number of batches ----------

  /** A FETCH block after its status: the tuple count and what follows it. */
  datatype Feed = Feed(n: int32, body: bytes)

  function BlockOf(cols: seq<byte>, isCall: bool, f: Feed, next: int32): (b: Block)
  {
    ParseTuples(if f.n < 0 then 0 else f.n, cols, isCall, f.body, next)
  }

  /** The rows of all blocks in order, and the index after them. */
  function Replayed(cols: seq<byte>, isCall: bool, feeds: seq<Feed>, next: int32): (r: (seq<Row>, int32))
  {
    if feeds == [] then ([], next)
    else
      var (rows, at) := Replayed(cols, isCall, feeds[..|feeds| - 1], next);
      var b := BlockOf(cols, isCall, feeds[|feeds| - 1], at);
      (rows + b.rows, b.next)
  }

  lemma HoldsConcat(refs: seq<array<Value>>, rows: seq<Row>, more: seq<array<Value>>, others: seq<Row>)
    requires Holds(refs, rows) && Holds(more, others)
    ensures Holds(refs + more, rows + others)
  {
  }

  /** Next until the buffer is used up. */
  method HandAll(t: Tuples) returns (refs: seq<array<Value>>)
    requires t.Valid() && t.pos == 0
    modifies t`pos
    ensures t.Valid() && refs == t.Refs()
  {
    refs := [];
    while t.pos < t.len
      invariant t.Valid() && refs == t.Refs()[..t.pos]
    {
      var row := t.Hand();
      refs := refs + [row];
    }
  }

  /** One batch, all of it handed out. */
  method RefillAndHand(t: Tuples, cols: seq<byte>, isCall: bool, f: Feed) returns (refs: seq<array<Value>>)
    requires t.Valid()
    modifies t, t.backing
    ensures t.Valid() && (t.backing == old(t.backing) || fresh(t.backing))
    ensures Holds(refs, BlockOf(cols, isCall, f, old(t.nextIndex)).rows)
    ensures t.nextIndex == BlockOf(cols, isCall, f, old(t.nextIndex)).next
  {
    var rd := new Reader(f.body);
    var err := t.Refill(cols, isCall, rd, f.n, []);
    refs := HandAll(t);
  }

  /**
   Batch after batch through one reused buffer, every row handed out as it comes: at the end each of
   the rows still holds exactly what its own batch said.
   */
  method HandEverything(t: Tuples, cols: seq<byte>, isCall: bool, feeds: seq<Feed>)
    returns (handed: seq<array<Value>>)
    requires t.Valid()
    modifies t, t.backing
    ensures t.Valid() && Holds(handed, Replayed(cols, isCall, feeds, old(t.nextIndex)).0)
  {
    handed := [];
    ghost var next, rows := t.nextIndex, [];
    for i := 0 to |feeds|
      invariant t.Valid() && (t.backing == old(t.backing) || fresh(t.backing))
      invariant Replayed(cols, isCall, feeds[..i], next) == (rows, t.nextIndex) && Holds(handed, rows)
    {
      assert feeds[..i + 1][..i] == feeds[..i];
      ghost var b := BlockOf(cols, isCall, feeds[i], t.nextIndex);
      var refs := RefillAndHand(t, cols, isCall, feeds[i]);
      HoldsConcat(handed, rows, refs, b.rows);
      handed, rows := handed + refs, rows + b.rows;
    }
    assert feeds[..|feeds|] == feeds;
  }
}
