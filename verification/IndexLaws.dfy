/** What Conn.Indexes promises, stated over the schema rows themselves (cubrid/schema.go). */
module IndexLaws {
  import opened Sorting
  import opened Indexes

  // ---------- Names and groups ----------

  /** q are the positions of the constraint rows that name the index n, ascending. */
  ghost predicate RowsNamed(rows: seq<Row>, n: string, q: seq<nat>)
    requires RowsOk(rows)
  {
    && (forall i :: 0 <= i < |q| ==> q[i] < |rows|)
    && (forall i, j :: 0 <= i < j < |q| ==> q[i] < q[j])
    && (forall i: nat :: i < |rows| ==> (i in q <==> TextOf(rows[i][1]) == n))
  }

  function Naming(n: string): (f: Row -> bool) { (r: Row) => |r| > 1 && TextOf(r[1]) == n }

  lemma GroupIsNamed(rows: seq<Row>, n: string) returns (q: seq<nat>)
    requires RowsOk(rows)
    ensures RowsNamed(rows, n, q) && Picks(rows, Group(rows, n), q)
  {
    q := Where(rows, Naming(n));
    WhereAscends(rows, Naming(n));
    forall i: nat | i < |rows|
      ensures i in q <==> TextOf(rows[i][1]) == n
    {
      WhereHolds(rows, Naming(n), i);
    }
    GroupPicks(rows, n);
  }

  lemma {:induction false} GroupPicks(rows: seq<Row>, n: string)
    requires RowsOk(rows)
    ensures Picks(rows, Group(rows, n), Where(rows, Naming(n)))
  {
    if rows != [] {
      GroupPicks(rows[..|rows| - 1], n);
    }
  }

  /** An entry for every name a row carries, and for no other; its flags are those of the name's first row. */
  lemma EntryFlags(rows: seq<Row>, n: string) returns (q: seq<nat>)
    requires RowsOk(rows)
    ensures RowsNamed(rows, n, q) && (n in Names(rows) <==> q != [])
    ensures q != [] ==>
              var e, first := Entry(rows, n), rows[q[0]];
              && e.name == n
              && (e.unique <==> first[0].n == 0 || first[0].n == 2)
              && (e.isPrimary <==> first[5].Num? && first[5].n != 0)
  {
    q := GroupIsNamed(rows, n);
    NamesHold(rows);
  }

  // ---------- Columns ----------

  /** KEY_ORDER of the a-th row of an index, or a itself when the row does not carry it. */
  function KeyOrder(row: Row, a: nat): (k: int)
  {
    if |row| > 6 && row[6].Num? then row[6].n else a
  }

  /** Along p the rows at q ascend by key order, ties in arrival order. */
  ghost predicate InKeyOrder(rows: seq<Row>, q: seq<nat>, p: seq<nat>)
    requires forall i :: 0 <= i < |q| ==> q[i] < |rows|
  {
    && IsOrder(p, |q|)
    && forall i, j :: 0 <= i < j < |p| ==>
         && KeyOrder(rows[q[p[i]]], p[i]) <= KeyOrder(rows[q[p[j]]], p[j])
         && (KeyOrder(rows[q[p[i]]], p[i]) == KeyOrder(rows[q[p[j]]], p[j]) ==> p[i] < p[j])
  }

  /** The columns are those of the rows at q, in the order p. */
  ghost predicate ColumnsOf(rows: seq<Row>, q: seq<nat>, p: seq<nat>, columns: seq<string>)
    requires RowsOk(rows) && forall i :: 0 <= i < |q| ==> q[i] < |rows|
  {
    |columns| == |p| && forall j :: 0 <= j < |p| ==> p[j] < |q| && columns[j] == TextOf(rows[q[p[j]]][2])
  }

  /** The columns of an index are those of its rows, every row once, in key order. */
  lemma ColumnsFollowKeyOrder(rows: seq<Row>, n: string) returns (q: seq<nat>, p: seq<nat>)
    requires RowsOk(rows)
    ensures RowsNamed(rows, n, q) && InKeyOrder(rows, q, p) && ColumnsOf(rows, q, p, Entry(rows, n).columns)
  {
    q := GroupIsNamed(rows, n);
    var ks := KeyCols(Group(rows, n));
    p := SortArranges(ks, BY_ORDER);
    KeysOfRows(rows, Group(rows, n), q);
    Arranged(rows, q, ks, StableSort(ks, BY_ORDER), p);
  }

  lemma KeysOfRows(rows: seq<Row>, g: seq<Row>, q: seq<nat>)
    requires RowsOk(rows) && RowsOk(g) && Picks(rows, g, q)
    ensures forall a :: 0 <= a < |q| ==>
              KeyCols(g)[a].order == KeyOrder(rows[q[a]], a) && KeyCols(g)[a].name == TextOf(rows[q[a]][2])
  {
  }

  lemma Arranged(rows: seq<Row>, q: seq<nat>, ks: seq<KeyCol>, best: seq<KeyCol>, p: seq<nat>)
    requires RowsOk(rows) && |ks| == |q| && forall i :: 0 <= i < |q| ==> q[i] < |rows|
    requires forall a :: 0 <= a < |q| ==>
               ks[a].order == KeyOrder(rows[q[a]], a) && ks[a].name == TextOf(rows[q[a]][2])
    requires IsOrder(p, |ks|) && Picks(ks, best, p) && Ascends(best, BY_ORDER, p)
    ensures InKeyOrder(rows, q, p) && ColumnsOf(rows, q, p, ColumnNames(best))
  {
  }

  /** When every row of the index carries KEY_ORDER, the columns ascend by it. */
  lemma KeyOrderDecides(rows: seq<Row>, n: string) returns (q: seq<nat>, p: seq<nat>)
    requires RowsOk(rows)
    requires forall i :: 0 <= i < |rows| && TextOf(rows[i][1]) == n ==> |rows[i]| > 6 && rows[i][6].Num?
    ensures RowsNamed(rows, n, q) && InKeyOrder(rows, q, p) && ColumnsOf(rows, q, p, Entry(rows, n).columns)
    ensures forall i, j :: 0 <= i < j < |p| ==>
              && rows[q[p[i]]][6].n <= rows[q[p[j]]][6].n
              && (rows[q[p[i]]][6].n == rows[q[p[j]]][6].n ==> q[p[i]] < q[p[j]])
  {
    q, p := ColumnsFollowKeyOrder(rows, n);
    forall i, j | 0 <= i < j < |p|
      ensures rows[q[p[i]]][6].n <= rows[q[p[j]]][6].n
      ensures rows[q[p[i]]][6].n == rows[q[p[j]]][6].n ==> q[p[i]] < q[p[j]]
    {
      assert q[p[i]] in q && q[p[j]] in q;
      assert KeyOrder(rows[q[p[i]]], p[i]) == rows[q[p[i]]][6].n;
      assert KeyOrder(rows[q[p[j]]], p[j]) == rows[q[p[j]]][6].n;
    }
  }

  /** When no row of the index carries it, the columns stay in arrival order. */
  lemma ArrivalDecides(rows: seq<Row>, n: string) returns (q: seq<nat>)
    requires RowsOk(rows)
    requires forall i :: 0 <= i < |rows| && TextOf(rows[i][1]) == n ==> |rows[i]| <= 6 || !rows[i][6].Num?
    ensures RowsNamed(rows, n, q) && |Entry(rows, n).columns| == |q|
    ensures forall j :: 0 <= j < |q| ==> Entry(rows, n).columns[j] == TextOf(rows[q[j]][2])
  {
    var p;
    q, p := ColumnsFollowKeyOrder(rows, n);
    forall i, j | 0 <= i < j < |p|
      ensures p[i] < p[j]
    {
      assert q[p[i]] in q && q[p[j]] in q;
      assert KeyOrder(rows[q[p[i]]], p[i]) == p[i] && KeyOrder(rows[q[p[j]]], p[j]) == p[j];
    }
    AscendingIsIdentity(p);
  }

  lemma {:induction false} AscendingIsIdentity(p: seq<nat>)
    requires forall i, j :: 0 <= i < j < |p| ==> p[i] < p[j]
    requires forall j :: 0 <= j < |p| ==> p[j] < |p|
    ensures forall j :: 0 <= j < |p| ==> p[j] == j
  {
    if p != [] {
      var u := p[..|p| - 1];
      assert forall j :: 0 <= j < |u| ==> u[j] == p[j] < p[|p| - 1];
      AscendingIsIdentity(u);
      assert u != [] ==> u[|u| - 1] == p[|p| - 2] < p[|p| - 1];
      assert forall j :: 0 <= j < |u| ==> p[j] == u[j];
    }
  }

  // ---------- The primary key ----------

  /** What follows the first dot. */
  lemma {:induction false} UnqualifyDrops(owner: string, name: string)
    requires '.' !in owner
    ensures Unqualify(owner + "." + name) == name
  {
    var s := owner + "." + name;
    if owner != [] {
      UnqualifyDrops(owner[1..], name);
      assert s[1..] == owner[1..] + "." + name && s[0] == owner[0];
      assert s[|owner|] == '.' && s[1..][|owner| - 1] == '.';
    } else {
      assert s == "." + name && s[1..] == name;
    }
  }

  /** q are the positions of this table's primary-key rows, ascending. */
  ghost predicate KeysOwned(pk: seq<KeyColumn>, table: string, q: seq<nat>) {
    && (forall i :: 0 <= i < |q| ==> q[i] < |pk|)
    && (forall i, j :: 0 <= i < j < |q| ==> q[i] < q[j])
    && (forall i: nat :: i < |pk| ==> (i in q <==> pk[i].table == Unqualify(table)))
  }

  function Owning(table: string): (f: KeyColumn -> bool) { (k: KeyColumn) => k.table == Unqualify(table) }

  lemma OwnRowsAreOwned(pk: seq<KeyColumn>, table: string) returns (q: seq<nat>)
    ensures KeysOwned(pk, table, q) && Picks(pk, OwnRows(pk, table), q)
  {
    q := Where(pk, Owning(table));
    WhereAscends(pk, Owning(table));
    forall i: nat | i < |pk|
      ensures i in q <==> pk[i].table == Unqualify(table)
    {
      WhereHolds(pk, Owning(table), i);
    }
    OwnRowsPick(pk, table);
  }

  lemma {:induction false} OwnRowsPick(pk: seq<KeyColumn>, table: string)
    ensures Picks(pk, OwnRows(pk, table), Where(pk, Owning(table)))
  {
    if pk != [] {
      OwnRowsPick(pk[..|pk| - 1], table);
    }
  }

  /** Along p the key rows at q ascend by sequence number, ties as they came. */
  ghost predicate InSeqOrder(pk: seq<KeyColumn>, q: seq<nat>, p: seq<nat>)
    requires forall i :: 0 <= i < |q| ==> q[i] < |pk|
  {
    && IsOrder(p, |q|)
    && forall i, j :: 0 <= i < j < |p| ==>
         && pk[q[p[i]]].seqNo <= pk[q[p[j]]].seqNo
         && (pk[q[p[i]]].seqNo == pk[q[p[j]]].seqNo ==> p[i] < p[j])
  }

  /**
   The primary key is that of this table's rows in sequence order. Without such rows the list is the
   entries alone; a key no row names is prepended with its columns in that order; a key some row names
   adds no entry.
   */
  lemma PrimaryKeyInSeqOrder(rows: seq<Row>, pk: seq<KeyColumn>, table: string) returns (q: seq<nat>, p: seq<nat>)
    requires RowsOk(rows)
    ensures KeysOwned(pk, table, q) && InSeqOrder(pk, q, p)
    ensures q == [] ==> Spec(rows, pk, table) == Entries(rows, Names(rows))
    ensures q != [] ==>
              var r, key := Spec(rows, pk, table), pk[q[p[0]]].keyName;
              if key in Names(rows) then |r| == |Names(rows)|
              else
                && r != [] && r[1..] == Entries(rows, Names(rows))
                && r[0].name == key && r[0].unique && r[0].isPrimary && |r[0].columns| == |p|
                && forall j :: 0 <= j < |p| ==> r[0].columns[j] == pk[q[p[j]]].column
  {
    q := OwnRowsAreOwned(pk, table);
    var own := OwnRows(pk, table);
    p := SortArranges(own, BY_SEQ);
    if q != [] {
      KeyFound(rows, StableSort(own, BY_SEQ)[0].keyName);
    }
  }

  lemma KeyFound(rows: seq<Row>, key: string)
    requires RowsOk(rows)
    ensures Find(Entries(rows, Names(rows)), key) < |Names(rows)| <==> key in Names(rows)
  {
    var es, ns := Entries(rows, Names(rows)), Names(rows);
    if key in ns {
      var i :| 0 <= i < |ns| && ns[i] == key;
      assert es[i].name == key;
    }
  }
}
