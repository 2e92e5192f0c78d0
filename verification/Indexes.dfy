/** Conn.Indexes (cubrid/schema.go): constraint rows grouped, sorted and merged with the primary key. */
module Indexes {
  import opened Sorting

  /** A schema row's values, as far as schemaInt and schemaString look at them. */
  datatype Cell = Num(n: int) | Text(s: string) | Other

  type Row = seq<Cell>

  function TextOf(c: Cell): (s: string) { if c.Text? then c.s else "" }

  datatype KeyCol = KeyCol(name: string, order: int)
  datatype KeyColumn = KeyColumn(table: string, column: string, keyName: string, seqNo: int)
  datatype IndexInfo = IndexInfo(name: string, unique: bool, columns: seq<string>, isPrimary: bool)

  /** A row the loop accepts: wide enough, with an integer constraint type. */
  predicate RowOk(row: Row) { |row| >= 6 && row[0].Num? }

  predicate RowsOk(rows: seq<Row>) { forall i :: 0 <= i < |rows| ==> RowOk(rows[i]) }

  function NameOf(row: Row): (s: string)
    requires RowOk(row)
  {
    TextOf(row[1])
  }

  /** KEY_ORDER, or the arrival position within the index when the row does not carry it. */
  function OrderOf(row: Row, arrival: nat): (o: int)
    requires RowOk(row)
  {
    if |row| > 6 && row[6].Num? then row[6].n else arrival
  }

  /** unqualifyName: what follows the first dot, or the whole name. */
  function Unqualify(s: string): (r: string)
    ensures '.' !in s ==> r == s
  {
    if s == [] then [] else if s[0] == '.' then s[1..] else if '.' in s[1..] then Unqualify(s[1..]) else s
  }

  // ---------- Declarative specification ----------

  /** Distinct names in order of first appearance. */
  function Names(rows: seq<Row>): (ns: seq<string>)
    requires RowsOk(rows)
  {
    if rows == [] then []
    else
      var ns, n := Names(rows[..|rows| - 1]), NameOf(rows[|rows| - 1]);
      if n in ns then ns else ns + [n]
  }

  /** The rows of one index, in arrival order. */
  function Group(rows: seq<Row>, n: string): (g: seq<Row>)
    requires RowsOk(rows)
    ensures RowsOk(g) && |g| <= |rows|
  {
    if rows == [] then []
    else
      var g := Group(rows[..|rows| - 1], n);
      if NameOf(rows[|rows| - 1]) == n then g + [rows[|rows| - 1]] else g
  }

  function KeyCols(g: seq<Row>): (ks: seq<KeyCol>)
    requires RowsOk(g)
    ensures |ks| == |g|
    ensures forall i :: 0 <= i < |g| ==> ks[i] == KeyCol(TextOf(g[i][2]), OrderOf(g[i], i))
  {
    seq(|g|, i requires 0 <= i < |g| => KeyCol(TextOf(g[i][2]), OrderOf(g[i], i)))
  }

  function ColumnNames(ks: seq<KeyCol>): (cs: seq<string>)
    ensures |cs| == |ks|
  {
    seq(|ks|, i requires 0 <= i < |ks| => ks[i].name)
  }

  const BY_ORDER: KeyCol -> int := (k: KeyCol) => k.order
  const BY_SEQ: KeyColumn -> int := (k: KeyColumn) => k.seqNo

  /** An entry's name and flags, the flags from the first row of its index. */
  function Header(g: seq<Row>, n: string): (e: IndexInfo)
    requires RowsOk(g)
  {
    IndexInfo(n, g != [] && (g[0][0].n == 0 || g[0][0].n == 2), [], g != [] && g[0][5].Num? && g[0][5].n != 0)
  }

  /** One entry: its columns come from all rows of the index, in key order. */
  function Entry(rows: seq<Row>, n: string): (e: IndexInfo)
    requires RowsOk(rows)
  {
    var g := Group(rows, n);
    Header(g, n).(columns := ColumnNames(StableSort(KeyCols(g), BY_ORDER)))
  }

  function Entries(rows: seq<Row>, ns: seq<string>): (es: seq<IndexInfo>)
    requires RowsOk(rows)
    ensures |es| == |ns| && forall i :: 0 <= i < |ns| ==> es[i] == Entry(rows, ns[i])
  {
    seq(|ns|, i requires 0 <= i < |ns| => Entry(rows, ns[i]))
  }

  function OwnRows(pk: seq<KeyColumn>, table: string): (own: seq<KeyColumn>)
    ensures |own| <= |pk|
  {
    if pk == [] then []
    else
      var own := OwnRows(pk[..|pk| - 1], table);
      if pk[|pk| - 1].table == Unqualify(table) then own + [pk[|pk| - 1]] else own
  }

  function PkColumns(pk: seq<KeyColumn>): (cs: seq<string>)
    ensures |cs| == |pk|
  {
    seq(|pk|, i requires 0 <= i < |pk| => pk[i].column)
  }

  /** The primary key marks the entry that already has its name, or is listed first. */
  function Merge(es: seq<IndexInfo>, pk: seq<KeyColumn>): (r: seq<IndexInfo>)
    requires pk != []
  {
    var i := Find(es, pk[0].keyName);
    if i < |es| then es[i := es[i].(isPrimary := true, unique := true)]
    else [IndexInfo(pk[0].keyName, true, PkColumns(pk), true)] + es
  }

  function Find(es: seq<IndexInfo>, n: string): (i: nat)
    ensures i <= |es| && (i < |es| ==> es[i].name == n)
    ensures forall j :: 0 <= j < i ==> es[j].name != n
  {
    if es == [] || es[0].name == n then 0
    else
      assert forall j :: 1 <= j < |es| ==> es[j] == es[1..][j - 1];
      1 + Find(es[1..], n)
  }

  function Spec(rows: seq<Row>, pk: seq<KeyColumn>, table: string): (r: seq<IndexInfo>)
    requires RowsOk(rows)
  {
    var es, own := Entries(rows, Names(rows)), StableSort(OwnRows(pk, table), BY_SEQ);
    if own == [] then es else Merge(es, own)
  }

  // ---------- The function as it runs ----------

  /** byName is the inverse of the list of names. */
  ghost predicate Positions(ns: seq<string>, byName: map<string, nat>) {
    && (forall n :: n in byName ==> byName[n] < |ns| && ns[byName[n]] == n)
    && (forall j :: 0 <= j < |ns| ==> ns[j] in byName && byName[ns[j]] == j)
  }

  /** What the loop holds for one index: its entry without columns, and its columns so far. */
  ghost predicate Slot(rows: seq<Row>, n: string, info: IndexInfo, cols: seq<KeyCol>)
    requires RowsOk(rows)
  {
    info == Header(Group(rows, n), n) && cols == KeyCols(Group(rows, n))
  }

  ghost predicate Grouped(rows: seq<Row>, byName: map<string, nat>, out: seq<IndexInfo>, idxCols: seq<seq<KeyCol>>) {
    RowsOk(rows) && Positions(Names(rows), byName) && Slots(rows, Names(rows), out, idxCols)
  }

  ghost predicate Slots(rows: seq<Row>, ns: seq<string>, out: seq<IndexInfo>, idxCols: seq<seq<KeyCol>>)
    requires RowsOk(rows)
  {
    |out| == |ns| && |idxCols| == |ns| && forall j :: 0 <= j < |ns| ==> Slot(rows, ns[j], out[j], idxCols[j])
  }

  lemma {:induction false} NamesHold(rows: seq<Row>)
    requires RowsOk(rows)
    ensures forall i :: 0 <= i < |rows| ==> NameOf(rows[i]) in Names(rows)
    ensures forall n :: n in Names(rows) <==> Group(rows, n) != []
    ensures forall i, j :: 0 <= i < j < |Names(rows)| ==> Names(rows)[i] != Names(rows)[j]
  {
    if rows != [] {
      NamesHold(rows[..|rows| - 1]);
    }
  }

  /** What one more row does to the specification. */
  lemma SpecSnoc(rows: seq<Row>, row: Row, n: string)
    requires RowsOk(rows) && RowOk(row)
    ensures RowsOk(rows + [row])
    ensures Group(rows + [row], n) == if NameOf(row) == n then Group(rows, n) + [row] else Group(rows, n)
    ensures Names(rows + [row]) == if NameOf(row) in Names(rows) then Names(rows) else Names(rows) + [NameOf(row)]
  {
    assert (rows + [row])[..|rows|] == rows;
  }

  lemma KeyColsSnoc(g: seq<Row>, row: Row)
    requires RowsOk(g) && RowOk(row)
    ensures RowsOk(g + [row]) && KeyCols(g + [row]) == KeyCols(g) + [KeyCol(TextOf(row[2]), OrderOf(row, |g|))]
  {
  }

  lemma SlotSame(rows: seq<Row>, row: Row, n: string, info: IndexInfo, cols: seq<KeyCol>)
    requires RowsOk(rows) && RowOk(row) && NameOf(row) != n && Slot(rows, n, info, cols)
    ensures RowsOk(rows + [row]) && Slot(rows + [row], n, info, cols)
  {
    SpecSnoc(rows, row, n);
  }

  lemma SlotGrows(rows: seq<Row>, row: Row, n: string, info: IndexInfo, cols: seq<KeyCol>)
    requires RowsOk(rows) && RowOk(row) && NameOf(row) == n && Group(rows, n) != [] && Slot(rows, n, info, cols)
    ensures RowsOk(rows + [row])
    ensures Slot(rows + [row], n, info, cols + [KeyCol(TextOf(row[2]), OrderOf(row, |cols|))])
  {
    SpecSnoc(rows, row, n);
    KeyColsSnoc(Group(rows, n), row);
  }

  lemma SlotNew(rows: seq<Row>, row: Row, n: string)
    requires RowsOk(rows) && RowOk(row) && NameOf(row) == n && Group(rows, n) == []
    ensures RowsOk(rows + [row])
    ensures Slot(rows + [row], n,
                 IndexInfo(n, row[0].n == 0 || row[0].n == 2, [], row[5].Num? && row[5].n != 0),
                 [KeyCol(TextOf(row[2]), OrderOf(row, 0))])
  {
    SpecSnoc(rows, row, n);
    assert [] + [row] == [row];
  }

  lemma GroupedKnown(rows: seq<Row>, row: Row, byName: map<string, nat>, out: seq<IndexInfo>, idxCols: seq<seq<KeyCol>>)
    requires Grouped(rows, byName, out, idxCols) && RowOk(row) && NameOf(row) in byName
    ensures var i := byName[NameOf(row)];
            i < |idxCols| &&
            Grouped(rows + [row], byName, out,
                    idxCols[i := idxCols[i] + [KeyCol(TextOf(row[2]), OrderOf(row, |idxCols[i]|))]])
  {
    var n, ns := NameOf(row), Names(rows);
    var i := byName[n];
    NamesHold(rows);
    SpecSnoc(rows, row, n);
    SlotGrows(rows, row, n, out[i], idxCols[i]);
    forall j | 0 <= j < |ns| && j != i
      ensures Slot(rows + [row], ns[j], out[j], idxCols[j])
    {
      assert Slot(rows, ns[j], out[j], idxCols[j]);
      SlotSame(rows, row, ns[j], out[j], idxCols[j]);
    }
  }

  lemma GroupedNew(rows: seq<Row>, row: Row, byName: map<string, nat>, out: seq<IndexInfo>, idxCols: seq<seq<KeyCol>>)
    requires Grouped(rows, byName, out, idxCols) && RowOk(row) && NameOf(row) !in byName
    ensures Grouped(rows + [row], byName[NameOf(row) := |out|],
                    out + [IndexInfo(NameOf(row), row[0].n == 0 || row[0].n == 2, [], row[5].Num? && row[5].n != 0)],
                    idxCols + [[KeyCol(TextOf(row[2]), OrderOf(row, 0))]])
  {
    var n, ns := NameOf(row), Names(rows);
    NamesHold(rows);
    assert n !in ns && Group(rows, n) == [];
    SpecSnoc(rows, row, n);
    SlotNew(rows, row, n);
    PositionsSnoc(ns, byName, n);
    SlotsSnoc(rows, row, ns, out, idxCols,
              IndexInfo(n, row[0].n == 0 || row[0].n == 2, [], row[5].Num? && row[5].n != 0),
              [KeyCol(TextOf(row[2]), OrderOf(row, 0))]);
  }

  lemma PositionsSnoc(ns: seq<string>, byName: map<string, nat>, n: string)
    requires Positions(ns, byName) && n !in byName
    ensures Positions(ns + [n], byName[n := |ns|])
  {
  }

  lemma SlotsSnoc(rows: seq<Row>, row: Row, ns: seq<string>, out: seq<IndexInfo>, idxCols: seq<seq<KeyCol>>,
                  info: IndexInfo, cols: seq<KeyCol>)
    requires RowsOk(rows) && RowOk(row) && RowsOk(rows + [row]) && NameOf(row) !in ns
    requires Slots(rows, ns, out, idxCols) && Slot(rows + [row], NameOf(row), info, cols)
    ensures Slots(rows + [row], ns + [NameOf(row)], out + [info], idxCols + [cols])
  {
    forall j | 0 <= j < |ns|
      ensures Slot(rows + [row], ns[j], out[j], idxCols[j])
    {
      SlotSame(rows, row, ns[j], out[j], idxCols[j]);
    }
  }

  /** The grouping loop; None when a row has the wrong shape. */
  method GroupRows(rows: seq<Row>)
    returns (ok: bool, byName: map<string, nat>, out: seq<IndexInfo>, idxCols: seq<seq<KeyCol>>)
    ensures ok <==> RowsOk(rows)
    ensures ok ==> Grouped(rows, byName, out, idxCols)
  {
    byName, out, idxCols := map[], [], [];
    for k := 0 to |rows|
      invariant RowsOk(rows[..k]) && Grouped(rows[..k], byName, out, idxCols)
    {
      var row := rows[k];
      if |row| < 6 || !row[0].Num? {
        return false, map[], [], [];
      }
      assert rows[..k + 1] == rows[..k] + [row];
      var name := TextOf(row[1]);
      if name !in byName {
        GroupedNew(rows[..k], row, byName, out, idxCols);
        var info := IndexInfo(name, row[0].n == 0 || row[0].n == 2, [], row[5].Num? && row[5].n != 0);
        byName := byName[name := |out|];
        out := out + [info];
        idxCols := idxCols + [[KeyCol(TextOf(row[2]), OrderOf(row, 0))]];
      } else {
        GroupedKnown(rows[..k], row, byName, out, idxCols);
        var i := byName[name];
        idxCols := idxCols[i := idxCols[i] + [KeyCol(TextOf(row[2]), OrderOf(row, |idxCols[i]|))]];
      }
    }
    assert rows[..|rows|] == rows;
    ok := true;
  }

  /** The sorting loop fills in every entry's columns. */
  method FillColumns(rows: seq<Row>, byName: map<string, nat>, groups: seq<IndexInfo>, idxCols: seq<seq<KeyCol>>)
    returns (out: seq<IndexInfo>)
    requires Grouped(rows, byName, groups, idxCols)
    ensures out == Entries(rows, Names(rows))
  {
    out := groups;
    for i := 0 to |idxCols|
      invariant |out| == |groups|
      invariant forall j :: 0 <= j < i ==> out[j] == Entry(rows, Names(rows)[j])
      invariant forall j :: i <= j < |out| ==> out[j] == groups[j]
    {
      assert Slot(rows, Names(rows)[i], groups[i], idxCols[i]);
      var kcs := StableSort(idxCols[i], BY_ORDER);
      out := out[i := out[i].(columns := ColumnNames(kcs))];
    }
  }

  /** The in-place filter: pk[..n] becomes this table's rows, in order. */
  method FilterOwn(pk: array<KeyColumn>, table: string) returns (n: nat)
    modifies pk
    ensures n <= pk.Length && pk[..n] == OwnRows(old(pk[..]), table)
  {
    n := 0;
    ghost var was := pk[..];
    for i := 0 to pk.Length
      invariant n <= i && pk[i..] == was[i..]
      invariant pk[..n] == OwnRows(was[..i], table)
    {
      assert was[..i + 1][..i] == was[..i];
      assert pk[i..][0] == was[i..][0];
      var k := pk[i];
      ghost var kept, left := pk[..n], pk[i + 1..];
      assert left == pk[i..][1..] && was[i + 1..] == was[i..][1..];
      if k.table == Unqualify(table) {
        pk[n] := k;
        n := n + 1;
        assert pk[..n] == kept + [k];
      }
      assert pk[i + 1..] == left;
    }
    assert was[..|was|] == was;
  }

  /** Conn.Indexes from the constraint rows and the primary-key rows. */
  method ListIndexes(rows: seq<Row>, pk: array<KeyColumn>, table: string) returns (ok: bool, r: seq<IndexInfo>)
    modifies pk
    ensures ok <==> forall i :: 0 <= i < |rows| ==> |rows[i]| >= 6 && rows[i][0].Num?
    ensures ok ==> r == Spec(rows, old(pk[..]), table)
  {
    r := [];
    var byName, groups, idxCols;
    ok, byName, groups, idxCols := GroupRows(rows);
    if !ok {
      return;
    }
    var out := FillColumns(rows, byName, groups, idxCols);
    var n := FilterOwn(pk, table);
    if n == 0 {
      return true, out;
    }
    var own := StableSort(pk[..n], BY_SEQ);
    FoundByName(rows, byName, groups, idxCols, own[0].keyName);
    if own[0].keyName in byName {
      var i := byName[own[0].keyName];
      return true, out[i := out[i].(isPrimary := true, unique := true)];
    }
    return true, [IndexInfo(own[0].keyName, true, PkColumns(own), true)] + out;
  }

  lemma FoundByName(rows: seq<Row>, byName: map<string, nat>, groups: seq<IndexInfo>, idxCols: seq<seq<KeyCol>>,
                    n: string)
    requires Grouped(rows, byName, groups, idxCols)
    ensures var i := Find(Entries(rows, Names(rows)), n);
            (n in byName <==> i < |Names(rows)|) && (n in byName ==> byName[n] == i)
  {
    var es, ns := Entries(rows, Names(rows)), Names(rows);
    var i := Find(es, n);
    if n in byName {
      var j :| 0 <= j < |ns| && ns[j] == n;
      assert es[j].name == n;
    }
  }

  // ---------- What the specification promises ----------

  ghost predicate DistinctNames(es: seq<IndexInfo>) {
    forall i, j :: 0 <= i < j < |es| ==> es[i].name != es[j].name
  }

  lemma EntriesDistinct(rows: seq<Row>)
    requires RowsOk(rows)
    ensures DistinctNames(Entries(rows, Names(rows)))
  {
    NamesHold(rows);
  }

  lemma MergeKeepsDistinct(es: seq<IndexInfo>, pk: seq<KeyColumn>)
    requires pk != [] && DistinctNames(es)
    ensures DistinctNames(Merge(es, pk))
  {
  }

  /** Index names stay unique, with or without the primary-key merge. */
  lemma NamesStayUnique(rows: seq<Row>, pk: seq<KeyColumn>, table: string)
    requires RowsOk(rows)
    ensures DistinctNames(Spec(rows, pk, table))
  {
    EntriesDistinct(rows);
    if StableSort(OwnRows(pk, table), BY_SEQ) != [] {
      MergeKeepsDistinct(Entries(rows, Names(rows)), StableSort(OwnRows(pk, table), BY_SEQ));
    }
  }

  /** First-appearance order: the names of any initial part of the stream come first, in the same order. */
  lemma {:induction false} NamesInOrderOfAppearance(rows: seq<Row>, i: nat)
    requires RowsOk(rows) && i <= |rows|
    ensures Names(rows[..i]) <= Names(rows)
  {
    if i == |rows| {
      assert rows[..i] == rows;
    } else {
      NamesInOrderOfAppearance(rows[..|rows| - 1], i);
      assert rows[..|rows| - 1][..i] == rows[..i];
    }
  }

  function RowColumns(rows: seq<Row>): (cs: seq<string>)
    requires RowsOk(rows)
    ensures |cs| == |rows|
  {
    seq(|rows|, i requires 0 <= i < |rows| => TextOf(rows[i][2]))
  }

  ghost function AllColumns(es: seq<IndexInfo>): (m: multiset<string>)
  {
    if es == [] then multiset{} else AllColumns(es[..|es| - 1]) + multiset(es[|es| - 1].columns)
  }

  lemma {:induction false} InsertNames(t: seq<KeyCol>, x: KeyCol)
    ensures multiset(ColumnNames(Insert(t, x, BY_ORDER))) == multiset(ColumnNames(t)) + multiset{x.name}
  {
    if t == [] || BY_ORDER(t[|t| - 1]) <= BY_ORDER(x) {
      assert ColumnNames(t + [x]) == ColumnNames(t) + [x.name];
    } else {
      var u, y := t[..|t| - 1], t[|t| - 1];
      InsertNames(u, x);
      assert ColumnNames(Insert(u, x, BY_ORDER) + [y]) == ColumnNames(Insert(u, x, BY_ORDER)) + [y.name];
      assert ColumnNames(t) == ColumnNames(u) + [y.name];
    }
  }

  lemma {:induction false} SortNames(s: seq<KeyCol>)
    ensures multiset(ColumnNames(StableSort(s, BY_ORDER))) == multiset(ColumnNames(s))
  {
    if s != [] {
      var u, x := s[..|s| - 1], s[|s| - 1];
      SortNames(u);
      InsertNames(StableSort(u, BY_ORDER), x);
      assert ColumnNames(s) == ColumnNames(u) + [x.name];
    }
  }

  lemma EntryColumns(rows: seq<Row>, n: string)
    requires RowsOk(rows)
    ensures multiset(Entry(rows, n).columns) == multiset(RowColumns(Group(rows, n)))
  {
    SortNames(KeyCols(Group(rows, n)));
    assert ColumnNames(KeyCols(Group(rows, n))) == RowColumns(Group(rows, n));
  }

  /** The columns of all rows belonging to the named indexes. */
  ghost function Used(rows: seq<Row>, ns: seq<string>): (m: multiset<string>)
    requires RowsOk(rows)
  {
    if ns == [] then multiset{}
    else Used(rows, ns[..|ns| - 1]) + multiset(RowColumns(Group(rows, ns[|ns| - 1])))
  }

  lemma {:induction false} EntriesUse(rows: seq<Row>, ns: seq<string>)
    requires RowsOk(rows)
    ensures AllColumns(Entries(rows, ns)) == Used(rows, ns)
  {
    if ns != [] {
      EntriesUse(rows, ns[..|ns| - 1]);
      assert Entries(rows, ns)[..|ns| - 1] == Entries(rows, ns[..|ns| - 1]);
      EntryColumns(rows, ns[|ns| - 1]);
    }
  }

  function OneIf(b: bool, c: string): (m: multiset<string>) { if b then multiset{c} else multiset{} }

  lemma GroupUses(rows: seq<Row>, row: Row, n: string)
    requires RowsOk(rows) && RowOk(row)
    ensures RowsOk(rows + [row])
    ensures multiset(RowColumns(Group(rows + [row], n))) ==
            multiset(RowColumns(Group(rows, n))) + OneIf(NameOf(row) == n, TextOf(row[2]))
  {
    SpecSnoc(rows, row, n);
    RowColumnsSnoc(Group(rows, n), row);
  }

  lemma Regroup(a: multiset<string>, g: multiset<string>, p: bool, q: bool, c: string)
    requires !(p && q)
    ensures (a + OneIf(p, c)) + (g + OneIf(q, c)) == (a + g) + OneIf(p || q, c)
  {
  }

  lemma UsedAppend(rows: seq<Row>, ns: seq<string>, n: string)
    requires RowsOk(rows)
    ensures Used(rows, ns + [n]) == Used(rows, ns) + multiset(RowColumns(Group(rows, n)))
  {
    assert (ns + [n])[..|ns|] == ns;
  }

  /** One more row adds its column to the one index it names. */
  lemma {:induction false} UsedSnoc(rows: seq<Row>, row: Row, ns: seq<string>)
    requires RowsOk(rows) && RowOk(row) && forall i, j :: 0 <= i < j < |ns| ==> ns[i] != ns[j]
    ensures RowsOk(rows + [row])
    ensures Used(rows + [row], ns) == Used(rows, ns) + OneIf(NameOf(row) in ns, TextOf(row[2]))
  {
    if ns != [] {
      var ms, n := ns[..|ns| - 1], ns[|ns| - 1];
      assert ns == ms + [n];
      UsedSnoc(rows, row, ms);
      GroupUses(rows, row, n);
      UsedAppend(rows, ms, n);
      UsedAppend(rows + [row], ms, n);
      Regroup(Used(rows, ms), multiset(RowColumns(Group(rows, n))),
              NameOf(row) in ms, NameOf(row) == n, TextOf(row[2]));
    }
  }

  lemma {:induction false} RowsUsed(rows: seq<Row>)
    requires RowsOk(rows)
    ensures Used(rows, Names(rows)) == multiset(RowColumns(rows))
  {
    if rows != [] {
      var u, row := rows[..|rows| - 1], rows[|rows| - 1];
      RowsUsed(u);
      assert rows == u + [row];
      RowsUsedSnoc(u, row);
    }
  }

  lemma RowsUsedSnoc(u: seq<Row>, row: Row)
    requires RowsOk(u) && RowOk(row) && Used(u, Names(u)) == multiset(RowColumns(u))
    ensures RowsOk(u + [row]) && Used(u + [row], Names(u + [row])) == multiset(RowColumns(u + [row]))
  {
    var ns, n := Names(u), NameOf(row);
    NamesHold(u);
    SpecSnoc(u, row, n);
    UsedSnoc(u, row, ns);
    RowColumnsSnoc(u, row);
    if n !in ns {
      GroupUses(u, row, n);
      UsedAppend(u + [row], ns, n);
      EmptyGroup(u, n);
    }
  }

  lemma EmptyGroup(rows: seq<Row>, n: string)
    requires RowsOk(rows) && Group(rows, n) == []
    ensures multiset(RowColumns(Group(rows, n))) == multiset{}
  {
  }

  lemma RowColumnsSnoc(u: seq<Row>, row: Row)
    requires RowsOk(u) && RowOk(row)
    ensures RowsOk(u + [row]) && multiset(RowColumns(u + [row])) == multiset(RowColumns(u)) + multiset{TextOf(row[2])}
  {
    assert RowColumns(u + [row]) == RowColumns(u) + [TextOf(row[2])];
  }

  /** Every constraint row contributes its column exactly once. */
  lemma EveryRowUsedOnce(rows: seq<Row>)
    requires RowsOk(rows)
    ensures AllColumns(Entries(rows, Names(rows))) == multiset(RowColumns(rows))
  {
    EntriesUse(rows, Names(rows));
    RowsUsed(rows);
  }

  /** The merge lists the key's name exactly once, primary and unique, and leaves every other entry alone. */
  lemma MergeListsOnce(es: seq<IndexInfo>, pk: seq<KeyColumn>) returns (i: nat)
    requires pk != [] && DistinctNames(es)
    ensures var r := Merge(es, pk);
            && i < |r| && r[i].name == pk[0].keyName && r[i].isPrimary && r[i].unique
            && (forall j :: 0 <= j < |r| && j != i ==> r[j].name != pk[0].keyName)
            && (if Find(es, pk[0].keyName) < |es|
                then |r| == |es| && r[i].columns == es[i].columns
                     && forall j :: 0 <= j < |es| && j != i ==> r[j] == es[j]
                else i == 0 && r[0].columns == PkColumns(pk) && r[1..] == es)
  {
    var f := Find(es, pk[0].keyName);
    i := if f < |es| then f else 0;
  }

  /** With primary-key rows of this table, exactly one entry carries the key's name, and it is primary and unique. */
  lemma PrimaryKeyListedOnce(rows: seq<Row>, pk: seq<KeyColumn>, table: string) returns (i: nat)
    requires RowsOk(rows) && OwnRows(pk, table) != []
    ensures var r, own := Spec(rows, pk, table), StableSort(OwnRows(pk, table), BY_SEQ);
            && i < |r| && r[i].name == own[0].keyName && r[i].isPrimary && r[i].unique
            && (forall j :: 0 <= j < |r| && j != i ==> r[j].name != own[0].keyName)
  {
    EntriesDistinct(rows);
    i := MergeListsOnce(Entries(rows, Names(rows)), StableSort(OwnRows(pk, table), BY_SEQ));
  }
}
