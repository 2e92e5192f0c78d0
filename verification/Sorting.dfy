/**
 Stable sorting by an integer key, as sort.SliceStable promises it. The two promises, ordered by key
 and equal keys in their original order, determine the result, so any implementation agrees with it.
 */
module Sorting {
  ghost predicate Ordered<T(!new)>(s: seq<T>, key: T -> int) {
    forall i, j :: 0 <= i < j < |s| ==> key(s[i]) <= key(s[j])
  }

  /** The elements with key k, in order. */
  function WithKey<T(!new)>(s: seq<T>, key: T -> int, k: int): (r: seq<T>)
    ensures forall x :: x in r <==> x in s && key(x) == k
  {
    if s == [] then []
    else
      var r := WithKey(s[..|s| - 1], key, k);
      assert s == s[..|s| - 1] + [s[|s| - 1]];
      if key(s[|s| - 1]) == k then r + [s[|s| - 1]] else r
  }

  ghost predicate StablePermutation<T(!new)>(s: seq<T>, t: seq<T>, key: T -> int) {
    forall k :: WithKey(t, key, k) == WithKey(s, key, k)
  }

  function Insert<T(!new)>(t: seq<T>, x: T, key: T -> int): (r: seq<T>)
    ensures |r| == |t| + 1
  {
    if t == [] || key(t[|t| - 1]) <= key(x) then t + [x]
    else Insert(t[..|t| - 1], x, key) + [t[|t| - 1]]
  }

  function StableSort<T(!new)>(s: seq<T>, key: T -> int): (r: seq<T>)
    ensures |r| == |s|
  {
    if s == [] then [] else Insert(StableSort(s[..|s| - 1], key), s[|s| - 1], key)
  }

  lemma WithKeySnoc<T(!new)>(s: seq<T>, x: T, key: T -> int, k: int)
    ensures WithKey(s + [x], key, k) == if key(x) == k then WithKey(s, key, k) + [x] else WithKey(s, key, k)
  {
    assert (s + [x])[..|s|] == s;
  }

  lemma {:induction false} InsertIsStable<T(!new)>(t: seq<T>, x: T, key: T -> int, k: int)
    requires Ordered(t, key)
    ensures WithKey(Insert(t, x, key), key, k) == WithKey(t + [x], key, k)
  {
    if t != [] && key(t[|t| - 1]) > key(x) {
      var u, y := t[..|t| - 1], t[|t| - 1];
      assert t == u + [y];
      InsertIsStable(u, x, key, k);
      WithKeySnoc(Insert(u, x, key), y, key, k);
      WithKeySnoc(u, x, key, k);
      WithKeySnoc(u, y, key, k);
      WithKeySnoc(t, x, key, k);
    }
  }

  lemma {:induction false} InsertIsOrdered<T(!new)>(t: seq<T>, x: T, key: T -> int)
    requires Ordered(t, key)
    ensures Ordered(Insert(t, x, key), key)
    ensures forall y :: y in Insert(t, x, key) <==> y in t || y == x
  {
    if t != [] && key(t[|t| - 1]) > key(x) {
      var u, y := t[..|t| - 1], t[|t| - 1];
      assert t == u + [y];
      InsertIsOrdered(u, x, key);
      var r := Insert(u, x, key);
      forall i | 0 <= i < |r|
        ensures key(r[i]) <= key(y)
      {
        assert r[i] in r;
      }
    }
  }

  /** The sort keeps its two promises. */
  lemma {:induction false} StableSortCorrect<T(!new)>(s: seq<T>, key: T -> int)
    ensures Ordered(StableSort(s, key), key) && StablePermutation(s, StableSort(s, key), key)
  {
    if s != [] {
      var u, x := s[..|s| - 1], s[|s| - 1];
      assert s == u + [x];
      StableSortCorrect(u, key);
      var t := StableSort(u, key);
      InsertIsOrdered(t, x, key);
      forall k
        ensures WithKey(Insert(t, x, key), key, k) == WithKey(s, key, k)
      {
        InsertIsStable(t, x, key, k);
        WithKeySnoc(t, x, key, k);
        WithKeySnoc(u, x, key, k);
      }
    }
  }

  /** The largest key of u is a key of t. */
  lemma LastKeyBound<T(!new)>(t: seq<T>, u: seq<T>, key: T -> int)
    requires Ordered(t, key) && StablePermutation(t, u, key) && u != []
    ensures t != [] && key(u[|u| - 1]) <= key(t[|t| - 1])
  {
    var y := u[|u| - 1];
    assert y in u && WithKey(t, key, key(y)) == WithKey(u, key, key(y));
    assert y in WithKey(u, key, key(y));
    assert y in t;
  }

  lemma DropLast<T(!new)>(t: seq<T>, u: seq<T>, key: T -> int)
    requires t != [] && u != [] && StablePermutation(t, u, key) && key(t[|t| - 1]) == key(u[|u| - 1])
    ensures t[|t| - 1] == u[|u| - 1] && StablePermutation(t[..|t| - 1], u[..|u| - 1], key)
  {
    var t', x, u', y := t[..|t| - 1], t[|t| - 1], u[..|u| - 1], u[|u| - 1];
    assert t == t' + [x] && u == u' + [y];
    WithKeySnoc(t', x, key, key(x));
    WithKeySnoc(u', y, key, key(x));
    assert WithKey(t, key, key(x)) == WithKey(u, key, key(x));
    SnocInjective(WithKey(t', key, key(x)), x, WithKey(u', key, key(x)), y);
    forall k
      ensures WithKey(u', key, k) == WithKey(t', key, k)
    {
      assert WithKey(t, key, k) == WithKey(u, key, k);
      WithKeySnoc(t', x, key, k);
      WithKeySnoc(u', y, key, k);
    }
  }

  /** Two ordered sequences with the same elements at every key are the same sequence. */
  lemma {:induction false} OrderedIsDetermined<T(!new)>(t: seq<T>, u: seq<T>, key: T -> int)
    requires Ordered(t, key) && Ordered(u, key) && StablePermutation(t, u, key)
    ensures t == u
    decreases |t|
  {
    if u != [] {
      LastKeyBound(t, u, key);
    }
    if t != [] {
      LastKeyBound(u, t, key);
      DropLast(t, u, key);
      OrderedIsDetermined(t[..|t| - 1], u[..|u| - 1], key);
      assert t == t[..|t| - 1] + [t[|t| - 1]] && u == u[..|u| - 1] + [u[|u| - 1]];
    }
  }

  lemma SnocInjective<T(!new)>(a: seq<T>, x: T, b: seq<T>, y: T)
    requires a + [x] == b + [y]
    ensures a == b && x == y
  {
    assert x == (a + [x])[|a|] && y == (b + [y])[|b|];
    assert a == (a + [x])[..|a|] && b == (b + [y])[..|b|];
  }

  /** Any result that keeps the two promises is this one. */
  lemma StableSortUnique<T(!new)>(s: seq<T>, t: seq<T>, key: T -> int)
    requires Ordered(t, key) && StablePermutation(s, t, key)
    ensures t == StableSort(s, key)
  {
    StableSortCorrect(s, key);
    assert forall k :: WithKey(t, key, k) == WithKey(StableSort(s, key), key, k);
    OrderedIsDetermined(t, StableSort(s, key), key);
  }

  // ---------- The sort as an arrangement of positions ----------

  /** p is an order of the positions below n: each once. */
  ghost predicate IsOrder(p: seq<nat>, n: nat) {
    && |p| == n && (forall i: nat :: i < n ==> i in p)
    && (forall j :: 0 <= j < |p| ==> p[j] < n)
    && (forall i, j :: 0 <= i < j < |p| ==> p[i] != p[j])
  }

  /** Keys ascend along p, and equal keys keep their original order. */
  ghost predicate Ascends<T(!new)>(t: seq<T>, key: T -> int, p: seq<nat>) {
    && |p| == |t|
    && forall i, j :: 0 <= i < j < |p| ==> key(t[i]) <= key(t[j]) && (key(t[i]) == key(t[j]) ==> p[i] < p[j])
  }

  /** t is s in the order p. */
  ghost predicate Picks<T(!new)>(s: seq<T>, t: seq<T>, p: seq<nat>) {
    |p| == |t| && forall j :: 0 <= j < |p| ==> p[j] < |s| && t[j] == s[p[j]]
  }

  /** An insertion goes after everything not larger and before everything larger. */
  lemma {:induction false} InsertsAt<T(!new)>(t: seq<T>, x: T, key: T -> int) returns (k: nat)
    requires Ordered(t, key)
    ensures k <= |t| && Insert(t, x, key) == t[..k] + [x] + t[k..]
    ensures forall i :: 0 <= i < k ==> key(t[i]) <= key(x)
    ensures forall i :: k <= i < |t| ==> key(t[i]) > key(x)
  {
    if t == [] || key(t[|t| - 1]) <= key(x) {
      k := |t|;
      assert t[..k] == t && t[k..] == [];
    } else {
      var u := t[..|t| - 1];
      k := InsertsAt(u, x, key);
      assert t[k..] == u[k..] + [t[|t| - 1]] && t[..k] == u[..k];
    }
  }

  /** The sort is an arrangement of positions: each once, keys ascending, ties in the original order. */
  lemma {:induction false} SortArranges<T(!new)>(s: seq<T>, key: T -> int) returns (p: seq<nat>)
    ensures IsOrder(p, |s|) && Picks(s, StableSort(s, key), p) && Ascends(StableSort(s, key), key, p)
  {
    if s == [] {
      p := [];
    } else {
      var u, x := s[..|s| - 1], s[|s| - 1];
      var q := SortArranges(u, key);
      StableSortCorrect(u, key);
      var t := StableSort(u, key);
      var k := InsertsAt(t, x, key);
      p := q[..k] + [|u|] + q[k..];
      OrderInserts(q, |u|, k);
      AscendsInserts(t, x, key, q, |u|, k);
      assert s == u + [x];
      PicksInserts(u, t, x, q, k);
    }
  }

  lemma OrderInserts(q: seq<nat>, n: nat, k: nat)
    requires IsOrder(q, n) && k <= n
    ensures IsOrder(q[..k] + [n] + q[k..], n + 1)
  {
    var p := q[..k] + [n] + q[k..];
    forall i: nat | i < n + 1
      ensures i in p
    {
      if i < n {
        assert i in q;
        var j :| 0 <= j < |q| && q[j] == i;
        assert p[if j < k then j else j + 1] == q[j];
      } else {
        assert p[k] == n;
      }
    }
  }

  lemma AscendsInserts<T(!new)>(t: seq<T>, x: T, key: T -> int, q: seq<nat>, n: nat, k: nat)
    requires IsOrder(q, n) && Ascends(t, key, q) && k <= |t|
    requires forall i :: 0 <= i < k ==> key(t[i]) <= key(x)
    requires forall i :: k <= i < |t| ==> key(t[i]) > key(x)
    ensures Ascends(t[..k] + [x] + t[k..], key, q[..k] + [n] + q[k..])
  {
    var r, p := t[..k] + [x] + t[k..], q[..k] + [n] + q[k..];
    forall i, j | 0 <= i < j < |p|
      ensures key(r[i]) <= key(r[j]) && (key(r[i]) == key(r[j]) ==> p[i] < p[j])
    {
      var a, b := if i <= k then i else i - 1, if j <= k then j else j - 1;
      assert i != k ==> r[i] == t[a] && p[i] == q[a];
      assert j != k ==> r[j] == t[b] && p[j] == q[b];
    }
  }

  lemma PicksInserts<T(!new)>(u: seq<T>, t: seq<T>, x: T, q: seq<nat>, k: nat)
    requires Picks(u, t, q) && k <= |t|
    ensures Picks(u + [x], t[..k] + [x] + t[k..], q[..k] + [|u|] + q[k..])
  {
  }

  // ---------- Filters as positions ----------

  /** The positions of the elements that satisfy f, ascending. */
  function Where<T(!new)>(s: seq<T>, f: T -> bool): (q: seq<nat>)
    ensures forall i :: 0 <= i < |q| ==> q[i] < |s|
  {
    if s == [] then []
    else
      var q, k := Where(s[..|s| - 1], f), |s| - 1;
      if f(s[k]) then q + [k] else q
  }

  lemma {:induction false} WhereAscends<T(!new)>(s: seq<T>, f: T -> bool)
    ensures forall i, j :: 0 <= i < j < |Where(s, f)| ==> Where(s, f)[i] < Where(s, f)[j]
  {
    if s != [] {
      WhereAscends(s[..|s| - 1], f);
    }
  }

  lemma {:induction false} WhereHolds<T(!new)>(s: seq<T>, f: T -> bool, i: nat)
    requires i < |s|
    ensures i in Where(s, f) <==> f(s[i])
  {
    var k := |s| - 1;
    if i < k {
      WhereHolds(s[..k], f, i);
    } else {
      assert forall j :: 0 <= j < |Where(s[..k], f)| ==> Where(s[..k], f)[j] < k;
    }
  }
}
