/**
 * Ordering of query results by a string column (`orderBy(col, 'asc' | 'desc')`),
 * as an insertion sort on a sequence of rows. The database's collation is
 * modelled as code-point order. SQL leaves the order of rows with equal keys
 * unspecified; this sort happens to put later rows first, and no contract relies on it.
 */
module Sorting {
  import opened Text

  datatype Direction = Asc | Desc

  predicate InOrder<T>(a: T, b: T, key: T -> string, dir: Direction) {
    if dir == Asc then LexLe(key(a), key(b)) else LexLe(key(b), key(a))
  }

  predicate SortedBy<T>(s: seq<T>, key: T -> string, dir: Direction) {
    forall i, j :: 0 <= i < j < |s| ==> InOrder(s[i], s[j], key, dir)
  }

  lemma InOrderTotal<T>(a: T, b: T, key: T -> string, dir: Direction)
    ensures InOrder(a, b, key, dir) || InOrder(b, a, key, dir)
  {
    LexLeTotal(key(a), key(b));
  }

  lemma InOrderTransitive<T>(a: T, b: T, c: T, key: T -> string, dir: Direction)
    requires InOrder(a, b, key, dir) && InOrder(b, c, key, dir)
    ensures InOrder(a, c, key, dir)
  {
    if dir == Asc {
      LexLeTransitive(key(a), key(b), key(c));
    } else {
      LexLeTransitive(key(c), key(b), key(a));
    }
  }

  /** A row in order before every row of a sorted sequence can lead it. */
  lemma ConsSorted<T>(a: T, s: seq<T>, key: T -> string, dir: Direction)
    requires SortedBy(s, key, dir)
    requires forall j :: 0 <= j < |s| ==> InOrder(a, s[j], key, dir)
    ensures SortedBy([a] + s, key, dir)
  {
    var r := [a] + s;
    forall i, j | 0 <= i < j < |r| ensures InOrder(r[i], r[j], key, dir) {
      assert r[j] == s[j - 1];
      if i > 0 {
        assert r[i] == s[i - 1];
      }
    }
  }

  /** A row in order before `x` and before every row of `s` is in order before every row of a permutation of `s + [x]`. */
  lemma BoundBelowPermutation<T>(a: T, x: T, s: seq<T>, r: seq<T>, key: T -> string, dir: Direction)
    requires multiset(r) == multiset(s) + multiset{x}
    requires InOrder(a, x, key, dir)
    requires forall j :: 0 <= j < |s| ==> InOrder(a, s[j], key, dir)
    ensures forall j :: 0 <= j < |r| ==> InOrder(a, r[j], key, dir)
  {
    forall j | 0 <= j < |r| ensures InOrder(a, r[j], key, dir) {
      assert r[j] in multiset(r);
      if r[j] != x {
        assert r[j] in multiset(s);
        var k :| 0 <= k < |s| && s[k] == r[j];
      }
    }
  }

  /** Places `x` into a sorted sequence. */
  function Insert<T>(x: T, s: seq<T>, key: T -> string, dir: Direction): (r: seq<T>)
    requires SortedBy(s, key, dir)
    ensures SortedBy(r, key, dir)
    ensures multiset(r) == multiset(s) + multiset{x}
    ensures |r| == |s| + 1
  {
    if s == [] || InOrder(x, s[0], key, dir) then
      assert forall j :: 0 < j < |s| ==> InOrder(x, s[j], key, dir) by {
        forall j | 0 < j < |s| ensures InOrder(x, s[j], key, dir) {
          InOrderTransitive(x, s[0], s[j], key, dir);
        }
      }
      ConsSorted(x, s, key, dir);
      [x] + s
    else
      InOrderTotal(x, s[0], key, dir);
      var tail := s[1..];
      var rest := Insert(x, tail, key, dir);
      assert s == [s[0]] + tail;
      assert forall j :: 0 <= j < |tail| ==> InOrder(s[0], tail[j], key, dir) by {
        forall j | 0 <= j < |tail| ensures InOrder(s[0], tail[j], key, dir) {
          assert tail[j] == s[j + 1];
        }
      }
      BoundBelowPermutation(s[0], x, tail, rest, key, dir);
      ConsSorted(s[0], rest, key, dir);
      [s[0]] + rest
  }

  /** `orderBy(key, dir)`: a sorted permutation of the rows. */
  function Sort<T>(s: seq<T>, key: T -> string, dir: Direction): (r: seq<T>)
    ensures SortedBy(r, key, dir)
    ensures multiset(r) == multiset(s)
    ensures |r| == |s|
  {
    if s == [] then []
    else
      assert s == s[..|s| - 1] + [s[|s| - 1]];
      Insert(s[|s| - 1], Sort(s[..|s| - 1], key, dir), key, dir)
  }

  /** A sorted permutation holds exactly the input's elements. */
  lemma SortSameElements<T>(s: seq<T>, key: T -> string, dir: Direction)
    ensures forall x :: x in Sort(s, key, dir) <==> x in s
  {
    var r := Sort(s, key, dir);
    forall x ensures x in r <==> x in s {
      assert x in r <==> x in multiset(r);
      assert x in s <==> x in multiset(s);
    }
  }
}
