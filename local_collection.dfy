/**
 * The client-side keyed collections the components write to (`labelsCollection`,
 * `todosCollection`): rows in insertion order, unique by `key`. `insert` of a
 * key already present, `update` or `delete` of a key that is not, and an
 * `update` whose draft changes the key all throw in the library; here they
 * report `ok == false` and change nothing. Syncing with the server is not
 * part of this model.
 */
module LocalCollection {
  import opened Records
  import opened Seqs

  /** The rows with `f` applied to the one whose key is `k`. */
  function UpdatedRows<T>(rows: seq<T>, key: T -> int, k: int, f: T -> T): (r: seq<T>)
    ensures |r| == |rows|
    ensures forall i :: 0 <= i < |rows| ==> r[i] == (if key(rows[i]) == k then f(rows[i]) else rows[i])
  {
    seq(|rows|, i requires 0 <= i < |rows| => if key(rows[i]) == k then f(rows[i]) else rows[i])
  }

  /** The rows without the one whose key is `k`, the others in their order. */
  function RemovedRows<T(==, !new)>(rows: seq<T>, key: T -> int, k: int): (r: seq<T>)
    ensures forall x :: x in r <==> x in rows && key(x) != k
    ensures |r| <= |rows|
  {
    FilterMembers(rows, KeyIsNot(key, k));
    Filter(rows, KeyIsNot(key, k))
  }

  function KeyIsNot<T>(key: T -> int, k: int): T -> bool {
    (x: T) => key(x) != k
  }

  /** No two rows share a key. */
  ghost predicate KeysUnique<T>(rows: seq<T>, key: T -> int) {
    forall i, j :: 0 <= i < j < |rows| ==> key(rows[i]) != key(rows[j])
  }

  class Collection<T(==, !new)> {
    const key: T -> int
    var rows: seq<T>

    ghost predicate Valid()
      reads this
    {
      KeysUnique(rows, key)
    }

    function Keys(): (ks: set<int>)
      reads this
      ensures forall k :: k in ks <==> exists x :: x in rows && key(x) == k
    {
      set x | x in rows :: key(x)
    }

    /** The row stored under `k`, if any. */
    function Get(k: int): (r: Option<T>)
      reads this
      requires Valid()
      ensures r.Some? <==> k in Keys()
      ensures r.Some? ==> r.value in rows && key(r.value) == k
    {
      if k in Keys() then
        var x :| x in rows && key(x) == k; Some(x)
      else None
    }

    constructor (key: T -> int)
      ensures Valid() && this.key == key && rows == []
    {
      this.key := key;
      rows := [];
    }

    /** `collection.insert(item)` */
    method Insert(item: T) returns (ok: bool)
      requires Valid()
      modifies this
      ensures Valid()
      ensures ok <==> key(item) !in old(Keys())
      ensures ok ==> rows == old(rows) + [item]
      ensures !ok ==> rows == old(rows)
    {
      ok := key(item) !in Keys();
      if ok {
        assert forall i :: 0 <= i < |rows| ==> key(rows[i]) != key(item) by {
          forall i | 0 <= i < |rows| ensures key(rows[i]) != key(item) {
            assert rows[i] in rows;
          }
        }
        rows := rows + [item];
      }
    }

    /** `collection.update(k, draft => ...)`: `f` stands for the draft mutation. */
    method Update(k: int, f: T -> T) returns (ok: bool)
      requires Valid()
      modifies this
      ensures Valid()
      ensures ok <==> k in old(Keys()) && key(f(old(Get(k)).value)) == k
      ensures ok ==> rows == UpdatedRows(old(rows), key, k, f)
      ensures !ok ==> rows == old(rows)
    {
      var current := Get(k);
      if current.None? || key(f(current.value)) != k {
        return false;
      }
      forall i | 0 <= i < |rows| && key(rows[i]) == k ensures rows[i] == current.value {
        var j :| 0 <= j < |rows| && rows[j] == current.value;
        if i != j {
          assert key(rows[i]) == key(rows[j]);
        }
      }
      rows := UpdatedRows(rows, key, k, f);
      ok := true;
    }

    /** `collection.delete(k)` */
    method Delete(k: int) returns (ok: bool)
      requires Valid()
      modifies this
      ensures Valid()
      ensures ok <==> k in old(Keys())
      ensures ok ==> rows == RemovedRows(old(rows), key, k)
      ensures !ok ==> rows == old(rows)
    {
      ok := k in Keys();
      if ok {
        RemovedRowsKeepsKeysUnique(rows, key, k);
        rows := RemovedRows(rows, key, k);
      }
    }
  }

  /** Removing a row keeps the remaining keys unique. */
  lemma {:induction false} RemovedRowsKeepsKeysUnique<T(!new)>(rows: seq<T>, key: T -> int, k: int)
    requires KeysUnique(rows, key)
    ensures KeysUnique(RemovedRows(rows, key, k), key)
  {
    if rows != [] {
      var rest := RemovedRows(rows[1..], key, k);
      RemovedRowsKeepsKeysUnique(rows[1..], key, k);
      var r := RemovedRows(rows, key, k);
      if key(rows[0]) != k {
        assert r == [rows[0]] + rest;
        forall i, j | 0 <= i < j < |r| ensures key(r[i]) != key(r[j]) {
          if i == 0 {
            assert r[j] == rest[j - 1] && rest[j - 1] in rows[1..];
            var m :| 0 <= m < |rows[1..]| && rows[1..][m] == rest[j - 1];
            assert rows[m + 1] == r[j] && r[0] == rows[0];
            assert key(rows[0]) != key(rows[m + 1]);
          } else {
            assert r[i] == rest[i - 1] && r[j] == rest[j - 1];
            assert key(rest[i - 1]) != key(rest[j - 1]);
          }
        }
      } else {
        assert r == rest;
      }
    }
  }
}
