/** The bounded table of pending proposal parts, keyed by height, round and block hash. */
module Pending {
  import opened Basics
  import opened Keys
  import opened Tables
  import opened Records

  ghost predicate Sorted(rows: KeyTable) {
    forall i, j :: 0 <= i < j < |rows| ==> KeyLess(rows[i].key, rows[j].key)
  }

  // ----- operations on values -----

  /** Stores the parts unless their height is too far ahead or the table is full. */
  function Inserted(rows: KeyTable, key: Key, value: Bytes, max: nat, current: nat): KeyTable
    requires max > 0
  {
    if key.height > current + (max - 1) || |rows| >= max then rows else Put(rows, key, value, KeyLess)
  }

  function Removed(rows: KeyTable, key: Key): KeyTable {
    if rows == [] then []
    else
      var last := rows[|rows| - 1];
      Removed(rows[..|rows| - 1], key) + if last.key == key then [] else [last]
  }

  /** The rows above a height. */
  function Above(rows: KeyTable, current: nat): KeyTable {
    if rows == [] then []
    else
      var last := rows[|rows| - 1];
      Above(rows[..|rows| - 1], current) + if last.key.height > current then [last] else []
  }

  datatype Class = Stale | Within | TooFar

  function ClassOf(key: Key, max: nat, current: nat): Class
    requires max > 0
  {
    if key.height < current then Stale else if key.height <= current + (max - 1) then Within else TooFar
  }

  function OfClass(rows: KeyTable, kind: Class, max: nat, current: nat): KeyTable
    requires max > 0
  {
    if rows == [] then []
    else
      var last := rows[|rows| - 1];
      OfClass(rows[..|rows| - 1], kind, max, current) + if ClassOf(last.key, max, current) == kind then [last] else []
  }

  /** The lowest in-range rows, as many as the limit allows. */
  function Enforced(rows: KeyTable, max: nat, current: nat): KeyTable
    requires max > 0
  {
    var within := OfClass(rows, Within, max, current);
    within[..Min(max, |within|)]
  }

  /** Stale keys, then keys too far ahead, then the in-range keys beyond the limit. */
  function Dropped(rows: KeyTable, max: nat, current: nat): seq<Key>
    requires max > 0
  {
    var within := OfClass(rows, Within, max, current);
    KeysOf(OfClass(rows, Stale, max, current)) + KeysOf(OfClass(rows, TooFar, max, current)) +
    KeysOf(within[Min(max, |within|)..])
  }

  // ----- selections of a sorted table -----

  lemma {:induction false} OfClassMembers(rows: KeyTable, kind: Class, max: nat, current: nat, r: Row<Key>)
    requires max > 0
    ensures r in OfClass(rows, kind, max, current) <==> r in rows && ClassOf(r.key, max, current) == kind
    decreases |rows|
  {
    hide ClassOf;
    if rows != [] {
      var n := |rows| - 1;
      OfClassMembers(rows[..n], kind, max, current, r);
      assert rows == rows[..n] + [rows[n]];
    }
  }

  lemma {:induction false} OfClassSorted(rows: KeyTable, kind: Class, max: nat, current: nat)
    requires max > 0 && Sorted(rows)
    ensures Sorted(OfClass(rows, kind, max, current))
    decreases |rows|
  {
    hide ClassOf, KeyLess;
    if rows != [] {
      var n := |rows| - 1;
      OfClassSorted(rows[..n], kind, max, current);
      var before := OfClass(rows[..n], kind, max, current);
      forall i | 0 <= i < |before|
        ensures KeyLess(before[i].key, rows[n].key)
      {
        OfClassMembers(rows[..n], kind, max, current, before[i]);
        var k :| 0 <= k < n && rows[k] == before[i];
      }
    }
  }

  lemma {:induction false} OfClassPrefix(rows: KeyTable, kind: Class, max: nat, current: nat, n: nat)
    requires max > 0 && n <= |rows|
    ensures OfClass(rows[..n], kind, max, current) <= OfClass(rows, kind, max, current)
    decreases |rows|
  {
    hide ClassOf;
    if n < |rows| {
      var m := |rows| - 1;
      assert rows[..m][..n] == rows[..n];
      OfClassPrefix(rows[..m], kind, max, current, n);
    } else {
      assert rows[..n] == rows;
    }
  }

  lemma {:induction false} SortedDistinct(rows: KeyTable, i: nat, j: nat)
    requires Sorted(rows) && i < |rows| && j < |rows| && rows[i].key == rows[j].key
    ensures i == j
  {
    KeyOrderTotal(rows[i].key, rows[i].key);
  }

  // ----- removing by key -----

  /** Removing a key takes out the rows under it and no others. */
  lemma {:induction false} RemovedMembers(rows: KeyTable, key: Key, r: Row<Key>)
    ensures r in Removed(rows, key) <==> r in rows && r.key != key
    decreases |rows|
  {
    if rows != [] {
      var n := |rows| - 1;
      RemovedMembers(rows[..n], key, r);
      assert rows == rows[..n] + [rows[n]];
    }
  }

  lemma {:induction false} RemovedAbsent(rows: KeyTable, key: Key)
    requires key !in KeysOf(rows)
    ensures Removed(rows, key) == rows
    decreases |rows|
  {
    if rows != [] {
      var n := |rows| - 1;
      assert KeysOf(rows)[n] == rows[n].key && KeysOf(rows) == KeysOf(rows[..n]) + [rows[n].key];
      RemovedAbsent(rows[..n], key);
      assert rows == rows[..n] + [rows[n]];
    }
  }

  /** In a sorted table that is at most one row. */
  lemma {:induction false} RemovedSize(rows: KeyTable, key: Key)
    requires Sorted(rows)
    ensures |Removed(rows, key)| == |rows| - if key in KeysOf(rows) then 1 else 0
    decreases |rows|
  {
    hide KeyLess;
    if rows != [] {
      var n := |rows| - 1;
      RemovedSize(rows[..n], key);
      assert KeysOf(rows) == KeysOf(rows[..n]) + [rows[n].key];
      if rows[n].key == key {
        forall i | 0 <= i < n
          ensures rows[i].key != key
        {
          KeyOrderTotal(rows[i].key, rows[n].key);
        }
        RemovedAbsent(rows[..n], key);
      }
    }
  }

  lemma {:induction false} AboveMembers(rows: KeyTable, current: nat, r: Row<Key>)
    ensures r in Above(rows, current) <==> r in rows && r.key.height > current
    decreases |rows|
  {
    if rows != [] {
      var n := |rows| - 1;
      AboveMembers(rows[..n], current, r);
      assert rows == rows[..n] + [rows[n]];
    }
  }

  function RemovedAll(rows: KeyTable, keys: seq<Key>): KeyTable {
    if keys == [] then rows else Removed(RemovedAll(rows, keys[..|keys| - 1]), keys[|keys| - 1])
  }

  function Except(rows: KeyTable, keys: seq<Key>): KeyTable {
    if rows == [] then []
    else
      var last := rows[|rows| - 1];
      Except(rows[..|rows| - 1], keys) + if last.key in keys then [] else [last]
  }

  lemma {:induction false} ExceptNothing(rows: KeyTable)
    ensures Except(rows, []) == rows
    decreases |rows|
  {
    if rows != [] {
      ExceptNothing(rows[..|rows| - 1]);
      assert rows == rows[..|rows| - 1] + [rows[|rows| - 1]];
    }
  }

  lemma {:induction false} RemovedAppend(rows: KeyTable, r: Row<Key>, key: Key)
    ensures Removed(rows + [r], key) == Removed(rows, key) + if r.key == key then [] else [r]
  {
    assert (rows + [r])[..|rows|] == rows;
  }

  lemma {:induction false} ExceptOneMore(rows: KeyTable, keys: seq<Key>, key: Key)
    ensures Removed(Except(rows, keys), key) == Except(rows, keys + [key])
    decreases |rows|
  {
    if rows != [] {
      var n := |rows| - 1;
      ExceptOneMore(rows[..n], keys, key);
      if rows[n].key in keys {
        assert Except(rows, keys) == Except(rows[..n], keys);
      } else {
        RemovedAppend(Except(rows[..n], keys), rows[n], key);
      }
    }
  }

  lemma {:induction false} RemovedAllExcept(rows: KeyTable, keys: seq<Key>)
    ensures RemovedAll(rows, keys) == Except(rows, keys)
    decreases |keys|
  {
    if keys == [] {
      ExceptNothing(rows);
    } else {
      var n := |keys| - 1;
      RemovedAllExcept(rows, keys[..n]);
      ExceptOneMore(rows, keys[..n], keys[n]);
      assert keys == keys[..n] + [keys[n]];
    }
  }

  /** A key is dropped exactly when it is out of range or its place among the in-range keys is beyond the limit. */
  lemma {:induction false} DroppedKeys(rows: KeyTable, max: nat, current: nat, n: nat)
    requires max > 0 && Sorted(rows) && n < |rows|
    ensures var before := OfClass(rows[..n], Within, max, current);
            rows[n].key in Dropped(rows, max, current) <==>
            ClassOf(rows[n].key, max, current) != Within || |before| >= max
  {
    hide ClassOf, KeyLess, OfClass;
    var within := OfClass(rows, Within, max, current);
    var stale, far := OfClass(rows, Stale, max, current), OfClass(rows, TooFar, max, current);
    OfClassSorted(rows, Within, max, current);
    var k := rows[n].key;
    ClassKeys(rows, Stale, max, current, n);
    ClassKeys(rows, TooFar, max, current, n);
    var cut := Min(max, |within|);
    if ClassOf(k, max, current) == Within {
      PlaceAmong(rows, Within, max, current, n);
      var at := |OfClass(rows[..n], Within, max, current)|;
      if at >= cut {
        assert KeysOf(within[cut..])[at - cut] == k;
      } else {
        forall i | cut <= i < |within|
          ensures within[i].key != k
        {
          if within[i].key == k {
            SortedDistinct(within, i, at);
          }
        }
      }
    } else {
      assert k in KeysOf(stale) || k in KeysOf(far);
    }
  }

  /** A row's key is among the keys of a class exactly when it is of that class. */
  lemma {:induction false} ClassKeys(rows: KeyTable, kind: Class, max: nat, current: nat, n: nat)
    requires max > 0 && n < |rows|
    ensures rows[n].key in KeysOf(OfClass(rows, kind, max, current)) <==> ClassOf(rows[n].key, max, current) == kind
  {
    hide ClassOf, OfClass;
    var some := OfClass(rows, kind, max, current);
    OfClassMembers(rows, kind, max, current, rows[n]);
    if rows[n].key in KeysOf(some) {
      var i :| 0 <= i < |some| && some[i].key == rows[n].key;
      OfClassMembers(rows, kind, max, current, some[i]);
    }
    if rows[n] in some {
      var i :| 0 <= i < |some| && some[i] == rows[n];
      assert KeysOf(some)[i] == rows[n].key;
    }
  }

  /** The place of a row among those of its class. */
  lemma {:induction false} PlaceAmong(rows: KeyTable, kind: Class, max: nat, current: nat, n: nat)
    requires max > 0 && n < |rows| && ClassOf(rows[n].key, max, current) == kind
    ensures var at := |OfClass(rows[..n], kind, max, current)|;
            at < |OfClass(rows, kind, max, current)| && OfClass(rows, kind, max, current)[at] == rows[n]
  {
    hide ClassOf;
    OfClassPrefix(rows, kind, max, current, n + 1);
    assert rows[..n + 1][..n] == rows[..n];
  }

  /** Removing the dropped keys one by one leaves the lowest in-range rows. */
  lemma {:induction false} DroppingEnforces(rows: KeyTable, max: nat, current: nat)
    requires max > 0 && Sorted(rows)
    ensures RemovedAll(rows, Dropped(rows, max, current)) == Enforced(rows, max, current)
  {
    hide Dropped, Sorted, OfClass, Except, RemovedAll;
    RemovedAllExcept(rows, Dropped(rows, max, current));
    ExceptPrefix(rows, max, current, |rows|);
    assert rows[..|rows|] == rows;
  }

  lemma {:induction false} ExceptPrefix(rows: KeyTable, max: nat, current: nat, n: nat)
    requires max > 0 && Sorted(rows) && n <= |rows|
    ensures Except(rows[..n], Dropped(rows, max, current)) == Enforced(rows[..n], max, current)
    decreases n
  {
    hide Dropped, Sorted, ClassOf;
    if n > 0 {
      var m := n - 1;
      ExceptPrefix(rows, max, current, m);
      DroppedKeys(rows, max, current, m);
      assert rows[..n][..m] == rows[..m];
      var before, after := OfClass(rows[..m], Within, max, current), OfClass(rows[..n], Within, max, current);
      if ClassOf(rows[m].key, max, current) == Within {
        assert after == before + [rows[m]];
      } else {
        assert after == before;
      }
    }
  }
}
