/** A table is its rows in key order. */
module Tables {
  import opened Keys

  datatype Row<K> = Row(key: K, value: seq<nat>)

  type HeightTable = seq<Row<nat>>
  type KeyTable = seq<Row<Key>>

  /** Rows come in the order of their heights. */
  predicate Ascending(rows: HeightTable) {
    forall i, j :: 0 <= i < j < |rows| ==> rows[i].key < rows[j].key
  }

  function KeysOf<K>(rows: seq<Row<K>>): (ks: seq<K>)
    ensures |ks| == |rows| && forall i :: 0 <= i < |rows| ==> ks[i] == rows[i].key
  {
    seq(|rows|, i requires 0 <= i < |rows| => rows[i].key)
  }

  function Itself(n: nat): nat {
    n
  }

  /** The rows whose height is not in `[lo, hi)`. */
  function Outside<K>(rows: seq<Row<K>>, height: K -> nat, lo: nat, hi: nat): seq<Row<K>> {
    if rows == [] then []
    else
      var last := rows[|rows| - 1];
      Outside(rows[..|rows| - 1], height, lo, hi) + if lo <= height(last.key) < hi then [] else [last]
  }

  /** How many rows have a height in `[lo, hi)`. */
  function Inside<K>(rows: seq<Row<K>>, height: K -> nat, lo: nat, hi: nat): nat {
    if rows == [] then 0
    else
      var last := rows[|rows| - 1];
      Inside(rows[..|rows| - 1], height, lo, hi) + if lo <= height(last.key) < hi then 1 else 0
  }

  lemma {:induction false} OutsideMembers<K>(rows: seq<Row<K>>, height: K -> nat, lo: nat, hi: nat, r: Row<K>)
    ensures r in Outside(rows, height, lo, hi) <==> r in rows && !(lo <= height(r.key) < hi)
    decreases |rows|
  {
    if rows != [] {
      var n := |rows| - 1;
      OutsideMembers(rows[..n], height, lo, hi, r);
      assert rows == rows[..n] + [rows[n]];
    }
  }

  lemma {:induction false} NothingOutside<K>(rows: seq<Row<K>>, height: K -> nat, lo: nat, hi: nat)
    requires rows == []
    ensures Outside(rows, height, lo, hi) == [] && Inside(rows, height, lo, hi) == 0
  {
  }

  lemma {:induction false} OutsideEmptyRange<K>(rows: seq<Row<K>>, height: K -> nat, lo: nat)
    ensures Outside(rows, height, lo, lo) == rows && Inside(rows, height, lo, lo) == 0
    decreases |rows|
  {
    hide Outside, Inside;
    if rows == [] {
      NothingOutside(rows, height, lo, lo);
    } else {
      var n := |rows| - 1;
      OutsideEmptyRange(rows[..n], height, lo);
      assert rows == rows[..n] + [rows[n]];
      OutsideAppend(rows[..n], rows[n], height, lo, lo);
    }
  }

  lemma {:induction false} OutsideAppend<K>(rows: seq<Row<K>>, r: Row<K>, height: K -> nat, lo: nat, hi: nat)
    ensures Outside(rows + [r], height, lo, hi) ==
            Outside(rows, height, lo, hi) + if lo <= height(r.key) < hi then [] else [r]
    ensures Inside(rows + [r], height, lo, hi) ==
            Inside(rows, height, lo, hi) + if lo <= height(r.key) < hi then 1 else 0
  {
    assert (rows + [r])[..|rows|] == rows;
  }

  /** What a later batch finds in `[lo, mid)` is what was there before `[mid, hi)` was removed. */
  lemma {:induction false} InsideJoined<K>(rows: seq<Row<K>>, height: K -> nat, lo: nat, mid: nat, hi: nat)
    requires lo <= mid <= hi
    ensures Inside(Outside(rows, height, mid, hi), height, lo, mid) + Inside(rows, height, mid, hi) ==
            Inside(rows, height, lo, hi)
    decreases |rows|
  {
    hide Outside, Inside;
    if rows == [] {
      NothingOutside(rows, height, lo, mid);
      NothingOutside(rows, height, mid, hi);
      NothingOutside(rows, height, lo, hi);
    } else {
      var n := |rows| - 1;
      InsideJoined(rows[..n], height, lo, mid, hi);
      assert rows == rows[..n] + [rows[n]];
      OutsideAppend(rows[..n], rows[n], height, mid, hi);
      OutsideAppend(rows[..n], rows[n], height, lo, hi);
      if mid <= height(rows[n].key) < hi {
        assert Outside(rows, height, mid, hi) == Outside(rows[..n], height, mid, hi);
      }
      OutsideAppend(Outside(rows[..n], height, mid, hi), rows[n], height, lo, mid);
    }
  }

  /** The rows counted in a range are the rows lost by removing it. */
  lemma {:induction false} InsideIsLoss<K>(rows: seq<Row<K>>, height: K -> nat, lo: nat, hi: nat)
    ensures Inside(rows, height, lo, hi) == |rows| - |Outside(rows, height, lo, hi)|
    decreases |rows|
  {
    if rows != [] {
      InsideIsLoss(rows[..|rows| - 1], height, lo, hi);
    }
  }

  lemma {:induction false} InsideSplit<K>(rows: seq<Row<K>>, height: K -> nat, lo: nat, mid: nat, hi: nat)
    requires lo <= mid <= hi
    ensures Inside(rows, height, lo, mid) + Inside(rows, height, mid, hi) == Inside(rows, height, lo, hi)
    decreases |rows|
  {
    if rows != [] {
      InsideSplit(rows[..|rows| - 1], height, lo, mid, hi);
    }
  }

  /**
   Removing `[a, hi)` and then `[lo, mid)` is removing `[lo, hi)` exactly when no row lies in the
   gap between them.
   */
  lemma {:induction false} OutsideWithGap<K>(rows: seq<Row<K>>, height: K -> nat, lo: nat, mid: nat, a: nat, hi: nat)
    requires lo <= mid <= a <= hi
    ensures Outside(Outside(rows, height, a, hi), height, lo, mid) == Outside(rows, height, lo, hi) <==>
            forall r :: r in rows ==> !(mid <= height(r.key) < a)
  {
    var twice, once := Outside(Outside(rows, height, a, hi), height, lo, mid), Outside(rows, height, lo, hi);
    if forall r :: r in rows ==> !(mid <= height(r.key) < a) {
      OutsideNoGap(rows, height, lo, mid, a, hi);
    } else {
      var r :| r in rows && mid <= height(r.key) < a;
      OutsideMembers(rows, height, lo, hi, r);
      OutsideMembers(rows, height, a, hi, r);
      OutsideMembers(Outside(rows, height, a, hi), height, lo, mid, r);
    }
  }

  lemma {:induction false} OutsideNoGap<K>(rows: seq<Row<K>>, height: K -> nat, lo: nat, mid: nat, a: nat, hi: nat)
    requires lo <= mid <= a <= hi && forall r :: r in rows ==> !(mid <= height(r.key) < a)
    ensures Outside(Outside(rows, height, a, hi), height, lo, mid) == Outside(rows, height, lo, hi)
    decreases |rows|
  {
    if rows != [] {
      var n := |rows| - 1;
      OutsideNoGap(rows[..n], height, lo, mid, a, hi);
      assert rows[n] in rows;
      if a <= height(rows[n].key) < hi {
        assert Outside(rows, height, a, hi) == Outside(rows[..n], height, a, hi);
      } else {
        OutsideAppend(Outside(rows[..n], height, a, hi), rows[n], height, lo, mid);
      }
    }
  }

  // ----- retain_in -----

  /** Visits the rows with keys in `[lo, hi)`, keeping them only on a dry run. */
  method RetainHeights(rows: HeightTable, lo: nat, hi: nat, dryRun: bool) returns (kept: HeightTable, visited: nat)
    ensures kept == if dryRun then rows else Outside(rows, Itself, lo, hi)
    ensures visited == Inside(rows, Itself, lo, hi)
  {
    kept, visited := [], 0;
    for i := 0 to |rows|
      invariant kept == if dryRun then rows[..i] else Outside(rows[..i], Itself, lo, hi)
      invariant visited == Inside(rows[..i], Itself, lo, hi)
    {
      assert rows[..i + 1] == rows[..i] + [rows[i]];
      OutsideAppend(rows[..i], rows[i], Itself, lo, hi);
      if lo <= rows[i].key < hi {
        visited := visited + 1;
        if dryRun {
          kept := kept + [rows[i]];
        }
      } else {
        kept := kept + [rows[i]];
      }
    }
    assert rows[..|rows|] == rows;
  }

  /**
   The same for composite keys between two bounds; with the least keys of two heights as bounds it
   selects by height.
   */
  method RetainKeys(rows: KeyTable, lo: nat, hi: nat, dryRun: bool) returns (kept: KeyTable, visited: nat)
    ensures kept == if dryRun then rows else Outside(rows, KeyHeight, lo, hi)
    ensures visited == Inside(rows, KeyHeight, lo, hi)
  {
    hide Between, FirstKey;
    kept, visited := [], 0;
    for i := 0 to |rows|
      invariant kept == if dryRun then rows[..i] else Outside(rows[..i], KeyHeight, lo, hi)
      invariant visited == Inside(rows[..i], KeyHeight, lo, hi)
    {
      assert rows[..i + 1] == rows[..i] + [rows[i]];
      OutsideAppend(rows[..i], rows[i], KeyHeight, lo, hi);
      CompositeRange(rows[i].key, lo, hi);
      if Between(rows[i].key, FirstKey(lo), FirstKey(hi)) {
        visited := visited + 1;
        if dryRun {
          kept := kept + [rows[i]];
        }
      } else {
        kept := kept + [rows[i]];
      }
    }
    assert rows[..|rows|] == rows;
  }
}
