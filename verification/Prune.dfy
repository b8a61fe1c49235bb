/** Pruning a height table below a retain height, at most a batch per call. */
module Prune {
  import opened Basics
  import opened Tables

  const PRUNE_BATCH_LIMIT := 300

  /** How many rows lie below a height; in an ascending table they come first. */
  function StaleCount(rows: HeightTable, retain: nat): (n: nat)
    ensures n <= |rows|
  {
    if rows == [] || rows[0].key >= retain then 0 else 1 + StaleCount(rows[1..], retain)
  }

  lemma {:induction false} StaleFirst(rows: HeightTable, retain: nat)
    requires Ascending(rows)
    ensures forall i :: 0 <= i < StaleCount(rows, retain) ==> rows[i].key < retain
    ensures forall i :: StaleCount(rows, retain) <= i < |rows| ==> rows[i].key >= retain
    decreases |rows|
  {
    if rows != [] && rows[0].key < retain {
      StaleFirst(rows[1..], retain);
      forall i | 0 < i < |rows|
        ensures rows[i] == rows[1..][i - 1]
      {
      }
    }
  }

  function WithoutHeight(rows: HeightTable, h: nat): HeightTable {
    if rows == [] then []
    else if rows[0].key == h then rows[1..]
    else [rows[0]] + WithoutHeight(rows[1..], h)
  }

  /**
   The keys are ascending heights below the bound, at most three hundred; their rows are gone and no
   others; nothing lower than a key is left, and with fewer than three hundred nothing below the bound.
   */
  ghost predicate TakesLowest(rows: HeightTable, retain: nat, keys: seq<nat>, after: HeightTable) {
    && |keys| <= 300
    && (forall i, j :: 0 <= i < j < |keys| ==> keys[i] < keys[j])
    && (forall k :: k in keys ==> k < retain && k in KeysOf(rows))
    && (forall r :: r in after <==> r in rows && r.key !in keys)
    && (forall r, k :: r in after && k in keys ==> k < r.key)
    && (|keys| < 300 ==> forall r :: r in after ==> r.key >= retain)
  }

  lemma {:induction false} KeyPlace(rows: HeightTable, n: nat, k: nat) returns (i: nat)
    requires n <= |rows| && k in KeysOf(rows[..n])
    ensures i < n && rows[i].key == k && k in KeysOf(rows)
  {
    i :| 0 <= i < n && KeysOf(rows[..n])[i] == k;
    assert KeysOf(rows)[i] == k;
  }

  lemma {:induction false} RowPlace(rows: HeightTable, n: nat, r: Row<nat>) returns (i: nat)
    requires n <= |rows| && r in rows[n..]
    ensures n <= i < |rows| && rows[i] == r
  {
    var j :| 0 <= j < |rows[n..]| && rows[n..][j] == r;
    i := n + j;
  }

  lemma {:induction false} LowestTaken(rows: HeightTable, retain: nat)
    requires Ascending(rows)
    ensures var n := Min(PRUNE_BATCH_LIMIT, StaleCount(rows, retain));
            TakesLowest(rows, retain, KeysOf(rows[..n]), rows[n..])
  {
    hide StaleCount, KeysOf;
    StaleFirst(rows, retain);
    var n := Min(PRUNE_BATCH_LIMIT, StaleCount(rows, retain));
    var keys, after := KeysOf(rows[..n]), rows[n..];
    forall k | k in keys
      ensures k < retain && k in KeysOf(rows)
    {
      var i := KeyPlace(rows, n, k);
    }
    forall r, k | r in after && k in keys
      ensures k < r.key
    {
      var i := KeyPlace(rows, n, k);
      var j := RowPlace(rows, n, r);
    }
    forall r | r in after && |keys| < 300
      ensures r.key >= retain
    {
      HeightCount(rows, n);
      var j := RowPlace(rows, n, r);
    }
    forall r: Row<nat>
      ensures r in after <==> r in rows && r.key !in keys
    {
      SplitRows(rows, n, r);
    }
    KeysAscend(rows, n);
  }

  lemma {:induction false} KeysAscend(rows: HeightTable, n: nat)
    requires Ascending(rows) && n <= |rows|
    ensures var keys := KeysOf(rows[..n]);
            |keys| == n && forall i, j :: 0 <= i < j < |keys| ==> keys[i] < keys[j]
  {
  }

  lemma {:induction false} SplitRows(rows: HeightTable, n: nat, r: Row<nat>)
    requires Ascending(rows) && n <= |rows|
    ensures r in rows[n..] <==> r in rows && r.key !in KeysOf(rows[..n])
  {
    if r in rows {
      var i :| 0 <= i < |rows| && rows[i] == r;
      if i < n {
        assert KeysOf(rows[..n])[i] == r.key;
      } else {
        assert rows[n..][i - n] == r;
      }
    }
  }

  /** Removes the lowest stale rows, at most a batch of them, and returns their heights. */
  method PruneBatch(rows: HeightTable, retain: nat) returns (keys: seq<nat>, after: HeightTable)
    requires Ascending(rows)
    ensures var n := Min(PRUNE_BATCH_LIMIT, StaleCount(rows, retain));
            keys == KeysOf(rows[..n]) && after == rows[n..]
    ensures TakesLowest(rows, retain, keys, after)
  {
    hide StaleCount, KeysOf, TakesLowest;
    LowestTaken(rows, retain);
    ghost var n := Min(PRUNE_BATCH_LIMIT, StaleCount(rows, retain));
    keys := HeightsBelow(rows, retain, PRUNE_BATCH_LIMIT);
    after := rows;
    if keys == [] {
      NoHeights(rows, n);
      return;
    }
    for i := 0 to |keys|
      invariant i <= |rows| && after == rows[i..]
    {
      HeightAt(rows, n, i);
      after := WithoutHeight(after, keys[i]);
      assert rows[i..][1..] == rows[i + 1..];
    }
    HeightCount(rows, n);
  }

  lemma {:induction false} NoHeights(rows: HeightTable, n: nat)
    requires n <= |rows| && KeysOf(rows[..n]) == []
    ensures rows == rows[n..]
  {
  }

  lemma {:induction false} HeightAt(rows: HeightTable, n: nat, i: nat)
    requires n <= |rows| && i < |KeysOf(rows[..n])|
    ensures i < n && KeysOf(rows[..n])[i] == rows[i].key
  {
  }

  lemma {:induction false} HeightCount(rows: HeightTable, n: nat)
    requires n <= |rows|
    ensures |KeysOf(rows[..n])| == n
  {
  }

  /** The lowest heights below a bound, at most `limit` of them. */
  method HeightsBelow(rows: HeightTable, retain: nat, limit: nat) returns (keys: seq<nat>)
    requires Ascending(rows)
    ensures keys == KeysOf(rows[..Min(limit, StaleCount(rows, retain))])
  {
    StaleFirst(rows, retain);
    keys := [];
    while |keys| < limit && |keys| < |rows| && rows[|keys|].key < retain
      invariant |keys| <= Min(limit, StaleCount(rows, retain))
      invariant forall i :: 0 <= i < |keys| ==> keys[i] == rows[i].key
    {
      keys := keys + [rows[|keys|].key];
    }
  }

  // ----- repeated calls -----

  /** What one call leaves. */
  function Pruned(rows: HeightTable, retain: nat): HeightTable {
    rows[Min(PRUNE_BATCH_LIMIT, StaleCount(rows, retain))..]
  }

  /** What one call returns. */
  function PrunedKeys(rows: HeightTable, retain: nat): seq<nat> {
    KeysOf(rows[..Min(PRUNE_BATCH_LIMIT, StaleCount(rows, retain))])
  }

  function PrunedTimes(rows: HeightTable, retain: nat, calls: nat): HeightTable {
    if calls == 0 then rows else Pruned(PrunedTimes(rows, retain, calls - 1), retain)
  }

  /** The heights returned by a number of calls, one list after the other. */
  function PrunedKeysTimes(rows: HeightTable, retain: nat, calls: nat): seq<nat> {
    if calls == 0 then []
    else PrunedKeysTimes(rows, retain, calls - 1) + PrunedKeys(PrunedTimes(rows, retain, calls - 1), retain)
  }

  lemma {:induction false} StaleAfter(rows: HeightTable, retain: nat, n: nat)
    requires n <= StaleCount(rows, retain)
    ensures StaleCount(rows[n..], retain) == StaleCount(rows, retain) - n
    decreases n
  {
    if n > 0 {
      StaleAfter(rows[1..], retain, n - 1);
      assert rows[1..][n - 1..] == rows[n..];
    }
  }

  /**
   After any number of calls with one retain height, the lists returned make up the lowest stale
   heights in ascending order, three hundred per call until there are none, and the rest of the
   table is untouched.
   */
  lemma {:induction false} PruneDrains(rows: HeightTable, retain: nat, calls: nat)
    ensures var n := Min(PRUNE_BATCH_LIMIT * calls, StaleCount(rows, retain));
            && PrunedTimes(rows, retain, calls) == rows[n..]
            && PrunedKeysTimes(rows, retain, calls) == KeysOf(rows[..n])
            && StaleCount(PrunedTimes(rows, retain, calls), retain) == StaleCount(rows, retain) - n
    decreases calls
  {
    hide StaleCount, KeysOf;
    if calls == 0 {
      assert rows[0..] == rows;
      NoRows(rows);
    } else {
      var before := Min(PRUNE_BATCH_LIMIT * (calls - 1), StaleCount(rows, retain));
      var n := Min(PRUNE_BATCH_LIMIT * calls, StaleCount(rows, retain));
      PruneDrains(rows, retain, calls - 1);
      StaleAfter(rows, retain, n);
      assert Min(PRUNE_BATCH_LIMIT, StaleCount(rows[before..], retain)) == n - before;
      assert rows[before..][n - before..] == rows[n..];
      JoinHeights(rows, before, n);
    }
  }

  lemma {:induction false} NoRows(rows: HeightTable)
    ensures KeysOf(rows[..0]) == []
  {
  }

  lemma {:induction false} JoinHeights(rows: HeightTable, a: nat, b: nat)
    requires a <= b <= |rows|
    ensures KeysOf(rows[..a]) + KeysOf(rows[a..][..b - a]) == KeysOf(rows[..b])
  {
    assert rows[a..][..b - a] == rows[a..b];
  }

  /** The number of calls that drain `n` stale rows. */
  function CallsFor(n: nat): nat {
    (n + PRUNE_BATCH_LIMIT - 1) / PRUNE_BATCH_LIMIT
  }

  /** That many calls remove exactly the rows below the retain height, and every one of them finds some. */
  lemma {:induction false} PruneCompletes(rows: HeightTable, retain: nat, calls: nat)
    requires Ascending(rows)
    ensures var n := StaleCount(rows, retain);
            && PrunedTimes(rows, retain, CallsFor(n)) == rows[n..]
            && PrunedKeysTimes(rows, retain, CallsFor(n)) == KeysOf(rows[..n])
            && (forall i :: 0 <= i < n ==> rows[i].key < retain)
            && (forall i :: n <= i < |rows| ==> rows[i].key >= retain)
            && (PrunedKeys(PrunedTimes(rows, retain, calls), retain) != [] <==> calls < CallsFor(n))
  {
    hide StaleCount, KeysOf, PrunedTimes, PrunedKeysTimes;
    var n := StaleCount(rows, retain);
    StaleFirst(rows, retain);
    PruneDrains(rows, retain, CallsFor(n));
    PruneDrains(rows, retain, calls);
    var left := PrunedTimes(rows, retain, calls);
    HeightCount(left, Min(PRUNE_BATCH_LIMIT, StaleCount(left, retain)));
  }
}
