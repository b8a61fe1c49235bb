/** Rewriting the records of one table with a migrator. */
module Records {
  import opened Basics
  import opened Tables

  type Bytes = seq<nat>

  /** Which records a migrator wants to rewrite, and how; rewriting may fail. */
  datatype Migrator = Migrator(needs: Bytes -> bool, migrate: Bytes -> Result<Bytes, string>)

  const BATCH_SIZE := 1000

  /** The record makes the migration stop. */
  predicate Fails(m: Migrator, v: Bytes) {
    m.needs(v) && m.migrate(v).Err?
  }

  /** The record as the migration leaves it. */
  function Fixed(m: Migrator, v: Bytes): Bytes {
    if m.needs(v) && m.migrate(v).Ok? then m.migrate(v).value else v
  }

  // ----- the simple map -----

  /** The rows with every record rewritten that needs it, all keys and all other records as they were. */
  function Upgraded<K>(m: Migrator, rows: seq<Row<K>>): (r: seq<Row<K>>)
    ensures |r| == |rows|
  {
    seq(|rows|, i requires 0 <= i < |rows| => Row(rows[i].key, Fixed(m, rows[i].value)))
  }

  /** How many records need rewriting. */
  function Needing<K>(m: Migrator, rows: seq<Row<K>>): (n: nat)
    ensures n <= |rows|
  {
    if rows == [] then 0
    else Needing(m, rows[..|rows| - 1]) + if m.needs(rows[|rows| - 1].value) then 1 else 0
  }

  /** The position of the first record that makes the migration stop, or the number of rows. */
  function FirstFailing<K>(m: Migrator, rows: seq<Row<K>>): (k: nat)
    ensures k <= |rows|
    ensures k < |rows| ==> Fails(m, rows[k].value)
    ensures forall i :: 0 <= i < k ==> !Fails(m, rows[i].value)
  {
    if rows == [] then 0
    else
      var k := FirstFailing(m, rows[..|rows| - 1]);
      if k < |rows| - 1 then k else if Fails(m, rows[|rows| - 1].value) then k else |rows|
  }

  predicate Clean<K>(m: Migrator, rows: seq<Row<K>>) {
    FirstFailing(m, rows) == |rows|
  }

  /** The table with its first `k` records rewritten. */
  function Partly<K>(m: Migrator, rows: seq<Row<K>>, k: nat): seq<Row<K>>
    requires k <= |rows|
  {
    Upgraded(m, rows[..k]) + rows[k..]
  }

  /** How far a scan that commits every thousand records gets. */
  function BatchedReach<K>(m: Migrator, rows: seq<Row<K>>): (k: nat)
    ensures k <= |rows|
  {
    var f := FirstFailing(m, rows);
    if f == |rows| then f else f - f % BATCH_SIZE
  }

  /** How far a scan in one transaction gets. */
  function WholeReach<K>(m: Migrator, rows: seq<Row<K>>): (k: nat)
    ensures k <= |rows|
  {
    if Clean(m, rows) then |rows| else 0
  }

  // ----- what it means -----

  /** The positions of the records the migrator wants. */
  ghost function Wanted<K>(m: Migrator, rows: seq<Row<K>>): set<nat> {
    set i: nat | i < |rows| && m.needs(rows[i].value)
  }

  lemma {:induction false} NeedingCounts<K>(m: Migrator, rows: seq<Row<K>>)
    ensures Needing(m, rows) == |Wanted(m, rows)|
    decreases |rows|
  {
    if rows == [] {
      assert Wanted(m, rows) == {};
    } else {
      var n := |rows| - 1;
      NeedingCounts(m, rows[..n]);
      var before := Wanted(m, rows[..n]);
      assert n !in before;
      assert Wanted(m, rows) == if m.needs(rows[n].value) then before + {n} else before;
    }
  }

  /** Every record the migrator wants can be rewritten. */
  ghost predicate Migratable<K>(m: Migrator, rows: seq<Row<K>>) {
    forall i :: 0 <= i < |rows| && m.needs(rows[i].value) ==> m.migrate(rows[i].value).Ok?
  }

  /** In the first `k` rows the records the migrator wants are its results; all else is the same. */
  ghost predicate Rewritten<K>(m: Migrator, before: seq<Row<K>>, after: seq<Row<K>>, k: nat) {
    && |after| == |before|
    && (forall i :: 0 <= i < |before| ==> after[i].key == before[i].key)
    && (forall i :: 0 <= i < |before| && i < k && m.needs(before[i].value) ==>
          m.migrate(before[i].value) == Ok(after[i].value))
    && (forall i :: 0 <= i < |before| && (k <= i || !m.needs(before[i].value)) ==> after[i].value == before[i].value)
  }

  /** The first record that cannot be rewritten lies in the thousand records from position `k` on. */
  ghost predicate StuckAfter<K>(m: Migrator, rows: seq<Row<K>>, k: nat) {
    && k % 1000 == 0
    && exists f :: k <= f < |rows| && f < k + 1000 && m.needs(rows[f].value) && m.migrate(rows[f].value).Err? &&
                   Migratable(m, rows[..f])
  }

  lemma {:induction false} CleanMeans<K>(m: Migrator, rows: seq<Row<K>>)
    ensures Clean(m, rows) <==> Migratable(m, rows)
  {
    if !Clean(m, rows) {
      assert Fails(m, rows[FirstFailing(m, rows)].value);
    }
  }

  lemma {:induction false} PartlyKeys<K>(m: Migrator, rows: seq<Row<K>>, k: nat)
    requires k <= |rows|
    ensures |Partly(m, rows, k)| == |rows|
    ensures forall i :: 0 <= i < |rows| ==> Partly(m, rows, k)[i].key == rows[i].key
    ensures forall i :: 0 <= i < k ==> Partly(m, rows, k)[i].value == Fixed(m, rows[i].value)
    ensures forall i :: k <= i < |rows| ==> Partly(m, rows, k)[i] == rows[i]
    ensures Partly(m, rows, k)[k..] == rows[k..]
  {
  }

  lemma {:induction false} NotFailing<K>(m: Migrator, rows: seq<Row<K>>, i: nat)
    requires i < FirstFailing(m, rows)
    ensures !Fails(m, rows[i].value)
  {
  }

  lemma {:induction false} PartlyRewrites<K>(m: Migrator, rows: seq<Row<K>>, k: nat)
    requires k <= FirstFailing(m, rows)
    ensures Rewritten(m, rows, Partly(m, rows, k), k)
  {
    hide FirstFailing, Partly;
    PartlyKeys(m, rows, k);
    forall i | 0 <= i < k
      ensures !Fails(m, rows[i].value)
    {
      NotFailing(m, rows, i);
    }
  }

  lemma {:induction false} ReachMeans<K>(m: Migrator, rows: seq<Row<K>>)
    requires !Clean(m, rows)
    ensures StuckAfter(m, rows, BatchedReach(m, rows)) && BatchedReach(m, rows) <= FirstFailing(m, rows)
  {
    var f := FirstFailing(m, rows);
    var k := BatchedReach(m, rows);
    assert Fails(m, rows[f].value);
    assert Migratable(m, rows[..f]) by {
      forall i | 0 <= i < f && m.needs(rows[..f][i].value)
        ensures m.migrate(rows[..f][i].value).Ok?
      {
        assert rows[..f][i] == rows[i] && !Fails(m, rows[i].value);
      }
    }
  }

  // ----- writing records back by key -----

  predicate HeightLess(a: nat, b: nat) {
    a < b
  }

  /** Rows have distinct keys, in order. */
  ghost predicate Ordered<K>(rows: seq<Row<K>>, less: (K, K) -> bool) {
    forall i, j :: 0 <= i < j < |rows| ==> rows[i].key != rows[j].key && !less(rows[j].key, rows[i].key)
  }

  /** Stores a record under its key: replacing the row there is, or at its place in the order. */
  function Put<K(==)>(rows: seq<Row<K>>, key: K, value: Bytes, less: (K, K) -> bool): seq<Row<K>> {
    if rows == [] then [Row(key, value)]
    else if rows[0].key == key then [Row(key, value)] + rows[1..]
    else if less(key, rows[0].key) then [Row(key, value)] + rows
    else [rows[0]] + Put(rows[1..], key, value, less)
  }

  function PutAll<K(==)>(rows: seq<Row<K>>, updates: seq<(K, Bytes)>, less: (K, K) -> bool): seq<Row<K>> {
    if updates == [] then rows
    else
      var last := updates[|updates| - 1];
      Put(PutAll(rows, updates[..|updates| - 1], less), last.0, last.1, less)
  }

  /** The records that need rewriting, rewritten, with their keys. */
  function Updates<K>(m: Migrator, rows: seq<Row<K>>): seq<(K, Bytes)> {
    if rows == [] then []
    else
      var last := rows[|rows| - 1];
      Updates(m, rows[..|rows| - 1]) + if m.needs(last.value) then [(last.key, Fixed(m, last.value))] else []
  }

  lemma {:induction false} OrderedTail<K>(rows: seq<Row<K>>, i: nat, less: (K, K) -> bool)
    requires Ordered(rows, less) && 0 < i < |rows|
    ensures rows[0].key != rows[i].key && !less(rows[i].key, rows[0].key)
    ensures Ordered(rows[1..], less)
  {
  }

  lemma {:induction false} PutExisting<K>(rows: seq<Row<K>>, i: nat, value: Bytes, less: (K, K) -> bool)
    requires Ordered(rows, less) && i < |rows|
    ensures Put(rows, rows[i].key, value, less) == rows[i := Row(rows[i].key, value)]
    decreases i
  {
    hide Ordered;
    if i > 0 {
      OrderedTail(rows, i, less);
      var rest := rows[1..];
      assert rest[i - 1] == rows[i];
      PutExisting(rest, i - 1, value, less);
      assert Put(rows, rows[i].key, value, less) == [rows[0]] + rest[i - 1 := Row(rows[i].key, value)];
    }
  }

  lemma {:induction false} SameKeysOrdered<K>(rows: seq<Row<K>>, other: seq<Row<K>>, less: (K, K) -> bool)
    requires Ordered(rows, less) && |rows| == |other| && forall i :: 0 <= i < |rows| ==> rows[i].key == other[i].key
    ensures Ordered(other, less)
  {
  }

  lemma {:induction false} NeedingAppend<K>(m: Migrator, rows: seq<Row<K>>, r: Row<K>)
    ensures Needing(m, rows + [r]) == Needing(m, rows) + if m.needs(r.value) then 1 else 0
    ensures Updates(m, rows + [r]) == Updates(m, rows) + if m.needs(r.value) then [(r.key, Fixed(m, r.value))] else []
    ensures |Updates(m, rows + [r])| == |Updates(m, rows)| + if m.needs(r.value) then 1 else 0
    ensures Clean(m, rows + [r]) <==> Clean(m, rows) && !Fails(m, r.value)
  {
    assert (rows + [r])[..|rows|] == rows;
  }

  lemma {:induction false} PutLast<K>(rows: seq<Row<K>>, updates: seq<(K, Bytes)>, key: K, value: Bytes,
          less: (K, K) -> bool)
    ensures PutAll(rows, updates + [(key, value)], less) == Put(PutAll(rows, updates, less), key, value, less)
  {
    assert (updates + [(key, value)])[..|updates|] == updates;
  }

  /** Row `e` of a table whose slice `[k, e)` is rewritten, rewritten as well. */
  lemma {:induction false} UpgradeOneMore<K>(m: Migrator, rows: seq<Row<K>>, k: nat, e: nat)
    requires k <= e < |rows|
    ensures var before := rows[..k] + Upgraded(m, rows[k..e]) + rows[e..];
            |before| == |rows| && before[e].key == rows[e].key &&
            (forall i :: 0 <= i < |rows| ==> rows[i].key == before[i].key)
            && before[e := Row(rows[e].key, Fixed(m, rows[e].value))] ==
               rows[..k] + Upgraded(m, rows[k..e + 1]) + rows[e + 1..]
  {
  }

  /** Writing back the updates of a slice rewrites exactly that slice. */
  lemma {:induction false} PutAllUpgrades<K>(m: Migrator, rows: seq<Row<K>>, k: nat, end: nat, less: (K, K) -> bool)
    requires Ordered(rows, less) && k <= end <= |rows|
    ensures PutAll(rows, Updates(m, rows[k..end]), less) == rows[..k] + Upgraded(m, rows[k..end]) + rows[end..]
    decreases end
  {
    hide Ordered, Updates, PutAll, Put, Upgraded;
    if k == end {
      assert rows[k..end] == [] && rows[..k] + rows[k..] == rows;
      NothingToPut(m, rows, rows[k..end], less);
      assert rows[..k] + Upgraded(m, rows[k..end]) + rows[end..] == rows;
    } else {
      var e := end - 1;
      assert rows[k..end] == rows[k..e] + [rows[e]];
      NeedingAppend(m, rows[k..e], rows[e]);
      PutAllUpgrades(m, rows, k, e, less);
      UpgradeOneMore(m, rows, k, e);
      var before := rows[..k] + Upgraded(m, rows[k..e]) + rows[e..];
      if m.needs(rows[e].value) {
        SameKeysOrdered(rows, before, less);
        PutExisting(before, e, Fixed(m, rows[e].value), less);
        PutLast(rows, Updates(m, rows[k..e]), rows[e].key, Fixed(m, rows[e].value), less);
      } else {
        assert Updates(m, rows[k..end]) == Updates(m, rows[k..e]);
        assert before[e] == rows[e];
        assert before[e := Row(rows[e].key, Fixed(m, rows[e].value))] == before;
      }
    }
  }

  lemma {:induction false} NothingToPut<K>(m: Migrator, rows: seq<Row<K>>, none: seq<Row<K>>, less: (K, K) -> bool)
    requires none == []
    ensures PutAll(rows, Updates(m, none), less) == rows && Upgraded(m, none) == []
  {
  }

  // ----- scanning -----

  /** Collects the rewritten records of some rows, stopping at one that cannot be rewritten. */
  method ScanRows<K>(m: Migrator, rows: seq<Row<K>>) returns (ok: bool, updates: seq<(K, Bytes)>)
    ensures ok <==> Clean(m, rows)
    ensures ok ==> updates == Updates(m, rows) && |updates| == Needing(m, rows)
  {
    hide FirstFailing;
    updates := [];
    assert Clean(m, rows[..0]) by { NoRowsClean(m, rows[..0]); }
    for i := 0 to |rows|
      invariant Clean(m, rows[..i])
      invariant updates == Updates(m, rows[..i]) && |updates| == Needing(m, rows[..i])
    {
      assert rows[..i + 1] == rows[..i] + [rows[i]];
      NeedingAppend(m, rows[..i], rows[i]);
      if m.needs(rows[i].value) {
        match m.migrate(rows[i].value) {
          case Err(_) =>
            FailingNotClean(m, rows, i);
            return false, updates;
          case Ok(bytes) =>
            updates := updates + [(rows[i].key, bytes)];
        }
      }
    }
    assert rows[..|rows|] == rows;
    ok := true;
  }

  lemma {:induction false} NoRowsClean<K>(m: Migrator, rows: seq<Row<K>>)
    requires rows == []
    ensures Clean(m, rows)
  {
  }

  lemma {:induction false} FailingNotClean<K>(m: Migrator, rows: seq<Row<K>>, i: nat)
    requires i < |rows| && Fails(m, rows[i].value)
    ensures !Clean(m, rows)
  {
  }

  method InsertAll<K(==)>(rows: seq<Row<K>>, updates: seq<(K, Bytes)>, less: (K, K) -> bool)
    returns (after: seq<Row<K>>)
    ensures after == PutAll(rows, updates, less)
  {
    after := rows;
    for i := 0 to |updates|
      invariant after == PutAll(rows, updates[..i], less)
    {
      assert updates[..i + 1][..i] == updates[..i];
      after := Put(after, updates[i].0, updates[i].1, less);
    }
    assert updates[..|updates|] == updates;
  }

  /** The first thousand rows from a height on. */
  method RowsFrom(rows: HeightTable, next: nat, ghost k: nat) returns (batch: HeightTable)
    requires k <= |rows|
    requires forall i :: 0 <= i < k ==> rows[i].key < next
    requires forall i :: k <= i < |rows| ==> next <= rows[i].key
    ensures batch == rows[k..Min(k + BATCH_SIZE, |rows|)]
  {
    batch := [];
    var i := 0;
    while i < |rows| && |batch| < BATCH_SIZE
      invariant i <= |rows|
      invariant batch == if i <= k then [] else rows[k..i]
      invariant i <= k + BATCH_SIZE
    {
      if next <= rows[i].key {
        batch := batch + [rows[i]];
      }
      i := i + 1;
    }
  }
}
