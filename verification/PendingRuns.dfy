/** The store's operations on the pending table, and what every run of them keeps. */
module PendingRuns {
  import opened Basics
  import opened Keys
  import opened Tables
  import opened Records
  import opened Pending

  // ----- enforcing -----

  /** Enforcing splits the keys: each is kept or dropped, none twice. */
  lemma {:induction false} EnforcePartition(rows: KeyTable, max: nat, current: nat)
    requires max > 0
    ensures multiset(KeysOf(rows)) ==
            multiset(KeysOf(Enforced(rows, max, current))) + multiset(Dropped(rows, max, current))
  {
    hide OfClass, ClassOf, KeysOf;
    ClassesPartition(rows, max, current);
    var within := OfClass(rows, Within, max, current);
    var cut := Min(max, |within|);
    KeysSplit(within, cut);
  }

  lemma {:induction false} KeysSplit(rows: KeyTable, cut: nat)
    requires cut <= |rows|
    ensures KeysOf(rows) == KeysOf(rows[..cut]) + KeysOf(rows[cut..])
  {
  }

  lemma {:induction false} KeysAppend(rows: KeyTable, more: KeyTable)
    ensures KeysOf(rows + more) == KeysOf(rows) + KeysOf(more)
  {
  }

  lemma {:induction false} ClassesPartition(rows: KeyTable, max: nat, current: nat)
    requires max > 0
    ensures multiset(KeysOf(rows)) ==
            multiset(KeysOf(OfClass(rows, Stale, max, current))) +
            multiset(KeysOf(OfClass(rows, Within, max, current))) +
            multiset(KeysOf(OfClass(rows, TooFar, max, current)))
    decreases |rows|
  {
    hide ClassOf, KeysOf;
    if rows == [] {
      NoKeys(rows);
    } else {
      var n := |rows| - 1;
      ClassesPartition(rows[..n], max, current);
      assert rows == rows[..n] + [rows[n]];
      KeysAppend(rows[..n], [rows[n]]);
      ClassKeysAppend(rows, Stale, max, current);
      ClassKeysAppend(rows, Within, max, current);
      ClassKeysAppend(rows, TooFar, max, current);
      OneKey(rows[n]);
    }
  }

  lemma {:induction false} NoKeys(rows: KeyTable)
    requires rows == []
    ensures KeysOf(rows) == []
  {
  }

  lemma {:induction false} OneKey(r: Row<Key>)
    ensures KeysOf([r]) == [r.key]
  {
  }

  lemma {:induction false} ClassKeysAppend(rows: KeyTable, kind: Class, max: nat, current: nat)
    requires max > 0 && rows != []
    ensures var n := |rows| - 1;
            multiset(KeysOf(OfClass(rows, kind, max, current))) ==
            multiset(KeysOf(OfClass(rows[..n], kind, max, current))) +
            (if ClassOf(rows[n].key, max, current) == kind then multiset{rows[n].key} else multiset{})
  {
    hide ClassOf, KeysOf;
    var n := |rows| - 1;
    var before := OfClass(rows[..n], kind, max, current);
    if ClassOf(rows[n].key, max, current) == kind {
      KeysAppend(before, [rows[n]]);
      OneKey(rows[n]);
    } else {
      assert OfClass(rows, kind, max, current) == before;
    }
  }

  /** Every kept key comes before every in-range key that was dropped. */
  lemma {:induction false} EnforceKeepsLowest(rows: KeyTable, max: nat, current: nat, i: nat, r: Row<Key>)
    requires max > 0 && Sorted(rows) && i < |Enforced(rows, max, current)|
    requires r in rows && ClassOf(r.key, max, current) == Within && r !in Enforced(rows, max, current)
    ensures KeyLess(Enforced(rows, max, current)[i].key, r.key)
  {
    hide ClassOf, KeyLess, OfClass;
    OfClassSorted(rows, Within, max, current);
    OfClassMembers(rows, Within, max, current, r);
    var within, kept := OfClass(rows, Within, max, current), Enforced(rows, max, current);
    var j :| 0 <= j < |within| && within[j] == r;
    assert forall k :: 0 <= k < |kept| ==> kept[k] == within[k] && kept[k] in kept;
  }

  lemma {:induction false} AllOfClass(rows: KeyTable, kind: Class, other: Class, max: nat, current: nat)
    requires max > 0 && forall r :: r in rows ==> ClassOf(r.key, max, current) == kind
    ensures OfClass(rows, other, max, current) == if other == kind then rows else []
    decreases |rows|
  {
    hide ClassOf, OfClass;
    if rows == [] {
      NoneOfClass(rows, other, max, current);
    } else {
      var n := |rows| - 1;
      AllOfClass(rows[..n], kind, other, max, current);
      assert rows[n] in rows && rows == rows[..n] + [rows[n]];
      OfClassAppend(rows[..n], rows[n], other, max, current);
    }
  }

  lemma {:induction false} NoneOfClass(rows: KeyTable, kind: Class, max: nat, current: nat)
    requires max > 0 && rows == []
    ensures OfClass(rows, kind, max, current) == []
  {
  }

  lemma {:induction false} OfClassAppend(rows: KeyTable, r: Row<Key>, kind: Class, max: nat, current: nat)
    requires max > 0
    ensures OfClass(rows + [r], kind, max, current) ==
            OfClass(rows, kind, max, current) + if ClassOf(r.key, max, current) == kind then [r] else []
  {
    assert (rows + [r])[..|rows|] == rows;
  }

  /** Enforcing again keeps everything and drops nothing. */
  lemma {:induction false} EnforceIdempotent(rows: KeyTable, max: nat, current: nat)
    requires max > 0
    ensures var kept := Enforced(rows, max, current);
            Enforced(kept, max, current) == kept && Dropped(kept, max, current) == []
  {
    hide ClassOf, OfClass, KeysOf;
    var within, kept := OfClass(rows, Within, max, current), Enforced(rows, max, current);
    forall r | r in kept
      ensures ClassOf(r.key, max, current) == Within
    {
      assert r in within;
      OfClassMembers(rows, Within, max, current, r);
    }
    AllOfClass(kept, Within, Stale, max, current);
    AllOfClass(kept, Within, Within, max, current);
    AllOfClass(kept, Within, TooFar, max, current);
    assert kept[..|kept|] == kept && kept[|kept|..] == [];
    NoKeys([]);
  }

  // ----- enforcing, by heights alone -----

  /** The rows whose height lies from `current` up to and including `current + max - 1`. */
  ghost function InReach(rows: KeyTable, max: nat, current: nat): set<Row<Key>> {
    set r | r in rows && current <= r.key.height < current + max
  }

  lemma {:induction false} SortedRowsCount(rows: KeyTable)
    requires Sorted(rows)
    ensures |set r | r in rows| == |rows|
    decreases |rows|
  {
    hide KeyLess;
    if rows != [] {
      var n := |rows| - 1;
      SortedRowsCount(rows[..n]);
      assert rows[n] !in rows[..n] by {
        if rows[n] in rows[..n] {
          var i :| 0 <= i < n && rows[i] == rows[n];
          SortedDistinct(rows, i, n);
        }
      }
      assert (set r | r in rows) == (set r | r in rows[..n]) + {rows[n]};
    }
  }

  lemma {:induction false} InReachCount(rows: KeyTable, max: nat, current: nat)
    requires max > 0 && Sorted(rows)
    ensures |InReach(rows, max, current)| == |OfClass(rows, Within, max, current)|
  {
    hide KeyLess, OfClass;
    var within := OfClass(rows, Within, max, current);
    OfClassSorted(rows, Within, max, current);
    forall r: Row<Key>
      ensures r in within <==> r in InReach(rows, max, current)
    {
      OfClassMembers(rows, Within, max, current, r);
    }
    SortedRowsCount(within);
    assert InReach(rows, max, current) == set r | r in within;
  }

  /**
   What enforcing means for heights: kept rows are in reach; an in-reach key is dropped only when
   the limit is full of lower keys; every row is kept or its key is dropped; and if the rows in
   reach fit the limit, exactly they are kept.
   */
  lemma {:induction false} EnforceByHeights(rows: KeyTable, max: nat, current: nat)
    requires max > 0 && Sorted(rows)
    ensures var kept, dropped := Enforced(rows, max, current), Dropped(rows, max, current);
            && (forall r :: r in kept ==> r in rows && current <= r.key.height < current + max)
            && (forall k :: k in dropped && current <= k.height < current + max ==>
                  |kept| == max && forall r :: r in kept ==> KeyLess(r.key, k))
            && (forall r :: r in rows ==> (r in kept <==> r.key !in dropped))
            && (|InReach(rows, max, current)| <= max ==>
                  forall r :: r in kept <==> r in rows && current <= r.key.height < current + max)
  {
    hide KeyLess, OfClass, InReach, Sorted;
    KeptInReach(rows, max, current);
    forall k | k in Dropped(rows, max, current) && current <= k.height < current + max
      ensures |Enforced(rows, max, current)| == max
      ensures forall r :: r in Enforced(rows, max, current) ==> KeyLess(r.key, k)
    {
      DroppedInReach(rows, max, current, k);
    }
    forall r | r in rows
      ensures r in Enforced(rows, max, current) <==> r.key !in Dropped(rows, max, current)
    {
      KeptOrDropped(rows, max, current, r);
    }
    InReachCount(rows, max, current);
    if |InReach(rows, max, current)| <= max {
      var within := OfClass(rows, Within, max, current);
      assert within[..|within|] == within;
      forall r: Row<Key>
        ensures r in within <==> r in rows && current <= r.key.height < current + max
      {
        OfClassMembers(rows, Within, max, current, r);
      }
    }
  }

  lemma {:induction false} KeptInReach(rows: KeyTable, max: nat, current: nat)
    requires max > 0
    ensures forall r :: r in Enforced(rows, max, current) ==> r in rows && current <= r.key.height < current + max
  {
    hide OfClass;
    forall r | r in Enforced(rows, max, current)
      ensures r in rows && current <= r.key.height < current + max
    {
      assert r in OfClass(rows, Within, max, current);
      OfClassMembers(rows, Within, max, current, r);
    }
  }

  lemma {:induction false} KeyOfClass(rows: KeyTable, kind: Class, max: nat, current: nat, k: Key) returns (r: Row<Key>)
    requires max > 0 && k in KeysOf(OfClass(rows, kind, max, current))
    ensures r in rows && r.key == k && ClassOf(k, max, current) == kind
  {
    hide OfClass, ClassOf;
    var some := OfClass(rows, kind, max, current);
    var i :| 0 <= i < |some| && KeysOf(some)[i] == k;
    r := some[i];
    OfClassMembers(rows, kind, max, current, r);
  }

  lemma {:induction false} DroppedInReach(rows: KeyTable, max: nat, current: nat, k: Key)
    requires max > 0 && Sorted(rows) && k in Dropped(rows, max, current) && current <= k.height < current + max
    ensures |Enforced(rows, max, current)| == max
    ensures forall r :: r in Enforced(rows, max, current) ==> KeyLess(r.key, k)
  {
    hide KeyLess, OfClass;
    var within := OfClass(rows, Within, max, current);
    var cut := Min(max, |within|);
    assert k !in KeysOf(OfClass(rows, Stale, max, current)) by {
      if k in KeysOf(OfClass(rows, Stale, max, current)) {
        var r := KeyOfClass(rows, Stale, max, current, k);
      }
    }
    assert k !in KeysOf(OfClass(rows, TooFar, max, current)) by {
      if k in KeysOf(OfClass(rows, TooFar, max, current)) {
        var r := KeyOfClass(rows, TooFar, max, current, k);
      }
    }
    var j :| 0 <= j < |within[cut..]| && KeysOf(within[cut..])[j] == k;
    OfClassSorted(rows, Within, max, current);
    forall r | r in Enforced(rows, max, current)
      ensures KeyLess(r.key, k)
    {
      var i :| 0 <= i < cut && within[i] == r;
      assert within[cut + j].key == k;
    }
  }

  lemma {:induction false} KeptOrDropped(rows: KeyTable, max: nat, current: nat, r: Row<Key>)
    requires max > 0 && Sorted(rows) && r in rows
    ensures r in Enforced(rows, max, current) <==> r.key !in Dropped(rows, max, current)
  {
    hide KeyLess, OfClass, Dropped, Except, RemovedAll;
    DroppingEnforces(rows, max, current);
    RemovedAllExcept(rows, Dropped(rows, max, current));
    ExceptMembers(rows, Dropped(rows, max, current), r);
  }

  lemma {:induction false} ExceptMembers(rows: KeyTable, keys: seq<Key>, r: Row<Key>)
    ensures r in Except(rows, keys) <==> r in rows && r.key !in keys
    decreases |rows|
  {
    if rows != [] {
      var n := |rows| - 1;
      ExceptMembers(rows[..n], keys, r);
      assert rows == rows[..n] + [rows[n]];
    }
  }

  /** Keys below the current height go first, then keys out of reach, then the others; each group in key order. */
  ghost predicate GoesBefore(a: Key, b: Key, max: nat, current: nat) {
    var rankA := if a.height < current then 0 else if a.height >= current + max then 1 else 2;
    var rankB := if b.height < current then 0 else if b.height >= current + max then 1 else 2;
    rankA < rankB || (rankA == rankB && KeyLess(a, b))
  }

  lemma {:induction false} DroppedInOrder(rows: KeyTable, max: nat, current: nat)
    requires max > 0 && Sorted(rows)
    ensures var dropped := Dropped(rows, max, current);
            forall i, j :: 0 <= i < j < |dropped| ==> GoesBefore(dropped[i], dropped[j], max, current)
  {
    hide KeyLess, OfClass;
    var stale, far := OfClass(rows, Stale, max, current), OfClass(rows, TooFar, max, current);
    var within := OfClass(rows, Within, max, current);
    var excess := within[Min(max, |within|)..];
    OfClassSorted(rows, Stale, max, current);
    OfClassSorted(rows, TooFar, max, current);
    OfClassSorted(rows, Within, max, current);
    ClassHeights(rows, Stale, max, current);
    ClassHeights(rows, TooFar, max, current);
    ClassHeights(rows, Within, max, current);
    hide Sorted;
    GroupOrder(stale, far, excess, max, current);
  }

  lemma {:induction false} ClassHeights(rows: KeyTable, kind: Class, max: nat, current: nat)
    requires max > 0
    ensures forall i :: 0 <= i < |OfClass(rows, kind, max, current)| ==>
              ClassOf(OfClass(rows, kind, max, current)[i].key, max, current) == kind
  {
    hide OfClass, ClassOf;
    var some := OfClass(rows, kind, max, current);
    forall i | 0 <= i < |some|
      ensures ClassOf(some[i].key, max, current) == kind
    {
      OfClassMembers(rows, kind, max, current, some[i]);
    }
  }

  lemma {:induction false} GroupOrder(stale: KeyTable, far: KeyTable, excess: KeyTable, max: nat, current: nat)
    requires max > 0 && Sorted(stale) && Sorted(far) && Sorted(excess)
    requires forall i :: 0 <= i < |stale| ==> ClassOf(stale[i].key, max, current) == Stale
    requires forall i :: 0 <= i < |far| ==> ClassOf(far[i].key, max, current) == TooFar
    requires forall i :: 0 <= i < |excess| ==> ClassOf(excess[i].key, max, current) == Within
    ensures var all := KeysOf(stale) + KeysOf(far) + KeysOf(excess);
            forall i, j :: 0 <= i < j < |all| ==> GoesBefore(all[i], all[j], max, current)
  {
    hide KeyLess;
  }

  // ----- inserting -----

  /** After storing, a sorted table has the new row and the old rows under other keys. */
  lemma {:induction false} PutMembers(rows: KeyTable, key: Key, value: Bytes)
    requires Sorted(rows)
    ensures forall r :: r in Put(rows, key, value, KeyLess) <==> r == Row(key, value) || (r in rows && r.key != key)
    decreases |rows|
  {
    hide KeyLess;
    if rows != [] {
      var first, rest := rows[0], rows[1..];
      assert rows == [first] + rest;
      forall r | r in rest
        ensures KeyLess(first.key, r.key)
        ensures KeyLess(key, first.key) || key == first.key ==> r.key != key
      {
        var i :| 0 <= i < |rest| && rest[i] == r;
        assert rows[i + 1] == r;
        KeyOrderTotal(first.key, r.key);
        if KeyLess(key, first.key) {
          KeyOrderTransitive(key, first.key, r.key);
          KeyOrderTotal(key, r.key);
        }
      }
      KeyOrderTotal(key, first.key);
      if first.key != key && !KeyLess(key, first.key) {
        PutMembers(rest, key, value);
      }
    }
  }

  // ----- the table as the store changes it -----

  class ConsensusTables {
    var undecided: KeyTable
    var pending: KeyTable

    constructor (undecided: KeyTable, pending: KeyTable)
      ensures this.undecided == undecided && this.pending == pending
    {
      this.undecided := undecided;
      this.pending := pending;
    }

    method InsertPendingProposalParts(key: Key, value: Bytes, max: nat, current: nat) returns (inserted: bool)
      requires max > 0
      modifies this`pending
      ensures pending == Inserted(old(pending), key, value, max, current)
      ensures inserted <==> key.height < current + max && |old(pending)| < max
      ensures !inserted ==> pending == old(pending)
      ensures inserted && Sorted(old(pending)) ==>
                forall r :: r in pending <==> r == Row(key, value) || (r in old(pending) && r.key != key)
      ensures Sorted(old(pending)) ==> Sorted(pending)
    {
      hide Put, Sorted;
      ghost var was := pending;
      if Sorted(was) {
        PutSorted(was, key, value);
        PutMembers(was, key, value);
      }
      var maxAllowed := current + (max - 1);
      if key.height > maxAllowed {
        return false;
      }
      inserted := false;
      if |pending| < max {
        pending := Put(pending, key, value, KeyLess);
        inserted := true;
      }
    }

    /** The rows under the key go, at most one of them in a sorted table; all others stay, in their order. */
    method RemovePendingProposalParts(key: Key)
      modifies this`pending
      ensures pending == Removed(old(pending), key)
      ensures forall r :: r in pending <==> r in old(pending) && r.key != key
      ensures Sorted(old(pending)) ==>
                Sorted(pending) && |pending| == |old(pending)| - if key in KeysOf(old(pending)) then 1 else 0
    {
      hide Removed, Sorted, KeysOf;
      ghost var was := pending;
      pending := Removed(pending, key);
      RemovedSelects(was, key);
      forall r: Row<Key>
        ensures r in Removed(was, key) <==> r in was && r.key != key
      {
        RemovedMembers(was, key, r);
      }
      if Sorted(was) {
        RemovedSize(was, key);
      }
    }

    method CleanStaleConsensusData(current: nat)
      modifies this
      ensures pending == Above(old(pending), current) && undecided == Above(old(undecided), current)
      ensures forall r :: r in pending <==> r in old(pending) && r.key.height > current
      ensures forall r :: r in undecided <==> r in old(undecided) && r.key.height > current
    {
      hide Above;
      ghost var was, before := pending, undecided;
      forall r: Row<Key>
        ensures r in Above(was, current) <==> r in was && r.key.height > current
        ensures r in Above(before, current) <==> r in before && r.key.height > current
      {
        AboveMembers(was, current, r);
        AboveMembers(before, current, r);
      }
      undecided := RetainAbove(undecided, current);
      pending := RetainAbove(pending, current);
    }

    /** Classifies every key, then removes stale keys, keys too far ahead and in-range keys beyond the limit. */
    method EnforcePendingProposalsLimit(max: nat, current: nat) returns (removed: seq<Key>)
      requires max > 0 && Sorted(pending)
      modifies this`pending
      ensures pending == Enforced(old(pending), max, current)
      ensures removed == Dropped(old(pending), max, current)
      ensures forall r :: r in pending ==> r in old(pending) && current <= r.key.height < current + max
      ensures forall k :: k in removed && current <= k.height < current + max ==>
                |pending| == max && forall r :: r in pending ==> KeyLess(r.key, k)
      ensures forall r :: r in old(pending) ==> (r in pending <==> r.key !in removed)
      ensures forall i, j :: 0 <= i < j < |removed| ==> GoesBefore(removed[i], removed[j], max, current)
      ensures |InReach(old(pending), max, current)| <= max ==>
                forall r :: r in pending <==> r in old(pending) && current <= r.key.height < current + max
    {
      hide Sorted, KeyLess, OfClass, RemovedAll, InReach, GoesBefore;
      EnforceByHeights(pending, max, current);
      DroppedInOrder(pending, max, current);
      var stale, within, far := Classify(pending, max, current);
      removed := KeysOf(stale) + KeysOf(far);
      if |within| > max {
        removed := removed + KeysOf(within[max..]);
      } else {
        assert within[Min(max, |within|)..] == [];
        assert removed == Dropped(pending, max, current);
      }
      DroppingEnforces(pending, max, current);
      pending := RemoveEach(pending, removed);
    }
  }

  method RetainAbove(rows: KeyTable, current: nat) returns (kept: KeyTable)
    ensures kept == Above(rows, current)
  {
    kept := [];
    for i := 0 to |rows|
      invariant kept == Above(rows[..i], current)
    {
      assert rows[..i + 1][..i] == rows[..i];
      if rows[i].key.height > current {
        kept := kept + [rows[i]];
      }
    }
    assert rows[..|rows|] == rows;
  }

  method Classify(rows: KeyTable, max: nat, current: nat) returns (stale: KeyTable, within: KeyTable, far: KeyTable)
    requires max > 0
    ensures stale == OfClass(rows, Stale, max, current)
    ensures within == OfClass(rows, Within, max, current)
    ensures far == OfClass(rows, TooFar, max, current)
  {
    stale, within, far := [], [], [];
    for i := 0 to |rows|
      invariant stale == OfClass(rows[..i], Stale, max, current)
      invariant within == OfClass(rows[..i], Within, max, current)
      invariant far == OfClass(rows[..i], TooFar, max, current)
    {
      assert rows[..i + 1][..i] == rows[..i];
      if rows[i].key.height < current {
        stale := stale + [rows[i]];
      } else if rows[i].key.height <= current + (max - 1) {
        within := within + [rows[i]];
      } else {
        far := far + [rows[i]];
      }
    }
    assert rows[..|rows|] == rows;
  }

  method RemoveEach(rows: KeyTable, keys: seq<Key>) returns (after: KeyTable)
    ensures after == RemovedAll(rows, keys)
  {
    after := rows;
    for i := 0 to |keys|
      invariant after == RemovedAll(rows, keys[..i])
    {
      assert keys[..i + 1][..i] == keys[..i];
      after := Removed(after, keys[i]);
    }
    assert keys[..|keys|] == keys;
  }

  // ----- whole runs -----

  datatype Op = Insert(key: Key, value: Bytes) | Remove(key: Key) | Clean | Enforce

  function Next(rows: KeyTable, op: Op, max: nat, current: nat): KeyTable
    requires max > 0
  {
    match op
    case Insert(key, value) => Inserted(rows, key, value, max, current)
    case Remove(key) => Removed(rows, key)
    case Clean => Above(rows, current)
    case Enforce => Enforced(rows, max, current)
  }

  /** The table after a run of operations, each at its own current height. */
  function Run(rows: KeyTable, ops: seq<(Op, nat)>, max: nat): KeyTable
    requires max > 0
  {
    if ops == [] then rows
    else
      var last := ops[|ops| - 1];
      Next(Run(rows, ops[..|ops| - 1], max), last.0, max, last.1)
  }

  /** Ordered, within the limit, and nothing too far ahead of the current height. */
  ghost predicate Bounded(rows: KeyTable, max: nat, current: nat) {
    Sorted(rows) && |rows| <= max && forall r :: r in rows ==> r.key.height < current + max
  }

  /** Rows that come from another table in its order. */
  ghost predicate Selects(some: KeyTable, rows: KeyTable) {
    |some| <= |rows| && (Sorted(rows) ==> Sorted(some)) && forall r :: r in some ==> r in rows
  }

  lemma {:induction false} SelectsAppend(some: KeyTable, rows: KeyTable, r: Row<Key>)
    requires Selects(some, rows)
    ensures Selects(some, rows + [r]) && Selects(some + [r], rows + [r])
  {
    hide KeyLess;
    if Sorted(rows + [r]) {
      forall i, j | 0 <= i < j < |rows|
        ensures KeyLess(rows[i].key, rows[j].key)
      {
        assert (rows + [r])[i] == rows[i] && (rows + [r])[j] == rows[j];
      }
      assert Sorted(rows);
      forall i | 0 <= i < |some|
        ensures KeyLess(some[i].key, r.key)
      {
        assert some[i] in rows;
        var k :| 0 <= k < |rows| && rows[k] == some[i];
        assert (rows + [r])[k] == some[i] && (rows + [r])[|rows|] == r;
      }
    }
  }

  lemma {:induction false} RemovedSelects(rows: KeyTable, key: Key)
    ensures Selects(Removed(rows, key), rows)
    decreases |rows|
  {
    hide Selects;
    if rows == [] {
      NothingSelects();
    } else {
      var n := |rows| - 1;
      RemovedSelects(rows[..n], key);
      SelectsAppend(Removed(rows[..n], key), rows[..n], rows[n]);
      assert rows == rows[..n] + [rows[n]];
      if rows[n].key == key {
        assert Removed(rows, key) == Removed(rows[..n], key);
      }
    }
  }

  lemma {:induction false} AboveSelects(rows: KeyTable, current: nat)
    ensures Selects(Above(rows, current), rows)
    decreases |rows|
  {
    hide Selects;
    if rows == [] {
      NothingSelects();
    } else {
      var n := |rows| - 1;
      AboveSelects(rows[..n], current);
      SelectsAppend(Above(rows[..n], current), rows[..n], rows[n]);
      assert rows == rows[..n] + [rows[n]];
      if rows[n].key.height <= current {
        assert Above(rows, current) == Above(rows[..n], current);
      }
    }
  }

  lemma {:induction false} NothingSelects()
    ensures Selects([], [])
  {
  }

  lemma {:induction false} EnforcedBounded(rows: KeyTable, max: nat, current: nat)
    requires max > 0 && Sorted(rows)
    ensures Bounded(Enforced(rows, max, current), max, current)
  {
    hide KeyLess, OfClass;
    OfClassSorted(rows, Within, max, current);
    forall r | r in Enforced(rows, max, current)
      ensures r.key.height < current + max
    {
      assert r in OfClass(rows, Within, max, current);
      OfClassMembers(rows, Within, max, current, r);
    }
  }

  lemma {:induction false} PutRows(rows: KeyTable, key: Key, value: Bytes)
    ensures |Put(rows, key, value, KeyLess)| <= |rows| + 1
    ensures forall r :: r in Put(rows, key, value, KeyLess) ==> r in rows || r == Row(key, value)
    decreases |rows|
  {
    hide KeyLess;
    if rows != [] {
      PutRows(rows[1..], key, value);
    }
  }

  lemma {:induction false} PutSorted(rows: KeyTable, key: Key, value: Bytes)
    requires Sorted(rows)
    ensures Sorted(Put(rows, key, value, KeyLess))
    decreases |rows|
  {
    hide KeyLess;
    if rows != [] {
      var rest := rows[1..];
      forall i | 0 <= i < |rest|
        ensures KeyLess(rows[0].key, rest[i].key)
        ensures KeyLess(key, rows[0].key) ==> KeyLess(key, rest[i].key)
      {
        assert rest[i] == rows[i + 1];
        if KeyLess(key, rows[0].key) {
          KeyOrderTransitive(key, rows[0].key, rest[i].key);
        }
      }
      if rows[0].key != key && !KeyLess(key, rows[0].key) {
        KeyOrderTotal(key, rows[0].key);
        PutSorted(rest, key, value);
        PutRows(rest, key, value);
        SortedCons(rows[0], Put(rest, key, value, KeyLess));
      } else {
        SortedCons(Row(key, value), if rows[0].key == key then rest else rows);
      }
    }
  }

  lemma {:induction false} SortedCons(r: Row<Key>, rows: KeyTable)
    requires Sorted(rows) && forall s :: s in rows ==> KeyLess(r.key, s.key)
    ensures Sorted([r] + rows)
  {
    hide KeyLess;
    forall i, j | 0 <= i < j < |rows| + 1
      ensures KeyLess(([r] + rows)[i].key, ([r] + rows)[j].key)
    {
      assert ([r] + rows)[j] == rows[j - 1] && rows[j - 1] in rows;
      if i > 0 {
        assert ([r] + rows)[i] == rows[i - 1];
      }
    }
  }

  lemma {:induction false} StepBounded(rows: KeyTable, op: Op, max: nat, before: nat, current: nat)
    requires max > 0 && before <= current && Bounded(rows, max, before)
    ensures Bounded(Next(rows, op, max, current), max, current)
  {
    hide KeyLess, Sorted, Removed, Above, Enforced, Put;
    match op {
      case Insert(key, value) =>
        PutRows(rows, key, value);
        PutSorted(rows, key, value);
      case Remove(key) => RemovedSelects(rows, key);
      case Clean => AboveSelects(rows, current);
      case Enforce => EnforcedBounded(rows, max, current);
    }
  }

  /** Starting within bounds, every run with a fixed limit and a non-decreasing current height stays within bounds. */
  lemma {:induction false} RunBounded(rows: KeyTable, ops: seq<(Op, nat)>, max: nat, start: nat)
    requires max > 0 && Bounded(rows, max, start)
    requires forall i :: 0 <= i < |ops| ==> start <= ops[i].1
    requires forall i, j :: 0 <= i < j < |ops| ==> ops[i].1 <= ops[j].1
    ensures Bounded(Run(rows, ops, max), max, if ops == [] then start else ops[|ops| - 1].1)
    decreases |ops|
  {
    hide Bounded, Next;
    if ops != [] {
      var n := |ops| - 1;
      RunBounded(rows, ops[..n], max, start);
      StepBounded(Run(rows, ops[..n], max), ops[n].0, max, if n == 0 then start else ops[n - 1].1, ops[n].1);
    }
  }
}
