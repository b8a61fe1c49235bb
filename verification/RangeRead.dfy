/** Reading a range of heights, each classified against the window of stored certificates. */
module RangeRead {
  import opened Basics
  import opened Tables
  import opened Records

  const MAX_HEIGHT := 0xFFFF_FFFF_FFFF_FFFF

  type Height = h: nat | h <= MAX_HEIGHT

  datatype Reason = Pruned | AboveCurrentHead | Internal | NotRecorded

  datatype RangeResult<T> = Complete(items: seq<T>) | Unavailable(reason: Reason, failedHeights: seq<nat>)

  /** The certificate table, the table to read, its decoder and what a missing row means. */
  datatype Source<T> = Source(
    certs: HeightTable,
    table: HeightTable,
    decode: Bytes -> Option<T>,
    onMissing: nat -> Result<T, Reason>)

  function Lookup(rows: HeightTable, h: nat): Option<Bytes> {
    if rows == [] then None
    else if rows[0].key == h then Some(rows[0].value)
    else Lookup(rows[1..], h)
  }

  /** What a range read makes of one height. */
  function Attempt<T>(s: Source<T>, h: nat): Result<T, Reason>
    requires s.certs != []
  {
    if h < s.certs[0].key then Err(Pruned)
    else if h > s.certs[|s.certs| - 1].key then Err(AboveCurrentHead)
    else
      match Lookup(s.table, h)
      case Some(bytes) => (match s.decode(bytes) case Some(item) => Ok(item) case None => Err(Internal))
      case None => s.onMissing(h)
  }

  ghost predicate ItemsRead<T>(s: Source<T>, from: nat, items: seq<T>)
    requires s.certs != []
  {
    forall i :: 0 <= i < |items| ==> Attempt(s, from + i) == Ok(items[i])
  }

  ghost predicate Ascends(failures: seq<(nat, Reason)>, end: nat) {
    && (forall i, j :: 0 <= i < j < |failures| ==> failures[i].0 < failures[j].0)
    && (forall i :: 0 <= i < |failures| ==> failures[i].0 < end)
  }

  ghost predicate FailuresListed<T>(s: Source<T>, from: nat, end: nat, failures: seq<(nat, Reason)>)
    requires s.certs != []
  {
    && (forall i :: 0 <= i < |failures| ==> from <= failures[i].0 && Attempt(s, failures[i].0) == Err(failures[i].1))
    && (forall h :: from <= h < end && Attempt(s, h).Err? ==> (h, Attempt(s, h).error) in failures)
  }

  /** What is known after the first `n` heights. */
  ghost predicate ReadSoFar<T>(s: Source<T>, from: nat, n: nat, items: seq<T>, failures: seq<(nat, Reason)>)
    requires s.certs != []
  {
    && (failures == [] ==> |items| == n && ItemsRead(s, from, items))
    && Ascends(failures, from + n)
    && FailuresListed(s, from, from + n, failures)
  }

  lemma {:induction false} FailuresListedMore<T>(s: Source<T>, from: nat, end: nat, failures: seq<(nat, Reason)>)
    requires s.certs != [] && from <= end && FailuresListed(s, from, end, failures)
    ensures var a := Attempt(s, end);
            FailuresListed(s, from, end + 1, failures + if a.Ok? then [] else [(end, a.error)])
  {
    hide Attempt;
    var a := Attempt(s, end);
    var more := failures + if a.Ok? then [] else [(end, a.error)];
    forall h | from <= h < end + 1 && Attempt(s, h).Err?
      ensures (h, Attempt(s, h).error) in more
    {
      if h == end {
        assert more[|failures|] == (end, a.error);
      }
    }
  }

  lemma {:induction false} AscendsMore(failures: seq<(nat, Reason)>, end: nat, reason: Reason)
    requires Ascends(failures, end)
    ensures Ascends(failures, end + 1) && Ascends(failures + [(end, reason)], end + 1)
  {
  }

  lemma {:induction false} ReadOneMore<T>(s: Source<T>, from: nat, n: nat, items: seq<T>, failures: seq<(nat, Reason)>)
    requires s.certs != [] && ReadSoFar(s, from, n, items, failures)
    ensures var a := Attempt(s, from + n);
            if a.Ok? then ReadSoFar(s, from, n + 1, items + [a.value], failures)
            else ReadSoFar(s, from, n + 1, items, failures + [(from + n, a.error)])
  {
    hide Attempt, FailuresListed, Ascends;
    var a := Attempt(s, from + n);
    FailuresListedMore(s, from, from + n, failures);
    AscendsMore(failures, from + n, if a.Ok? then Internal else a.error);
    assert failures + [] == failures;
  }

  lemma {:induction false} NothingRead<T>(s: Source<T>, from: nat)
    requires s.certs != []
    ensures ReadSoFar(s, from, 0, [], [])
  {
  }

  /** The heights that failed for one reason, in the order they failed. */
  function OfReason(failures: seq<(nat, Reason)>, reason: Reason): seq<nat> {
    if failures == [] then []
    else
      var last := failures[|failures| - 1];
      OfReason(failures[..|failures| - 1], reason) + if last.1 == reason then [last.0] else []
  }

  lemma {:induction false} OfReasonMembers(failures: seq<(nat, Reason)>, reason: Reason, h: nat)
    ensures h in OfReason(failures, reason) <==> (h, reason) in failures
    decreases |failures|
  {
    if failures != [] {
      var n := |failures| - 1;
      OfReasonMembers(failures[..n], reason, h);
      assert failures == failures[..n] + [failures[n]];
    }
  }

  lemma {:induction false} OfReasonAscends(failures: seq<(nat, Reason)>, reason: Reason)
    requires forall i, j :: 0 <= i < j < |failures| ==> failures[i].0 < failures[j].0
    ensures var hs := OfReason(failures, reason); forall i, j :: 0 <= i < j < |hs| ==> hs[i] < hs[j]
    decreases |failures|
  {
    if failures != [] {
      var n := |failures| - 1;
      OfReasonAscends(failures[..n], reason);
      var before := OfReason(failures[..n], reason);
      forall i | 0 <= i < |before|
        ensures before[i] < failures[n].0
      {
        OfReasonMembers(failures[..n], reason, before[i]);
        var k :| 0 <= k < n && failures[k] == (before[i], reason);
      }
    }
  }

  /** The lowest failing height of a range fails for this reason. */
  ghost predicate LowestFails<T>(s: Source<T>, from: nat, count: nat, low: nat, reason: Reason)
    requires s.certs != []
  {
    from <= low < from + count && Attempt(s, low) == Err(reason) && forall h :: from <= h < low ==> Attempt(s, h).Ok?
  }

  /** What the caller is promised about a range. */
  ghost predicate Answers<T>(s: Source<T>, from: nat, count: nat, r: RangeResult<T>)
    requires s.certs != []
  {
    match r
    case Complete(items) =>
      |items| == count && forall i :: 0 <= i < count ==> Attempt(s, from + i) == Ok(items[i])
    case Unavailable(reason, heights) =>
      && (exists low :: LowestFails(s, from, count, low, reason))
      && (forall i, j :: 0 <= i < j < |heights| ==> heights[i] < heights[j])
      && (forall h: nat :: h in heights <==> from <= h < from + count && Attempt(s, h) == Err(reason))
  }

  lemma {:induction false} ItemsAnswer<T>(s: Source<T>, from: nat, count: nat, items: seq<T>)
    requires s.certs != [] && ReadSoFar(s, from, count, items, [])
    ensures Answers(s, from, count, Complete(items))
  {
  }

  lemma {:induction false} FailuresAnswer<T>(s: Source<T>, from: nat, count: nat, items: seq<T>,
          failures: seq<(nat, Reason)>)
    requires s.certs != [] && ReadSoFar(s, from, count, items, failures) && failures != []
    ensures Answers(s, from, count, Unavailable(failures[0].1, OfReason(failures, failures[0].1)))
  {
    hide Attempt;
    var reason := failures[0].1;
    assert forall h :: from <= h < from + count && Attempt(s, h).Err? ==> (h, Attempt(s, h).error) in failures;
    OfReasonAscends(failures, reason);
    forall h: nat
      ensures h in OfReason(failures, reason) <==> from <= h < from + count && Attempt(s, h) == Err(reason)
    {
      OfReasonMembers(failures, reason, h);
    }
    var low := failures[0].0;
    forall h | from <= h < low
      ensures Attempt(s, h).Ok?
    {
      assert forall k :: 0 <= k < |failures| ==> failures[k].0 >= low;
    }
    assert LowestFails(s, from, count, low, reason);
  }

  // ----- the answer in terms of rows -----

  ghost predicate DistinctKeys(rows: HeightTable) {
    forall i, j :: 0 <= i < j < |rows| ==> rows[i].key != rows[j].key
  }

  ghost predicate HasRow(rows: HeightTable, h: nat) {
    exists r :: r in rows && r.key == h
  }

  /** The height lies between the first and the last certificate. */
  predicate InWindow<T>(s: Source<T>, h: nat)
    requires s.certs != []
  {
    s.certs[0].key <= h <= s.certs[|s.certs| - 1].key
  }

  /** The height's own row decodes to the item, or there is none and the item stands in for it. */
  ghost predicate Gives<T>(s: Source<T>, h: nat, item: T)
    requires s.certs != []
  {
    && InWindow(s, h)
    && (HasRow(s.table, h) ==> exists r :: r in s.table && r.key == h && s.decode(r.value) == Some(item))
    && (!HasRow(s.table, h) ==> s.onMissing(h) == Ok(item))
  }

  /** The height is below or above the window, its own row does not decode, or there is none and that is a failure. */
  ghost predicate Refuses<T>(s: Source<T>, h: nat, reason: Reason)
    requires s.certs != []
  {
    if h < s.certs[0].key then reason == Pruned
    else if h > s.certs[|s.certs| - 1].key then reason == AboveCurrentHead
    else
      && (HasRow(s.table, h) ==>
            reason == Internal && exists r :: r in s.table && r.key == h && s.decode(r.value) == None)
      && (!HasRow(s.table, h) ==> s.onMissing(h) == Err(reason))
  }

  ghost predicate NeverRefused<T>(s: Source<T>, h: nat)
    requires s.certs != []
  {
    forall reason :: !Refuses(s, h, reason)
  }

  ghost predicate LowestRefused<T>(s: Source<T>, from: nat, count: nat, low: nat, reason: Reason)
    requires s.certs != []
  {
    from <= low < from + count && Refuses(s, low, reason) && forall h :: from <= h < low ==> NeverRefused(s, h)
  }

  /** What the caller is promised about a range, in terms of the rows of the table. */
  ghost predicate RowsAnswer<T>(s: Source<T>, from: nat, count: nat, r: RangeResult<T>)
    requires s.certs != []
  {
    match r
    case Complete(items) => |items| == count && forall i :: 0 <= i < count ==> Gives(s, from + i, items[i])
    case Unavailable(reason, heights) =>
      && (exists low :: LowestRefused(s, from, count, low, reason))
      && (forall i, j :: 0 <= i < j < |heights| ==> heights[i] < heights[j])
      && (forall h: nat :: h in heights <==> from <= h < from + count && Refuses(s, h, reason))
  }

  lemma {:induction false} LookupRow(rows: HeightTable, h: nat)
    ensures Lookup(rows, h).Some? ==> Row(h, Lookup(rows, h).value) in rows
    ensures Lookup(rows, h).None? ==> !HasRow(rows, h)
    decreases |rows|
  {
    if rows != [] && rows[0].key != h {
      LookupRow(rows[1..], h);
      assert rows == [rows[0]] + rows[1..];
    }
  }

  lemma {:induction false} OnlyRow(rows: HeightTable, r: Row<nat>, q: Row<nat>)
    requires DistinctKeys(rows) && r in rows && q in rows && r.key == q.key
    ensures r == q
  {
    var i :| 0 <= i < |rows| && rows[i] == r;
    var j :| 0 <= j < |rows| && rows[j] == q;
  }

  /** A height is given an item, or refused for a reason, exactly as its attempt says. */
  lemma {:induction false} AttemptRows<T>(s: Source<T>, h: nat)
    requires s.certs != [] && DistinctKeys(s.table)
    ensures Attempt(s, h).Ok? ==> Gives(s, h, Attempt(s, h).value)
    ensures forall reason :: Refuses(s, h, reason) <==> Attempt(s, h) == Err(reason)
  {
    hide Lookup, DistinctKeys;
    LookupRow(s.table, h);
    if Lookup(s.table, h).Some? {
      var row := Row(h, Lookup(s.table, h).value);
      assert HasRow(s.table, h);
      forall r | r in s.table && r.key == h
        ensures r == row
      {
        OnlyRow(s.table, r, row);
      }
    }
  }

  lemma {:induction false} AnsweredByRows<T>(s: Source<T>, from: nat, count: nat, r: RangeResult<T>)
    requires s.certs != [] && DistinctKeys(s.table) && Answers(s, from, count, r)
    ensures RowsAnswer(s, from, count, r)
  {
    hide Attempt, DistinctKeys, Gives, Refuses;
    forall h: nat
      ensures Attempt(s, h).Ok? ==> Gives(s, h, Attempt(s, h).value)
      ensures forall reason :: Refuses(s, h, reason) <==> Attempt(s, h) == Err(reason)
    {
      AttemptRows(s, h);
    }
    if r.Unavailable? {
      var low :| LowestFails(s, from, count, low, r.reason);
      forall h | from <= h < low
        ensures NeverRefused(s, h)
      {
        assert Attempt(s, h).Ok?;
      }
      assert LowestRefused(s, from, count, low, r.reason);
    }
  }

  /**
   Refuses an empty or overflowing range, answers nothing when there are no certificates, and
   otherwise returns every item, or the failure class of the lowest failing height with exactly
   the heights of that class.
   */
  method ReadHeightRange<T>(s: Source<T>, from: Height, count: Height)
    returns (r: Result<Option<RangeResult<T>>, string>)
    ensures r.Err? <==> count == 0 || from + count - 1 > MAX_HEIGHT
    ensures r.Ok? ==> (r.value.None? <==> s.certs == [])
    ensures r.Ok? && r.value.Some? ==> Answers(s, from, count, r.value.value)
    ensures r.Ok? && r.value.Some? && DistinctKeys(s.table) ==> RowsAnswer(s, from, count, r.value.value)
  {
    hide ReadSoFar, Answers, RowsAnswer, DistinctKeys;
    if count == 0 || from + count - 1 > MAX_HEIGHT {
      return Err("invalid height range");
    }
    if s.certs == [] {
      return Ok(None);
    }
    var earliest, head := s.certs[0].key, s.certs[|s.certs| - 1].key;
    var items: seq<T>, failures: seq<(nat, Reason)> := [], [];
    NothingRead(s, from);
    for i := 0 to count
      invariant ReadSoFar(s, from, i, items, failures)
    {
      ReadOneMore(s, from, i, items, failures);
      var height := from + i;
      if height < earliest {
        failures := failures + [(height, Pruned)];
      } else if height > head {
        failures := failures + [(height, AboveCurrentHead)];
      } else {
        match Lookup(s.table, height) {
          case Some(bytes) =>
            match s.decode(bytes) {
              case Some(item) => items := items + [item];
              case None => failures := failures + [(height, Internal)];
            }
          case None =>
            match s.onMissing(height) {
              case Ok(item) => items := items + [item];
              case Err(reason) => failures := failures + [(height, reason)];
            }
        }
      }
    }
    if failures == [] {
      ItemsAnswer(s, from, count, items);
      if DistinctKeys(s.table) {
        AnsweredByRows(s, from, count, Complete(items));
      }
      return Ok(Some(Complete(items)));
    }
    FailuresAnswer(s, from, count, items, failures);
    var reason := failures[0].1;
    var failedHeights := SelectReason(failures, reason);
    if DistinctKeys(s.table) {
      AnsweredByRows(s, from, count, Unavailable(reason, failedHeights));
    }
    r := Ok(Some(Unavailable(reason, failedHeights)));
  }

  method SelectReason(failures: seq<(nat, Reason)>, reason: Reason) returns (heights: seq<nat>)
    ensures heights == OfReason(failures, reason)
  {
    heights := [];
    for i := 0 to |failures|
      invariant heights == OfReason(failures[..i], reason)
    {
      assert failures[..i + 1][..i] == failures[..i];
      if failures[i].1 == reason {
        heights := heights + [failures[i].0];
      }
    }
    assert failures[..|failures|] == failures;
  }

  // ----- consequences -----

  /** A range is complete exactly when none of its heights fails. */
  lemma {:induction false} CompleteExactly<T>(s: Source<T>, from: nat, count: nat, r: RangeResult<T>)
    requires s.certs != [] && Answers(s, from, count, r)
    ensures r.Complete? <==> forall h :: from <= h < from + count ==> Attempt(s, h).Ok?
  {
    hide Attempt;
    if r.Complete? {
      forall h | from <= h < from + count
        ensures Attempt(s, h).Ok?
      {
        assert Attempt(s, from + (h - from)) == Ok(r.items[h - from]);
      }
    } else {
      var low :| LowestFails(s, from, count, low, r.reason);
    }
  }

  /** A missing row is never taken for a height outside the window. */
  ghost predicate MissingInsideWindow<T>(s: Source<T>) {
    forall h: nat :: s.onMissing(h).Err? ==> s.onMissing(h).error !in {Pruned, AboveCurrentHead}
  }

  /** Pruned heights are a prefix of the range: everything in it below the first certificate. */
  lemma {:induction false} PrunedIsPrefix<T>(s: Source<T>, from: nat, count: nat, heights: seq<nat>)
    requires s.certs != [] && MissingInsideWindow(s) && Answers(s, from, count, Unavailable(Pruned, heights))
    ensures from < s.certs[0].key && |heights| == Min(s.certs[0].key - from, count)
    ensures forall i :: 0 <= i < |heights| ==> heights[i] == from + i
  {
    hide Lookup;
    assert heights != [] by {
      var low :| LowestFails(s, from, count, low, Pruned);
      assert low in heights;
    }
    assert forall h: nat :: h in heights <==> from <= h < from + Min(s.certs[0].key - from, count);
    AscendingInterval(heights, from, from + Min(s.certs[0].key - from, count));
  }

  /** Heights above the head are a suffix of the range: everything in it above the last certificate. */
  lemma {:induction false} AboveHeadIsSuffix<T>(s: Source<T>, from: nat, count: nat, heights: seq<nat>)
    requires s.certs != [] && MissingInsideWindow(s) && s.certs[0].key <= s.certs[|s.certs| - 1].key
    requires Answers(s, from, count, Unavailable(AboveCurrentHead, heights))
    ensures |heights| <= count && heights != []
    ensures forall i :: 0 <= i < |heights| ==> heights[i] == from + count - |heights| + i
    ensures heights[0] == from || heights[0] == s.certs[|s.certs| - 1].key + 1
  {
    hide Lookup;
    var head := s.certs[|s.certs| - 1].key;
    var start := if from > head then from else head + 1;
    assert start < from + count by {
      var low :| LowestFails(s, from, count, low, AboveCurrentHead);
    }
    assert forall h: nat :: h in heights <==> start <= h < from + count;
    AscendingInterval(heights, start, from + count);
  }

  /** A strictly ascending list of exactly the numbers of an interval is that interval. */
  lemma {:induction false} AscendingInterval(hs: seq<nat>, lo: nat, hi: nat)
    requires lo <= hi
    requires forall i, j :: 0 <= i < j < |hs| ==> hs[i] < hs[j]
    requires forall h: nat :: h in hs <==> lo <= h < hi
    ensures |hs| == hi - lo && forall i :: 0 <= i < |hs| ==> hs[i] == lo + i
    decreases |hs|
  {
    assert hs == [] || hs[0] in hs;
    if lo < hi {
      var n := |hs| - 1;
      assert hi - 1 in hs && hs[n] in hs;
      forall h: nat | h in hs[..n]
        ensures lo <= h < hi - 1
      {
        var i :| 0 <= i < n && hs[i] == h;
        assert hs[i] < hs[n];
      }
      forall h: nat | lo <= h < hi - 1
        ensures h in hs[..n]
      {
        assert h in hs;
        var i :| 0 <= i < |hs| && hs[i] == h;
        assert hs[..n][i] == h;
      }
      AscendingInterval(hs[..n], lo, hi - 1);
    }
  }
}
