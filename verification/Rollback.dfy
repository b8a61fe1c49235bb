/** Rolling the consensus store back to a height, in batches of heights from the tip downwards. */
module Rollback {
  import opened Keys
  import opened Tables

  datatype Store = Store(
    certificates: HeightTable,
    decidedBlocks: HeightTable,
    invalidPayloads: HeightTable,
    misbehaviorEvidence: HeightTable,
    proposalMonitorData: HeightTable,
    undecidedBlocks: KeyTable,
    pendingProposalParts: KeyTable)

  datatype Report = Report(
    certificates: nat,
    decidedBlocks: nat,
    invalidPayloads: nat,
    misbehaviorEvidence: nat,
    proposalMonitorData: nat,
    undecidedBlocks: nat,
    pendingProposalParts: nat)

  const EMPTY_REPORT := Report(0, 0, 0, 0, 0, 0, 0)

  function AddReports(a: Report, b: Report): Report {
    Report(
      a.certificates + b.certificates,
      a.decidedBlocks + b.decidedBlocks,
      a.invalidPayloads + b.invalidPayloads,
      a.misbehaviorEvidence + b.misbehaviorEvidence,
      a.proposalMonitorData + b.proposalMonitorData,
      a.undecidedBlocks + b.undecidedBlocks,
      a.pendingProposalParts + b.pendingProposalParts)
  }

  /** Every table without its rows of heights in `[lo, hi)`. */
  function Without(s: Store, lo: nat, hi: nat): Store {
    Store(
      Outside(s.certificates, Itself, lo, hi),
      Outside(s.decidedBlocks, Itself, lo, hi),
      Outside(s.invalidPayloads, Itself, lo, hi),
      Outside(s.misbehaviorEvidence, Itself, lo, hi),
      Outside(s.proposalMonitorData, Itself, lo, hi),
      Outside(s.undecidedBlocks, KeyHeight, lo, hi),
      Outside(s.pendingProposalParts, KeyHeight, lo, hi))
  }

  /** How many rows of heights in `[lo, hi)` each table holds. */
  function Counts(s: Store, lo: nat, hi: nat): Report {
    Report(
      Inside(s.certificates, Itself, lo, hi),
      Inside(s.decidedBlocks, Itself, lo, hi),
      Inside(s.invalidPayloads, Itself, lo, hi),
      Inside(s.misbehaviorEvidence, Itself, lo, hi),
      Inside(s.proposalMonitorData, Itself, lo, hi),
      Inside(s.undecidedBlocks, KeyHeight, lo, hi),
      Inside(s.pendingProposalParts, KeyHeight, lo, hi))
  }

  /** The exclusive upper end of the heights a rollback to `target` removes: one past the certificate head. */
  function Top(s: Store, target: nat): nat {
    var certs := s.certificates;
    if certs == [] || certs[|certs| - 1].key <= target then target + 1 else certs[|certs| - 1].key + 1
  }

  /** The store a rollback to `target` is meant to leave. */
  function RolledBack(s: Store, target: nat): Store {
    Without(s, target + 1, Top(s, target))
  }

  /** The low bound of batch number `i` when going down from `top` to `stop`. */
  function LowBound(top: nat, stop: nat, batchSize: nat, i: nat): nat {
    var high := if i == 0 then top else LowBound(top, stop, batchSize, i - 1);
    if high < stop + batchSize then stop else high - batchSize
  }

  /** The states are the store as it stands after the first, second, ... batch going down from `top` to `stop`. */
  ghost predicate Descends(states: seq<Store>, s: Store, top: nat, stop: nat, batchSize: nat) {
    forall i :: 0 <= i < |states| ==>
      var low := LowBound(top, stop, batchSize, i);
      stop <= low < top && states[i] == Without(s, low, top)
  }

  lemma {:induction false} DescendsOnce(states: seq<Store>, s: Store, top: nat, stop: nat, batchSize: nat, next: Store)
    requires Descends(states, s, top, stop, batchSize)
    requires var low := LowBound(top, stop, batchSize, |states|); stop <= low < top && next == Without(s, low, top)
    ensures Descends(states + [next], s, top, stop, batchSize)
  {
  }

  lemma {:induction false} DescendsFromNothing(s: Store, top: nat, stop: nat, batchSize: nat)
    ensures Descends([], s, top, stop, batchSize)
  {
  }

  lemma {:induction false} LowBoundStep(top: nat, stop: nat, batchSize: nat, i: nat)
    ensures var high := if i == 0 then top else LowBound(top, stop, batchSize, i - 1);
            LowBound(top, stop, batchSize, i) == if high < stop + batchSize then stop else high - batchSize
  {
  }

  // ----- batches add up -----

  lemma {:induction false} EmptyRange(s: Store, lo: nat)
    ensures Without(s, lo, lo) == s && Counts(s, lo, lo) == EMPTY_REPORT
  {
    OutsideEmptyRange(s.certificates, Itself, lo);
    OutsideEmptyRange(s.decidedBlocks, Itself, lo);
    OutsideEmptyRange(s.invalidPayloads, Itself, lo);
    OutsideEmptyRange(s.misbehaviorEvidence, Itself, lo);
    OutsideEmptyRange(s.proposalMonitorData, Itself, lo);
    OutsideEmptyRange(s.undecidedBlocks, KeyHeight, lo);
    OutsideEmptyRange(s.pendingProposalParts, KeyHeight, lo);
  }

  lemma {:induction false} TableBatches<K>(rows: seq<Row<K>>, height: K -> nat, lo: nat, mid: nat, hi: nat)
    requires lo <= mid <= hi
    ensures Outside(Outside(rows, height, mid, hi), height, lo, mid) == Outside(rows, height, lo, hi)
    ensures Inside(rows, height, mid, hi) + Inside(Outside(rows, height, mid, hi), height, lo, mid) ==
            Inside(rows, height, lo, hi)
    ensures Inside(rows, height, mid, hi) + Inside(rows, height, lo, mid) == Inside(rows, height, lo, hi)
  {
    OutsideNoGap(rows, height, lo, mid, mid, hi);
    InsideJoined(rows, height, lo, mid, hi);
    InsideSplit(rows, height, lo, mid, hi);
  }

  /** Removing a batch below an already removed range, and counting it, removes and counts the joint range. */
  lemma {:induction false} Batches(s: Store, lo: nat, mid: nat, hi: nat)
    requires lo <= mid <= hi
    ensures Without(Without(s, mid, hi), lo, mid) == Without(s, lo, hi)
    ensures AddReports(Counts(s, mid, hi), Counts(Without(s, mid, hi), lo, mid)) == Counts(s, lo, hi)
    ensures AddReports(Counts(s, mid, hi), Counts(s, lo, mid)) == Counts(s, lo, hi)
  {
    hide Outside, Inside;
    TableBatches(s.certificates, Itself, lo, mid, hi);
    TableBatches(s.decidedBlocks, Itself, lo, mid, hi);
    TableBatches(s.invalidPayloads, Itself, lo, mid, hi);
    TableBatches(s.misbehaviorEvidence, Itself, lo, mid, hi);
    TableBatches(s.proposalMonitorData, Itself, lo, mid, hi);
    TableBatches(s.undecidedBlocks, KeyHeight, lo, mid, hi);
    TableBatches(s.pendingProposalParts, KeyHeight, lo, mid, hi);
  }

  // ----- what it means -----

  /** The heights a rollback to `target` is about: above it and up to the highest certificate. */
  ghost predicate Affected(s: Store, target: nat, h: nat) {
    target < h && exists r :: r in s.certificates && h <= r.key
  }

  /** The second table holds exactly the rows of the first whose height is not affected. */
  ghost predicate Keeps<K(!new)>(s: Store, target: nat, before: seq<Row<K>>, after: seq<Row<K>>, height: K -> nat) {
    forall r :: r in after <==> r in before && !Affected(s, target, height(r.key))
  }

  /** All seven tables hold exactly their rows at or below the target or above the highest certificate. */
  ghost predicate RowsKept(before: Store, target: nat, after: Store) {
    && Keeps(before, target, before.certificates, after.certificates, Itself)
    && Keeps(before, target, before.decidedBlocks, after.decidedBlocks, Itself)
    && Keeps(before, target, before.invalidPayloads, after.invalidPayloads, Itself)
    && Keeps(before, target, before.misbehaviorEvidence, after.misbehaviorEvidence, Itself)
    && Keeps(before, target, before.proposalMonitorData, after.proposalMonitorData, Itself)
    && Keeps(before, target, before.undecidedBlocks, after.undecidedBlocks, KeyHeight)
    && Keeps(before, target, before.pendingProposalParts, after.pendingProposalParts, KeyHeight)
  }

  /** The report holds, table by table, how many rows the second store lacks. */
  predicate Accounts(report: Report, before: Store, after: Store) {
    && report.certificates == |before.certificates| - |after.certificates|
    && report.decidedBlocks == |before.decidedBlocks| - |after.decidedBlocks|
    && report.invalidPayloads == |before.invalidPayloads| - |after.invalidPayloads|
    && report.misbehaviorEvidence == |before.misbehaviorEvidence| - |after.misbehaviorEvidence|
    && report.proposalMonitorData == |before.proposalMonitorData| - |after.proposalMonitorData|
    && report.undecidedBlocks == |before.undecidedBlocks| - |after.undecidedBlocks|
    && report.pendingProposalParts == |before.pendingProposalParts| - |after.pendingProposalParts|
  }

  lemma {:induction false} CountsAccount(s: Store, lo: nat, hi: nat)
    ensures Accounts(Counts(s, lo, hi), s, Without(s, lo, hi))
  {
    hide Inside, Outside;
    InsideIsLoss(s.certificates, Itself, lo, hi);
    InsideIsLoss(s.decidedBlocks, Itself, lo, hi);
    InsideIsLoss(s.invalidPayloads, Itself, lo, hi);
    InsideIsLoss(s.misbehaviorEvidence, Itself, lo, hi);
    InsideIsLoss(s.proposalMonitorData, Itself, lo, hi);
    InsideIsLoss(s.undecidedBlocks, KeyHeight, lo, hi);
    InsideIsLoss(s.pendingProposalParts, KeyHeight, lo, hi);
  }

  lemma {:induction false} AffectedHeights(s: Store, target: nat, h: nat)
    requires Ascending(s.certificates)
    ensures Affected(s, target, h) <==> target + 1 <= h < Top(s, target)
  {
    var certs := s.certificates;
    if certs != [] {
      assert certs[|certs| - 1] in certs;
    }
  }

  lemma {:induction false} TableKeeps<K(!new)>(s: Store, target: nat, rows: seq<Row<K>>, height: K -> nat)
    requires Ascending(s.certificates)
    ensures Keeps(s, target, rows, Outside(rows, height, target + 1, Top(s, target)), height)
  {
    hide Outside, Affected, Ascending, Top;
    forall r: Row<K>
      ensures r in Outside(rows, height, target + 1, Top(s, target)) <==>
              r in rows && !Affected(s, target, height(r.key))
    {
      OutsideMembers(rows, height, target + 1, Top(s, target), r);
      AffectedHeights(s, target, height(r.key));
    }
  }

  /** A rollback removes exactly the affected rows, and counts them. */
  lemma {:induction false} RolledBackRows(s: Store, target: nat)
    requires Ascending(s.certificates)
    ensures RowsKept(s, target, RolledBack(s, target))
  {
    hide Outside, Keeps, Ascending, Top;
    TableKeeps(s, target, s.certificates, Itself);
    TableKeeps(s, target, s.decidedBlocks, Itself);
    TableKeeps(s, target, s.invalidPayloads, Itself);
    TableKeeps(s, target, s.misbehaviorEvidence, Itself);
    TableKeeps(s, target, s.proposalMonitorData, Itself);
    TableKeeps(s, target, s.undecidedBlocks, KeyHeight);
    TableKeeps(s, target, s.pendingProposalParts, KeyHeight);
  }

  /** Batch number `i` reaches down `i + 1` batch sizes from the top, but not below the stop. */
  lemma {:induction false} LowBoundMeans(top: nat, stop: nat, batchSize: nat, i: nat)
    requires stop <= top
    ensures LowBound(top, stop, batchSize, i) ==
            if top < stop + (i + 1) * batchSize then stop else top - (i + 1) * batchSize
    decreases i
  {
    if i > 0 {
      LowBoundMeans(top, stop, batchSize, i - 1);
      assert (i + 1) * batchSize == i * batchSize + batchSize;
    }
  }

  // ----- the operation -----

  /** One write transaction over all seven tables. */
  method ApplyBatch(s: Store, lo: nat, hi: nat, dryRun: bool) returns (after: Store, found: Report)
    ensures after == if dryRun then s else Without(s, lo, hi)
    ensures found == Counts(s, lo, hi)
    ensures !dryRun ==> Accounts(found, s, after)
  {
    hide Outside, Inside;
    CountsAccount(s, lo, hi);
    var certificates, n0 := RetainHeights(s.certificates, lo, hi, dryRun);
    var decidedBlocks, n1 := RetainHeights(s.decidedBlocks, lo, hi, dryRun);
    var invalidPayloads, n2 := RetainHeights(s.invalidPayloads, lo, hi, dryRun);
    var misbehaviorEvidence, n3 := RetainHeights(s.misbehaviorEvidence, lo, hi, dryRun);
    var proposalMonitorData, n4 := RetainHeights(s.proposalMonitorData, lo, hi, dryRun);
    var undecidedBlocks, n5 := RetainKeys(s.undecidedBlocks, lo, hi, dryRun);
    var pendingProposalParts, n6 := RetainKeys(s.pendingProposalParts, lo, hi, dryRun);
    after := Store(
      certificates, decidedBlocks, invalidPayloads, misbehaviorEvidence, proposalMonitorData,
      undecidedBlocks, pendingProposalParts);
    found := Report(n0, n1, n2, n3, n4, n5, n6);
  }

  class Database {
    var store: Store
    /** Every state made durable so far: what a crash can leave behind. */
    ghost var commits: seq<Store>

    constructor (s: Store)
      ensures store == s && commits == []
    {
      store := s;
      commits := [];
    }

    /**
     Removes exactly the rows above `target` and up to the certificate head, whatever the batch
     size. A dry run changes and commits nothing and reports the same counts. After `i + 1`
     commits the tables lack exactly the heights from the batch's low bound up to the head.
     */
    method RollbackToHeight(target: nat, batchSize: nat, dryRun: bool) returns (report: Report)
      requires batchSize > 0
      modifies this
      ensures store == if dryRun then old(store) else RolledBack(old(store), target)
      ensures report == Counts(old(store), target + 1, Top(old(store), target))
      ensures Accounts(report, old(store), RolledBack(old(store), target))
      ensures !dryRun && Ascending(old(store).certificates) ==> RowsKept(old(store), target, store)
      ensures old(commits) <= commits && (dryRun ==> commits == old(commits))
      ensures Descends(commits[|old(commits)|..], old(store), Top(old(store), target), target + 1, batchSize)
      ensures !dryRun && Top(old(store), target) > target + 1 ==>
              commits != old(commits) && commits[|commits| - 1] == store
    {
      hide Without, Counts, AddReports, Descends, LowBound, Accounts, RowsKept, Ascending;
      CountsAccount(store, target + 1, Top(store, target));
      if Ascending(store.certificates) {
        RolledBackRows(store, target);
      }
      DescendsFromNothing(store, Top(store, target), target + 1, batchSize);
      assert commits[|commits|..] == [];
      ghost var was, top := store, Top(store, target);
      report := EMPTY_REPORT;
      EmptyRange(store, target + 1);
      var certs := store.certificates;
      if certs == [] {
        return;
      }
      var currentHeight := certs[|certs| - 1].key;
      if currentHeight <= target {
        return;
      }
      var stop := target + 1;
      var rangeHigh := currentHeight + 1;
      ghost var done: nat, states: seq<Store> := 0, [];
      EmptyRange(store, rangeHigh);
      while rangeHigh != stop
        invariant stop <= rangeHigh <= top
        invariant rangeHigh == if done == 0 then top else LowBound(top, stop, batchSize, done - 1)
        invariant (done == 0) == (rangeHigh == top)
        invariant store == if dryRun then was else Without(was, rangeHigh, top)
        invariant report == Counts(was, rangeHigh, top)
        invariant commits == old(commits) + states && |states| == if dryRun then 0 else done
        invariant Descends(states, was, top, stop, batchSize)
        invariant !dryRun && done > 0 ==> states[|states| - 1] == store
      {
        var rangeLow := if rangeHigh < stop + batchSize then stop else rangeHigh - batchSize;
        Batches(was, rangeLow, rangeHigh, top);
        LowBoundStep(top, stop, batchSize, done);
        var after, found := ApplyBatch(store, rangeLow, rangeHigh, dryRun);
        report := AddReports(report, found);
        if !dryRun {
          DescendsOnce(states, was, top, stop, batchSize, after);
          store := after;
          commits, states := commits + [after], states + [after];
        }
        rangeHigh := rangeLow;
        done := done + 1;
      }
      assert commits[|old(commits)|..] == states;
    }
  }
}
