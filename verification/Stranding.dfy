/** A store left by ordinary writes and pruning, and a crash after which a rerun strands a block. */
module Stranding {
  import opened Tables
  import opened Records
  import opened Rollback
  import BlockRuns
  import Prune

  lemma {:induction false} PutAtEnd(rows: HeightTable, key: nat, value: Bytes)
    requires forall r :: r in rows ==> r.key < key
    ensures Put(rows, key, value, HeightLess) == rows + [Row(key, value)]
    decreases |rows|
  {
    if rows != [] {
      assert rows[0] in rows;
      PutAtEnd(rows[1..], key, value);
      assert rows == [rows[0]] + rows[1..];
    }
  }

  /** A block and its certificate stored above everything else go to the end of both tables. */
  lemma {:induction false} StoredAtEnd(c: BlockRuns.Chain, steps: seq<BlockRuns.Step>, h: nat)
    requires var at := BlockRuns.Run(c, steps);
             (forall r :: r in at.certificates ==> r.key < h) && (forall r :: r in at.decidedBlocks ==> r.key < h)
    ensures var at, more := BlockRuns.Run(c, steps), steps + [BlockRuns.Store(h, [], [])];
            BlockRuns.Run(c, more) == BlockRuns.Chain(at.certificates + [Row(h, [])], at.decidedBlocks + [Row(h, [])])
  {
    hide Put;
    var at := BlockRuns.Run(c, steps);
    var step := BlockRuns.Store(h, [], []);
    assert (steps + [step])[..|steps|] == steps;
    PutAtEnd(at.certificates, h, []);
    PutAtEnd(at.decidedBlocks, h, []);
  }

  lemma {:induction false} NoSteps(c: BlockRuns.Chain)
    ensures BlockRuns.Run(c, []) == c
  {
  }

  lemma {:induction false} CertificatesPruned(c: BlockRuns.Chain, steps: seq<BlockRuns.Step>)
    requires BlockRuns.Run(c, steps).certificates == [Row(1, []), Row(2, []), Row(3, [])]
    ensures BlockRuns.Run(c, steps + [BlockRuns.PruneCertificates(3)]) ==
            BlockRuns.Run(c, steps).(certificates := [Row(3, [])])
  {
    var step := BlockRuns.PruneCertificates(3);
    var one: Row<nat>, two: Row<nat>, three: Row<nat> := Row(1, []), Row(2, []), Row(3, []);
    var certs := [one, two, three];
    assert (steps + [step])[..|steps|] == steps;
    assert certs[1..] == [two, three] && [two, three][1..] == [three];
    assert Prune.StaleCount([three], 3) == 0;
    assert Prune.StaleCount([two, three], 3) == 1;
    assert Prune.StaleCount(certs, 3) == 2;
    assert certs[2..] == [three];
  }

  /**
   Heights 1, 2 and 3 are stored, certificates below 3 are pruned, and a rollback to height 1 in
   batches of one crashes after its first batch. The rerun finds no certificate and block 2 stays,
   which the uninterrupted rollback removes.
   */
  lemma {:induction false} StrandedBlock() returns (steps: seq<BlockRuns.Step>, s: Store)
    ensures var chain := BlockRuns.Run(BlockRuns.Chain([], []), steps);
            s == Store(chain.certificates, chain.decidedBlocks, [], [], [], [], [])
    ensures Ascending(s.certificates) && 1 < LowBound(Top(s, 1), 2, 1, 0) < Top(s, 1)
    ensures RolledBack(Without(s, LowBound(Top(s, 1), 2, 1, 0), Top(s, 1)), 1).decidedBlocks == [Row(1, []), Row(2, [])]
    ensures RolledBack(s, 1).decidedBlocks == [Row(1, [])]
  {
    hide BlockRuns.Run, BlockRuns.Next;
    var c := BlockRuns.Chain([], []);
    var one: Row<nat>, two: Row<nat>, three: Row<nat> := Row(1, []), Row(2, []), Row(3, []);
    NoSteps(c);
    StoredAtEnd(c, [], 1);
    steps := [] + [BlockRuns.Store(1, [], [])];
    StoredAtEnd(c, steps, 2);
    steps := steps + [BlockRuns.Store(2, [], [])];
    StoredAtEnd(c, steps, 3);
    steps := steps + [BlockRuns.Store(3, [], [])];
    var chain := BlockRuns.Run(c, steps);
    assert chain.certificates == [one, two, three] && chain.decidedBlocks == [one, two, three];
    CertificatesPruned(c, steps);
    steps := steps + [BlockRuns.PruneCertificates(3)];
    s := Store([three], [one, two, three], [], [], [], [], []);
    assert Top(s, 1) == 4 && LowBound(4, 2, 1, 0) == 3;
    RolledBlocks(s);
  }

  lemma {:induction false} RolledBlocks(s: Store)
    requires s == Store([Row(3, [])], [Row(1, []), Row(2, []), Row(3, [])], [], [], [], [], [])
    ensures RolledBack(Without(s, 3, 4), 1).decidedBlocks == [Row(1, []), Row(2, [])]
    ensures RolledBack(s, 1).decidedBlocks == [Row(1, [])]
  {
    hide Outside;
    var one: Row<nat>, two: Row<nat>, three: Row<nat> := Row(1, []), Row(2, []), Row(3, []);
    ThreeRows(one, two, three, 3, 4);
    ThreeRows(one, two, three, 2, 4);
    var crashed := Without(s, 3, 4);
    assert crashed.certificates == [] by {
      OutsideAppend([], three, Itself, 3, 4);
      NothingOutside([], Itself, 3, 4);
      assert [] + [three] == s.certificates;
    }
    OutsideEmptyRange(crashed.decidedBlocks, Itself, 2);
  }

  lemma {:induction false} ThreeRows(one: Row<nat>, two: Row<nat>, three: Row<nat>, lo: nat, hi: nat)
    requires one.key < two.key < three.key && two.key <= lo <= three.key < hi
    ensures Outside([one, two, three], Itself, lo, hi) == if lo == two.key then [one] else [one, two]
  {
    hide Outside;
    var none: HeightTable := [];
    assert none + [one] == [one] && [one] + [two] == [one, two] && [one, two] + [three] == [one, two, three];
    NothingOutside(none, Itself, lo, hi);
    OutsideAppend(none, one, Itself, lo, hi);
    assert Outside([one], Itself, lo, hi) == [one];
    OutsideAppend([one], two, Itself, lo, hi);
    assert Outside([one, two], Itself, lo, hi) == if lo == two.key then [one] else [one, two];
    OutsideAppend([one, two], three, Itself, lo, hi);
  }
}
