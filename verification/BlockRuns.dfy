/** Storing decided blocks and pruning old ones, over whole runs. */
module BlockRuns {
  import opened Basics
  import opened Tables
  import opened Records
  import opened RangeRead
  import Prune

  const RETH_AMNESIA_HEIGHT_COUNT := 10_000

  datatype Chain = Chain(certificates: HeightTable, decidedBlocks: HeightTable)

  ghost predicate Valid(c: Chain) {
    Ascending(c.certificates) && Ascending(c.decidedBlocks)
  }

  /** The height of the last certificate, zero without any. */
  function Head(certs: HeightTable): nat {
    if certs == [] then 0 else certs[|certs| - 1].key
  }

  lemma {:induction false} HeadIsHighest(certs: HeightTable)
    requires Ascending(certs)
    ensures forall r :: r in certs ==> r.key <= Head(certs)
    ensures certs != [] ==> exists r :: r in certs && r.key == Head(certs)
  {
    if certs != [] {
      assert certs[|certs| - 1] in certs;
    }
  }

  function RetainHeight(head: nat): nat {
    if head <= RETH_AMNESIA_HEIGHT_COUNT then 0 else head - RETH_AMNESIA_HEIGHT_COUNT
  }

  datatype Step = Store(height: nat, certificate: Bytes, block: Bytes) | PruneBlocks | PruneCertificates(retain: nat)

  function Next(c: Chain, s: Step): Chain {
    match s
    case Store(h, certificate, block) =>
      Chain(Put(c.certificates, h, certificate, HeightLess), Put(c.decidedBlocks, h, block, HeightLess))
    case PruneBlocks =>
      c.(decidedBlocks := Prune.Pruned(c.decidedBlocks, RetainHeight(Head(c.certificates))))
    case PruneCertificates(retain) =>
      c.(certificates := Prune.Pruned(c.certificates, retain))
  }

  class BlockStore {
    var chain: Chain

    constructor (chain: Chain)
      ensures this.chain == chain
    {
      this.chain := chain;
    }

    method InsertDecidedBlock(height: nat, certificate: Bytes, block: Bytes)
      modifies this
      ensures chain == Next(old(chain), Store(height, certificate, block))
      ensures forall h: nat ::
                Lookup(chain.decidedBlocks, h) ==
                if h == height then Some(block) else Lookup(old(chain).decidedBlocks, h)
      ensures forall h: nat ::
                Lookup(chain.certificates, h) ==
                if h == height then Some(certificate) else Lookup(old(chain).certificates, h)
    {
      hide Put, Lookup;
      ghost var was := chain;
      forall h: nat
        ensures Lookup(Put(was.decidedBlocks, height, block, HeightLess), h) ==
                if h == height then Some(block) else Lookup(was.decidedBlocks, h)
        ensures Lookup(Put(was.certificates, height, certificate, HeightLess), h) ==
                if h == height then Some(certificate) else Lookup(was.certificates, h)
      {
        LookupPut(was.decidedBlocks, height, block, h);
        LookupPut(was.certificates, height, certificate, h);
      }
      var blocks := Put(chain.decidedBlocks, height, block, HeightLess);
      var certs := Put(chain.certificates, height, certificate, HeightLess);
      chain := Chain(certs, blocks);
    }

    method PruneBlocks() returns (keys: seq<nat>)
      requires Valid(chain)
      modifies this
      ensures chain == Next(old(chain), Step.PruneBlocks)
      ensures keys == Prune.PrunedKeys(old(chain).decidedBlocks, RetainHeight(Head(old(chain).certificates)))
      ensures chain.certificates == old(chain).certificates
      ensures Prune.TakesLowest(old(chain).decidedBlocks, RetainHeight(Head(old(chain).certificates)), keys,
                                chain.decidedBlocks)
      ensures forall k :: k in keys ==> exists cert :: cert in chain.certificates && k + 10_000 < cert.key
      ensures |keys| < 300 ==>
                forall r, cert :: r in chain.decidedBlocks && cert in chain.certificates ==> r.key + 10_000 >= cert.key
    {
      hide Prune.StaleCount, Prune.TakesLowest;
      ghost var was := chain;
      var certs := chain.certificates;
      var current := if certs == [] then 0 else certs[|certs| - 1].key;
      var retain := if current < RETH_AMNESIA_HEIGHT_COUNT then 0 else current - RETH_AMNESIA_HEIGHT_COUNT;
      var after;
      keys, after := Prune.PruneBatch(chain.decidedBlocks, retain);
      RecentOnlyLeft(was.certificates, was.decidedBlocks, keys, after);
      chain := chain.(decidedBlocks := after);
    }

    method PruneHistoricalCerts(retain: nat) returns (keys: seq<nat>)
      requires Valid(chain)
      modifies this
      ensures chain == Next(old(chain), PruneCertificates(retain))
      ensures keys == Prune.PrunedKeys(old(chain).certificates, retain)
      ensures chain.decidedBlocks == old(chain).decidedBlocks
      ensures Prune.TakesLowest(old(chain).certificates, retain, keys, chain.certificates)
    {
      var after;
      keys, after := Prune.PruneBatch(chain.certificates, retain);
      chain := chain.(certificates := after);
    }
  }

  /** What taking the lowest rows below the head less ten thousand means for heights and certificates. */
  lemma {:induction false} RecentOnlyLeft(certs: HeightTable, rows: HeightTable, keys: seq<nat>, after: HeightTable)
    requires Ascending(certs) && Prune.TakesLowest(rows, RetainHeight(Head(certs)), keys, after)
    ensures forall k :: k in keys ==> exists cert :: cert in certs && k + 10_000 < cert.key
    ensures |keys| < 300 ==> forall r, cert :: r in after && cert in certs ==> r.key + 10_000 >= cert.key
  {
    HeadIsHighest(certs);
  }

  // ----- looking up -----

  lemma {:induction false} LookupPut(rows: HeightTable, key: nat, value: Bytes, h: nat)
    ensures Lookup(Put(rows, key, value, HeightLess), h) == if h == key then Some(value) else Lookup(rows, h)
    decreases |rows|
  {
    if rows != [] && rows[0].key != key && rows[0].key < key {
      LookupPut(rows[1..], key, value, h);
    }
  }

  lemma {:induction false} LookupDrop(rows: HeightTable, n: nat, h: nat)
    requires n <= |rows| && forall i :: 0 <= i < n ==> rows[i].key != h
    ensures Lookup(rows[n..], h) == Lookup(rows, h)
    decreases n
  {
    if n > 0 {
      LookupDrop(rows[1..], n - 1, h);
      assert rows[1..][n - 1..] == rows[n..];
    }
  }

  lemma {:induction false} PutMembers(rows: HeightTable, key: nat, value: Bytes)
    ensures forall r :: r in Put(rows, key, value, HeightLess) ==> r in rows || r == Row(key, value)
    decreases |rows|
  {
    if rows != [] {
      PutMembers(rows[1..], key, value);
    }
  }

  lemma {:induction false} PutAscending(rows: HeightTable, key: nat, value: Bytes)
    requires Ascending(rows)
    ensures Ascending(Put(rows, key, value, HeightLess))
    decreases |rows|
  {
    if rows != [] && rows[0].key < key {
      PutAscending(rows[1..], key, value);
      PutMembers(rows[1..], key, value);
      var rest := Put(rows[1..], key, value, HeightLess);
      forall i | 0 <= i < |rest|
        ensures rows[0].key < rest[i].key
      {
        assert rest[i] in rest;
      }
    }
  }

  // ----- whole runs -----

  function Run(c: Chain, steps: seq<Step>): Chain {
    if steps == [] then c else Next(Run(c, steps[..|steps| - 1]), steps[|steps| - 1])
  }

  /** The block last stored at a height, by the run or before it. */
  function Latest(c: Chain, steps: seq<Step>, h: nat): Option<Bytes> {
    if steps == [] then Lookup(c.decidedBlocks, h)
    else
      var last := steps[|steps| - 1];
      if last.Store? && last.height == h then Some(last.block) else Latest(c, steps[..|steps| - 1], h)
  }

  /** No step lowers the head. */
  predicate HeadNeverFalls(c: Chain, steps: seq<Step>) {
    steps == [] ||
    (HeadNeverFalls(c, steps[..|steps| - 1]) &&
     Head(Run(c, steps[..|steps| - 1]).certificates) <= Head(Run(c, steps).certificates))
  }

  lemma {:induction false} StepKeeps(c: Chain, s: Step, h: nat)
    requires Valid(c)
    ensures Valid(Next(c, s))
    ensures s.Store? && s.height == h ==> Lookup(Next(c, s).decidedBlocks, h) == Some(s.block)
    ensures !(s.Store? && s.height == h) && h + RETH_AMNESIA_HEIGHT_COUNT >= Head(c.certificates) ==>
              Lookup(Next(c, s).decidedBlocks, h) == Lookup(c.decidedBlocks, h)
  {
    hide Put, Lookup, Prune.StaleCount;
    match s {
      case Store(height, certificate, block) =>
        PutAscending(c.certificates, height, certificate);
        PutAscending(c.decidedBlocks, height, block);
        LookupPut(c.decidedBlocks, height, block, h);
      case PruneBlocks =>
        var retain := RetainHeight(Head(c.certificates));
        Prune.StaleFirst(c.decidedBlocks, retain);
        var n := Min(Prune.PRUNE_BATCH_LIMIT, Prune.StaleCount(c.decidedBlocks, retain));
        if h + RETH_AMNESIA_HEIGHT_COUNT >= Head(c.certificates) {
          LookupDrop(c.decidedBlocks, n, h);
        }
      case PruneCertificates(_) =>
    }
  }

  /**
   Over any run in which the head never falls, every height within the last ten thousand of the
   head still has the block last stored there.
   */
  lemma {:induction false} RecentBlocksKept(c: Chain, steps: seq<Step>, h: nat)
    requires Valid(c) && HeadNeverFalls(c, steps) && h + RETH_AMNESIA_HEIGHT_COUNT >= Head(Run(c, steps).certificates)
    ensures Valid(Run(c, steps)) && Lookup(Run(c, steps).decidedBlocks, h) == Latest(c, steps, h)
    decreases |steps|
  {
    hide Next, Lookup, Head;
    if steps != [] {
      var n := |steps| - 1;
      RecentBlocksKept(c, steps[..n], h);
      StepKeeps(Run(c, steps[..n]), steps[n], h);
    }
  }
}
