/** What a schema migration does to the database, step by step and table by table. */
module Migration {
  import opened Basics
  import opened Keys
  import opened Tables
  import opened Records

  datatype Db = Db(
    certificates: HeightTable,
    decidedBlocks: HeightTable,
    undecidedBlocks: KeyTable,
    pendingParts: KeyTable,
    version: Option<nat>)

  /** Tables iterate in key order. */
  ghost predicate ValidDb(db: Db) {
    && Ordered(db.certificates, HeightLess)
    && Ordered(db.decidedBlocks, HeightLess)
    && Ordered(db.undecidedBlocks, KeyLess)
    && Ordered(db.pendingParts, KeyLess)
  }

  datatype MigratorSet = MigratorSet(
    certificate: Migrator,
    decidedBlock: Migrator,
    undecidedBlock: Migrator,
    pendingParts: Migrator)

  datatype Stats = Stats(tables: nat, scanned: nat, upgraded: nat, skipped: nat)

  const NO_STATS := Stats(0, 0, 0, 0)

  function Merge(a: Stats, b: Stats): Stats {
    Stats(a.tables + b.tables, a.scanned + b.scanned, a.upgraded + b.upgraded, a.skipped + b.skipped)
  }

  datatype Error = UnsupportedVersion(version: nat) | MigrationFailed | VersionNotSet

  function TableStats<K>(m: Migrator, rows: seq<Row<K>>): Stats {
    Stats(1, |rows|, Needing(m, rows), |rows| - Needing(m, rows))
  }

  // ----- one schema step -----

  datatype Outcome = Outcome(db: Db, ok: bool)

  /** The four tables migrated in turn, stopping at the first record that cannot be rewritten. */
  function StepTables(ms: MigratorSet, db: Db): Outcome {
    var a := db.(certificates := Partly(ms.certificate, db.certificates,
                                        BatchedReach(ms.certificate, db.certificates)));
    if !Clean(ms.certificate, db.certificates) then Outcome(a, false)
    else
      var b := a.(decidedBlocks := Partly(ms.decidedBlock, db.decidedBlocks,
                                          BatchedReach(ms.decidedBlock, db.decidedBlocks)));
      if !Clean(ms.decidedBlock, db.decidedBlocks) then Outcome(b, false)
      else
        var c := b.(undecidedBlocks := Partly(ms.undecidedBlock, db.undecidedBlocks,
                                              WholeReach(ms.undecidedBlock, db.undecidedBlocks)));
        if !Clean(ms.undecidedBlock, db.undecidedBlocks) then Outcome(c, false)
        else
          var d := c.(pendingParts := Partly(ms.pendingParts, db.pendingParts,
                                             WholeReach(ms.pendingParts, db.pendingParts)));
          Outcome(d, Clean(ms.pendingParts, db.pendingParts))
  }

  function StepStats(ms: MigratorSet, db: Db): Stats {
    Merge(
      Merge(TableStats(ms.certificate, db.certificates), TableStats(ms.decidedBlock, db.decidedBlocks)),
      Merge(TableStats(ms.undecidedBlock, db.undecidedBlocks), TableStats(ms.pendingParts, db.pendingParts)))
  }

  // ----- a chain of steps -----

  type Migrators = map<nat, MigratorSet>

  predicate Supported(sets: Migrators, from: nat, to: nat) {
    forall v :: from < v <= to ==> v in sets
  }

  /** Every step from one schema version to another; the version is written only after the step's four tables. */
  function Steps(sets: Migrators, db: Db, from: nat, to: nat): Outcome
    requires Supported(sets, from, to)
    decreases if from < to then to - from else 0
  {
    if from >= to then Outcome(db, true)
    else
      var step := StepTables(sets[from + 1], db);
      if !step.ok then step
      else Steps(sets, step.db.(version := Some(from + 1)), from + 1, to)
  }

  function StepsStats(sets: Migrators, db: Db, from: nat, to: nat): Stats
    requires Supported(sets, from, to)
    decreases if from < to then to - from else 0
  {
    if from >= to then NO_STATS
    else
      var step := StepTables(sets[from + 1], db);
      if !step.ok then NO_STATS
      else Merge(StepStats(sets[from + 1], db), StepsStats(sets, step.db.(version := Some(from + 1)), from + 1, to))
  }

  // ----- where a run can stop -----

  /** How many records of each table are rewritten. */
  datatype Progress = Progress(certificates: nat, decidedBlocks: nat, undecidedBlocks: nat, pendingParts: nat)

  /** A table is begun only after the one before it is finished, and no table gets past its first failing record. */
  predicate LegalProgress(ms: MigratorSet, db: Db, p: Progress) {
    && p.certificates <= BatchedReach(ms.certificate, db.certificates)
    && p.decidedBlocks <= BatchedReach(ms.decidedBlock, db.decidedBlocks)
    && p.undecidedBlocks in {0, WholeReach(ms.undecidedBlock, db.undecidedBlocks)}
    && p.pendingParts in {0, WholeReach(ms.pendingParts, db.pendingParts)}
    && (p.decidedBlocks + p.undecidedBlocks + p.pendingParts > 0 ==>
          Clean(ms.certificate, db.certificates) && p.certificates == |db.certificates|)
    && (p.undecidedBlocks + p.pendingParts > 0 ==>
          Clean(ms.decidedBlock, db.decidedBlocks) && p.decidedBlocks == |db.decidedBlocks|)
    && (p.pendingParts > 0 ==>
          Clean(ms.undecidedBlock, db.undecidedBlocks) && p.undecidedBlocks == |db.undecidedBlocks|)
  }

  /** The database with that many records of each table rewritten and the version not yet written. */
  function AtProgress(ms: MigratorSet, db: Db, p: Progress): Db
    requires LegalProgress(ms, db, p)
  {
    Db(
      Partly(ms.certificate, db.certificates, p.certificates),
      Partly(ms.decidedBlock, db.decidedBlocks, p.decidedBlocks),
      Partly(ms.undecidedBlock, db.undecidedBlocks, p.undecidedBlocks),
      Partly(ms.pendingParts, db.pendingParts, p.pendingParts),
      db.version)
  }

  ghost predicate MidStep(ms: MigratorSet, db: Db, c: Db) {
    exists p :: LegalProgress(ms, db, p) && c == AtProgress(ms, db, p)
  }

  /** A state that a run from `db`, at schema version `from`, can have made durable when it stops. */
  ghost predicate Stops(sets: Migrators, db: Db, from: nat, to: nat, c: Db)
    requires Supported(sets, from, to)
    decreases if from < to then to - from else 0
  {
    c == db ||
    (from < to &&
     (MidStep(sets[from + 1], db, c) ||
      (var step := StepTables(sets[from + 1], db);
       step.ok && Stops(sets, step.db.(version := Some(from + 1)), from + 1, to, c))))
  }

  // ----- the ordered tables stay ordered -----

  lemma {:induction false} PartlyOrdered<K>(m: Migrator, rows: seq<Row<K>>, k: nat, less: (K, K) -> bool)
    requires k <= |rows| && Ordered(rows, less)
    ensures Ordered(Partly(m, rows, k), less)
  {
    hide Ordered, Partly;
    PartlyKeys(m, rows, k);
    SameKeysOrdered(rows, Partly(m, rows, k), less);
  }

  lemma {:induction false} PartlyNone<K>(m: Migrator, rows: seq<Row<K>>)
    ensures Partly(m, rows, 0) == rows
  {
    assert rows[..0] == [];
  }

  lemma {:induction false} StepValid(ms: MigratorSet, db: Db)
    requires ValidDb(db)
    ensures ValidDb(StepTables(ms, db).db)
  {
    hide Ordered, Partly, BatchedReach, WholeReach, Clean;
    PartlyOrdered(ms.certificate, db.certificates, BatchedReach(ms.certificate, db.certificates), HeightLess);
    PartlyOrdered(ms.decidedBlock, db.decidedBlocks, BatchedReach(ms.decidedBlock, db.decidedBlocks), HeightLess);
    PartlyOrdered(ms.undecidedBlock, db.undecidedBlocks, WholeReach(ms.undecidedBlock, db.undecidedBlocks), KeyLess);
    PartlyOrdered(ms.pendingParts, db.pendingParts, WholeReach(ms.pendingParts, db.pendingParts), KeyLess);
  }
}
