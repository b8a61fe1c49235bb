/** Running a migration again after it stopped part-way. */
module MigrationResume {
  import opened Basics
  import opened Tables
  import opened Records
  import opened Migration
  import opened Coordinator

  /** A record that has been rewritten no longer needs rewriting. */
  ghost predicate Settles(m: Migrator) {
    forall v: Bytes :: m.needs(v) && m.migrate(v).Ok? ==> !m.needs(m.migrate(v).value)
  }

  ghost predicate SetSettles(ms: MigratorSet) {
    Settles(ms.certificate) && Settles(ms.decidedBlock) && Settles(ms.undecidedBlock) && Settles(ms.pendingParts)
  }

  ghost predicate AllSettle(sets: Migrators) {
    forall v :: v in sets ==> SetSettles(sets[v])
  }

  /** The default test: the record starts with the source version's byte. */
  predicate StartsWith(version: nat, v: Bytes) {
    v != [] && v[0] == version
  }

  /** The default test settles a migrator that writes a different version byte. */
  lemma {:induction false} VersionByteSettles(m: Migrator, source: nat, target: nat)
    requires source != target
    requires forall v: Bytes :: m.needs(v) <==> StartsWith(source, v)
    requires forall v: Bytes :: m.needs(v) && m.migrate(v).Ok? ==> StartsWith(target, m.migrate(v).value)
    ensures Settles(m)
  {
  }

  // ----- one table -----

  lemma {:induction false} SameFirstFailing<K>(m: Migrator, a: seq<Row<K>>, b: seq<Row<K>>)
    requires |a| == |b| && forall i :: 0 <= i < |a| ==> (Fails(m, a[i].value) <==> Fails(m, b[i].value))
    ensures FirstFailing(m, a) == FirstFailing(m, b)
  {
  }

  lemma {:induction false} FixedSettles(m: Migrator, v: Bytes)
    requires Settles(m)
    ensures Fixed(m, Fixed(m, v)) == Fixed(m, v)
    ensures Fails(m, Fixed(m, v)) <==> Fails(m, v)
  {
  }

  /** Scanning a partly rewritten table again finds the same obstacle and leaves the same rows. */
  lemma {:induction false} TableAgain<K>(m: Migrator, rows: seq<Row<K>>, k: nat, j: nat)
    requires Settles(m) && k <= j <= |rows|
    ensures |Partly(m, rows, k)| == |rows|
    ensures FirstFailing(m, Partly(m, rows, k)) == FirstFailing(m, rows)
    ensures Partly(m, Partly(m, rows, k), j) == Partly(m, rows, j)
  {
    hide Settles, Fails, Fixed, Partly;
    var now := Partly(m, rows, k);
    PartlyKeys(m, rows, k);
    forall i | 0 <= i < |rows|
      ensures Fails(m, now[i].value) <==> Fails(m, rows[i].value)
      ensures Fixed(m, now[i].value) == Fixed(m, rows[i].value)
    {
      FixedSettles(m, rows[i].value);
    }
    SameFirstFailing(m, now, rows);
    PartlyKeys(m, now, j);
    PartlyKeys(m, rows, j);
    forall i | 0 <= i < |rows|
      ensures Partly(m, now, j)[i] == Partly(m, rows, j)[i]
    {
    }
  }

  // ----- one step -----

  /** A step run again from any legal stopping point ends as the uninterrupted step does, failures included. */
  lemma {:induction false} StepAgain(ms: MigratorSet, db: Db, p: Progress)
    requires SetSettles(ms) && LegalProgress(ms, db, p)
    ensures StepTables(ms, AtProgress(ms, db, p)) == StepTables(ms, db)
  {
    hide Partly, FirstFailing, Settles;
    TableAgain(ms.certificate, db.certificates, p.certificates, BatchedReach(ms.certificate, db.certificates));
    TableAgain(ms.decidedBlock, db.decidedBlocks, p.decidedBlocks, BatchedReach(ms.decidedBlock, db.decidedBlocks));
    TableAgain(ms.undecidedBlock, db.undecidedBlocks, p.undecidedBlocks,
               WholeReach(ms.undecidedBlock, db.undecidedBlocks));
    TableAgain(ms.pendingParts, db.pendingParts, p.pendingParts, WholeReach(ms.pendingParts, db.pendingParts));
    NoneRewritten(ms, db);
  }

  /** Every table is rewritten by its own migrator, record by record; the version is not touched. */
  ghost predicate StepRewritten(ms: MigratorSet, before: Db, after: Db) {
    && Rewritten(ms.certificate, before.certificates, after.certificates, |before.certificates|)
    && Rewritten(ms.decidedBlock, before.decidedBlocks, after.decidedBlocks, |before.decidedBlocks|)
    && Rewritten(ms.undecidedBlock, before.undecidedBlocks, after.undecidedBlocks, |before.undecidedBlocks|)
    && Rewritten(ms.pendingParts, before.pendingParts, after.pendingParts, |before.pendingParts|)
    && after.version == before.version
  }

  /** A step succeeds exactly when every wanted record of every table can be rewritten, and then all of them are. */
  lemma {:induction false} StepMeans(ms: MigratorSet, db: Db)
    ensures StepTables(ms, db).ok <==>
            Migratable(ms.certificate, db.certificates) && Migratable(ms.decidedBlock, db.decidedBlocks) &&
            Migratable(ms.undecidedBlock, db.undecidedBlocks) && Migratable(ms.pendingParts, db.pendingParts)
    ensures StepTables(ms, db).ok ==> StepRewritten(ms, db, StepTables(ms, db).db)
  {
    hide Partly, Migratable, Rewritten, StuckAfter, Tallies, TableStats, FirstFailing;
    BatchedMeans(ms.certificate, db.certificates);
    BatchedMeans(ms.decidedBlock, db.decidedBlocks);
    WholeMeans(ms.undecidedBlock, db.undecidedBlocks);
    WholeMeans(ms.pendingParts, db.pendingParts);
  }

  // ----- the whole run -----

  /**
   Whatever a run had made durable when it stopped, running it again ends with the same records,
   the same version and the same success as the run that was not interrupted.
   */
  lemma {:induction false} ResumeSame(sets: Migrators, db: Db, from: nat, to: nat, c: Db)
    requires Supported(sets, from, to) && AllSettle(sets) && db.version == Some(from)
    requires Stops(sets, db, from, to, c)
    ensures c.version.Some? && from <= c.version.value
    ensures Supported(sets, c.version.value, to)
    ensures Steps(sets, c, c.version.value, to) == Steps(sets, db, from, to)
    decreases if from < to then to - from else 0
  {
    hide StepTables, SetSettles;
    if c != db {
      var ms := sets[from + 1];
      if MidStep(ms, db, c) {
        var p :| LegalProgress(ms, db, p) && c == AtProgress(ms, db, p);
        StepAgain(ms, db, p);
      } else {
        ResumeSame(sets, StepTables(ms, db).db.(version := Some(from + 1)), from + 1, to, c);
      }
    }
  }

  /** A run started from `db` may stop in `c`. */
  ghost predicate MayStop(sets: Migrators, to: nat, db: Db, c: Db) {
    db.version.Some? && Supported(sets, db.version.value, to) && Stops(sets, db, db.version.value, to, c)
  }

  /** Each state is where a run started from the one before it may stop. */
  ghost predicate CrashSequence(sets: Migrators, to: nat, states: seq<Db>) {
    forall i, j :: 0 <= i < j < |states| && j == i + 1 ==> MayStop(sets, to, states[i], states[j])
  }

  lemma {:induction false} CrashPrefix(sets: Migrators, to: nat, states: seq<Db>, n: nat)
    requires CrashSequence(sets, to, states) && n <= |states|
    ensures CrashSequence(sets, to, states[..n])
  {
    hide MayStop;
  }

  /** However often the migration stops and is started again, completing it gives the uninterrupted result. */
  lemma {:induction false} CrashesResume(sets: Migrators, to: nat, states: seq<Db>)
    requires states != [] && AllSettle(sets) && CrashSequence(sets, to, states)
    requires states[0].version.Some? && Supported(sets, states[0].version.value, to)
    ensures var last := states[|states| - 1];
            && last.version.Some? && Supported(sets, last.version.value, to)
            && Steps(sets, last, last.version.value, to) == Steps(sets, states[0], states[0].version.value, to)
    decreases |states|
  {
    hide Stops, Steps, AllSettle;
    if |states| > 1 {
      var n := |states| - 1;
      CrashPrefix(sets, to, states, n);
      assert MayStop(sets, to, states[n - 1], states[n]);
      CrashesResume(sets, to, states[..n]);
      ResumeSame(sets, states[n - 1], states[n - 1].version.value, to, states[n]);
    }
  }

  /** A completed migration has written the target version, so a further start changes nothing. */
  lemma {:induction false} FurtherStartup(sets: Migrators, db: Db, from: nat, to: nat, dbExists: bool)
    requires from <= to && Supported(sets, from, to) && db.version == Some(from) && Steps(sets, db, from, to).ok
    ensures var done := Steps(sets, db, from, to).db;
            && done.version == Some(to)
            && Versioned(done, dbExists, to) == done
            && Steps(sets, done, to, to) == Outcome(done, true)
    decreases if from < to then to - from else 0
  {
    hide StepTables;
    if from < to {
      FurtherStartup(sets, StepTables(sets[from + 1], db).db.(version := Some(from + 1)), from + 1, to, dbExists);
    }
  }

  /** For a chain of one step the preview succeeds exactly when the run does, with the run's counters. */
  lemma {:induction false} PreviewExact(sets: Migrators, db: Db, from: nat)
    requires Supported(sets, from, from + 1)
    ensures Previewable(sets, db, from, from + 1) <==> Steps(sets, db, from, from + 1).ok
    ensures Steps(sets, db, from, from + 1).ok ==>
            PreviewStats(sets, db, from, 1) == StepsStats(sets, db, from, from + 1)
  {
    hide StepTables, StepStats;
    var step := StepTables(sets[from + 1], db);
    assert Steps(sets, db, from, from + 1).ok == step.ok;
    assert PreviewStats(sets, db, from, 0) == NO_STATS;
  }

  function RecordCount(db: Db): nat {
    |db.certificates| + |db.decidedBlocks| + |db.undecidedBlocks| + |db.pendingParts|
  }

  /** Rewriting records neither adds nor removes any. */
  lemma {:induction false} StepKeepsCount(ms: MigratorSet, db: Db)
    ensures RecordCount(StepTables(ms, db).db) == RecordCount(db)
  {
    hide Partly, BatchedReach, WholeReach, Clean;
    PartlyKeys(ms.certificate, db.certificates, BatchedReach(ms.certificate, db.certificates));
    PartlyKeys(ms.decidedBlock, db.decidedBlocks, BatchedReach(ms.decidedBlock, db.decidedBlocks));
    PartlyKeys(ms.undecidedBlock, db.undecidedBlocks, WholeReach(ms.undecidedBlock, db.undecidedBlocks));
    PartlyKeys(ms.pendingParts, db.pendingParts, WholeReach(ms.pendingParts, db.pendingParts));
  }

  /** A successful run scans every record once per step, and every scanned record is upgraded or skipped. */
  lemma {:induction false} CountersSplit(sets: Migrators, db: Db, from: nat, to: nat)
    requires Supported(sets, from, to) && Steps(sets, db, from, to).ok
    ensures var s := StepsStats(sets, db, from, to); var steps := if from < to then to - from else 0;
            && s.scanned == steps * RecordCount(db)
            && s.upgraded + s.skipped == s.scanned
            && s.tables == 4 * steps
    decreases if from < to then to - from else 0
  {
    hide StepTables, StepStats, RecordCount;
    if from < to {
      var ms := sets[from + 1];
      var next := StepTables(ms, db).db.(version := Some(from + 1));
      CountersSplit(sets, next, from + 1, to);
      StepKeepsCount(ms, db);
      VersionKeepsCount(StepTables(ms, db).db, from + 1);
      StepCounters(ms, db);
      OneMoreTime(to - from - 1, RecordCount(db));
    }
  }

  lemma {:induction false} OneMoreTime(k: nat, n: nat)
    ensures (k + 1) * n == k * n + n
  {
  }

  lemma {:induction false} VersionKeepsCount(db: Db, v: nat)
    ensures RecordCount(db.(version := Some(v))) == RecordCount(db)
  {
  }

  /** A step scans every record of the four tables and upgrades as many as their migrators want. */
  lemma {:induction false} StepCounters(ms: MigratorSet, db: Db)
    ensures var s := StepStats(ms, db);
            && s.scanned == RecordCount(db) && s.upgraded + s.skipped == s.scanned && s.tables == 4
            && s.upgraded ==
               |Wanted(ms.certificate, db.certificates)| + |Wanted(ms.decidedBlock, db.decidedBlocks)| +
               |Wanted(ms.undecidedBlock, db.undecidedBlocks)| + |Wanted(ms.pendingParts, db.pendingParts)|
  {
    hide Needing, Wanted;
    NeedingCounts(ms.certificate, db.certificates);
    NeedingCounts(ms.decidedBlock, db.decidedBlocks);
    NeedingCounts(ms.undecidedBlock, db.undecidedBlocks);
    NeedingCounts(ms.pendingParts, db.pendingParts);
  }
}
