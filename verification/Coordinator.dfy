/**
 The migration coordinator: a batched cursor scan per height table, one transaction per small
 table, the version last.
 */
module Coordinator {
  import opened Basics
  import opened Keys
  import opened Tables
  import opened Records
  import opened Migration

  datatype HeightTableName = Certificates | DecidedBlocks
  datatype KeyTableName = UndecidedBlocks | PendingParts

  function HeightRows(db: Db, t: HeightTableName): HeightTable {
    if t == Certificates then db.certificates else db.decidedBlocks
  }

  function WithHeightRows(db: Db, t: HeightTableName, rows: HeightTable): Db {
    if t == Certificates then db.(certificates := rows) else db.(decidedBlocks := rows)
  }

  function KeyRows(db: Db, t: KeyTableName): KeyTable {
    if t == UndecidedBlocks then db.undecidedBlocks else db.pendingParts
  }

  function WithKeyRows(db: Db, t: KeyTableName, rows: KeyTable): Db {
    if t == UndecidedBlocks then db.(undecidedBlocks := rows) else db.(pendingParts := rows)
  }

  /** How many records are rewritten after `i + 1` batches. */
  function AfterBatches(size: nat, i: nat): nat {
    Min(1000 * (i + 1), size)
  }

  /** State number `i` is the database with that many records of one height table rewritten, none past the reach. */
  ghost predicate HeightCommits(db: Db, t: HeightTableName, m: Migrator, states: seq<Db>) {
    forall i :: 0 <= i < |states| ==> HeightCommit(db, t, m, states[i], AfterBatches(|HeightRows(db, t)|, i))
  }

  ghost predicate HeightCommit(db: Db, t: HeightTableName, m: Migrator, c: Db, k: nat) {
    k <= BatchedReach(m, HeightRows(db, t)) && c == WithHeightRows(db, t, Partly(m, HeightRows(db, t), k))
  }

  // ----- what a table's migration means -----

  /** One table, every record scanned, and among them as many upgraded as the migrator wants. */
  ghost predicate Tallies<K>(s: Stats, m: Migrator, rows: seq<Row<K>>) {
    && s.tables == 1 && s.scanned == |rows|
    && s.upgraded == |Wanted(m, rows)|
    && s.skipped == |rows| - |Wanted(m, rows)|
  }

  lemma {:induction false} StatsTally<K>(m: Migrator, rows: seq<Row<K>>)
    ensures Tallies(TableStats(m, rows), m, rows)
  {
    hide Needing, Wanted;
    NeedingCounts(m, rows);
  }

  lemma {:induction false} BatchedMeans(m: Migrator, rows: HeightTable)
    ensures Clean(m, rows) <==> Migratable(m, rows)
    ensures Tallies(TableStats(m, rows), m, rows)
    ensures Clean(m, rows) ==> Rewritten(m, rows, Partly(m, rows, BatchedReach(m, rows)), |rows|)
    ensures !Clean(m, rows) ==> StuckAfter(m, rows, BatchedReach(m, rows)) &&
                                Rewritten(m, rows, Partly(m, rows, BatchedReach(m, rows)), BatchedReach(m, rows))
  {
    hide Partly, Migratable, Rewritten, StuckAfter, Tallies, FirstFailing;
    CleanMeans(m, rows);
    StatsTally(m, rows);
    if !Clean(m, rows) {
      ReachMeans(m, rows);
    }
    PartlyRewrites(m, rows, BatchedReach(m, rows));
  }

  /**
   The migration of a height table says success exactly when every wanted record can be rewritten,
   with the matching counts; unless it is a dry run, it has rewritten them all, one commit per
   started thousand and one for what is left, or every thousand before the one with the obstacle.
   */
  ghost predicate Migrated(
    m: Migrator, before: HeightTable, after: HeightTable, r: Result<Stats, Error>, dryRun: bool, committed: int)
  {
    && (r.Ok? <==> Migratable(m, before))
    && (r.Ok? ==> Tallies(r.value, m, before))
    && (dryRun ==> after == before && committed == 0)
    && (!dryRun && r.Ok? ==> Rewritten(m, before, after, |before|))
    && (!dryRun && r.Ok? && before != [] ==> committed == |before| / 1000 + 1)
    && (!dryRun && r.Err? ==>
          committed >= 0 && StuckAfter(m, before, 1000 * committed) && Rewritten(m, before, after, 1000 * committed))
  }

  lemma {:induction false} TableMigrated(m: Migrator, rows: HeightTable, r: Result<Stats, Error>, dryRun: bool,
          committed: nat)
    requires r.Ok? <==> Clean(m, rows)
    requires r.Ok? ==> r.value == TableStats(m, rows)
    requires dryRun ==> committed == 0
    requires !dryRun && r.Ok? && rows != [] ==> committed == |rows| / 1000 + 1
    requires !dryRun && r.Err? ==> BatchedReach(m, rows) == 1000 * committed
    ensures Migrated(m, rows, if dryRun then rows else Partly(m, rows, BatchedReach(m, rows)), r, dryRun, committed)
  {
    hide Partly, Migratable, Rewritten, StuckAfter, Tallies, Clean, TableStats, BatchedReach;
    BatchedMeans(m, rows);
  }

  lemma {:induction false} WholeMeans(m: Migrator, rows: KeyTable)
    ensures Clean(m, rows) <==> Migratable(m, rows)
    ensures Tallies(TableStats(m, rows), m, rows)
    ensures Rewritten(m, rows, Partly(m, rows, WholeReach(m, rows)), if Clean(m, rows) then |rows| else 0)
  {
    hide Partly, Migratable, Rewritten, Tallies, FirstFailing;
    CleanMeans(m, rows);
    StatsTally(m, rows);
    PartlyRewrites(m, rows, WholeReach(m, rows));
  }

  // ----- one batch -----

  /** Where the cursor stands: every record before position `k` has a smaller key than `next`, the others do not. */
  ghost predicate CursorAt(rows: HeightTable, next: nat, k: nat) {
    && k <= |rows|
    && (forall i :: 0 <= i < k ==> rows[i].key < next)
    && (forall i :: k <= i < |rows| ==> next <= rows[i].key)
  }

  lemma {:induction false} CursorAtFirst(rows: HeightTable)
    requires rows != [] && Ordered(rows, HeightLess)
    ensures CursorAt(rows, rows[0].key, 0)
  {
  }

  lemma {:induction false} CursorAfter(rows: HeightTable, end: nat)
    requires 0 < end <= |rows| && Ordered(rows, HeightLess)
    ensures CursorAt(rows, rows[end - 1].key + 1, end)
  {
  }

  lemma {:induction false} CursorSameKeys(rows: HeightTable, other: HeightTable, next: nat, k: nat)
    requires CursorAt(rows, next, k) && |rows| == |other| && forall i :: 0 <= i < |rows| ==> rows[i].key == other[i].key
    ensures CursorAt(other, next, k)
  {
  }

  /** A batch over `[k, end)` of a table rewritten up to `k` writes the table rewritten up to `end`. */
  lemma {:induction false} BatchWrites<K>(m: Migrator, rows: seq<Row<K>>, k: nat, end: nat, less: (K, K) -> bool)
    requires Ordered(rows, less) && k <= end <= |rows|
    ensures Partly(m, rows, k)[k..end] == rows[k..end]
    ensures PutAll(Partly(m, rows, k), Updates(m, rows[k..end]), less) == Partly(m, rows, end)
  {
    hide Ordered, PutAll, Updates, Fixed;
    var now := Partly(m, rows, k);
    PartlyOrdered(m, rows, k, less);
    assert now[k..end] == rows[k..end];
    PutAllUpgrades(m, now, k, end, less);
    assert now[..k] + Upgraded(m, rows[k..end]) + now[end..] == Partly(m, rows, end);
  }

  lemma {:induction false} NeedingSplit<K>(m: Migrator, rows: seq<Row<K>>, k: nat, end: nat)
    requires k <= end <= |rows|
    ensures Needing(m, rows[..k]) + Needing(m, rows[k..end]) == Needing(m, rows[..end])
    decreases end
  {
    if k == end {
      assert rows[k..end] == [];
    } else {
      NeedingSplit(m, rows, k, end - 1);
      assert rows[..end] == rows[..end - 1] + [rows[end - 1]];
      assert rows[k..end] == rows[k..end - 1] + [rows[end - 1]];
      NeedingAppend(m, rows[..end - 1], rows[end - 1]);
      NeedingAppend(m, rows[k..end - 1], rows[end - 1]);
    }
  }

  /** A scan that is clean up to position `k`, a batch boundary, and clean or not in the batch that starts there. */
  lemma {:induction false} ReachOfBatch<K>(m: Migrator, rows: seq<Row<K>>, k: nat, batches: nat)
    requires k <= |rows| && k == 1000 * batches && k <= FirstFailing(m, rows)
    ensures var end := Min(k + BATCH_SIZE, |rows|);
            if Clean(m, rows[k..end]) then end <= FirstFailing(m, rows) && end <= BatchedReach(m, rows)
            else !Clean(m, rows) && BatchedReach(m, rows) == k
  {
    var end := Min(k + BATCH_SIZE, |rows|);
    var slice := rows[k..end];
    var f := FirstFailing(m, rows);
    if Clean(m, slice) {
      forall i | k <= i < end
        ensures !Fails(m, rows[i].value)
      {
        assert slice[i - k] == rows[i];
      }
    } else {
      var g := FirstFailing(m, slice);
      assert slice[g] == rows[k + g];
      assert f <= k + g;
    }
  }

  class MigrationCoordinator {
    var db: Db
    /** Every state made durable so far. */
    ghost var commits: seq<Db>
    const target: nat
    const migrators: Migrators

    constructor (db: Db, target: nat, migrators: Migrators)
      ensures this.db == db && commits == [] && this.target == target && this.migrators == migrators
    {
      this.db := db;
      this.commits := [];
      this.target := target;
      this.migrators := migrators;
    }

    method Commit(next: Db)
      modifies this
      ensures db == next && commits == old(commits) + [next]
    {
      db := next;
      commits := commits + [next];
    }

    /** One write transaction: up to a thousand rows from a height on. */
    method MigrateBatch(t: HeightTableName, m: Migrator, next: nat, dryRun: bool, ghost rows: HeightTable, ghost k: nat)
      returns (ok: bool, cursor: nat, scanned: nat, upgraded: nat)
      requires Ordered(rows, HeightLess) && CursorAt(rows, next, k)
      requires HeightRows(db, t) == if dryRun then rows else Partly(m, rows, k)
      modifies this
      ensures var end := Min(k + BATCH_SIZE, |rows|);
              && ok == Clean(m, rows[k..end])
              && (ok ==> scanned == end - k && upgraded == Needing(m, rows[k..end]) && CursorAt(rows, cursor, end))
              && db == (if ok && !dryRun then WithHeightRows(old(db), t, Partly(m, rows, end)) else old(db))
              && commits == old(commits) + if ok && !dryRun then [db] else []
    {
      hide Ordered, CursorAt, Partly, Clean, Needing, Updates, PutAll;
      CursorUse(rows, next, k);
      ghost var end := Min(k + BATCH_SIZE, |rows|);
      KeysAt(m, rows, next, k, dryRun);
      BatchWrites(m, rows, k, end, HeightLess);
      var now := HeightRows(db, t);
      CursorUse(now, next, k);
      var batch := RowsFrom(now, next, k);
      assert batch == rows[k..end];
      var updates;
      ok, updates := ScanRows(m, batch);
      cursor, scanned, upgraded := next, |batch|, |updates|;
      if !ok {
        return;
      }
      if batch != [] {
        cursor := batch[|batch| - 1].key + 1;
        CursorAfter(rows, end);
      }
      if !dryRun {
        var after := InsertAll(now, updates, HeightLess);
        Commit(WithHeightRows(db, t, after));
      }
    }

    /**
     Certificates and decided blocks: batches of a thousand rows from a moving height. The whole
     scan is the simple map; a record that cannot be rewritten stops it at the start of its batch.
     */
    method MigrateHeightTable(t: HeightTableName, m: Migrator, dryRun: bool) returns (r: Result<Stats, Error>)
      requires Ordered(HeightRows(db, t), HeightLess)
      modifies this
      ensures r.Ok? <==> Clean(m, HeightRows(old(db), t))
      ensures r.Ok? ==> r.value == TableStats(m, HeightRows(old(db), t))
      ensures Migrated(m, HeightRows(old(db), t), HeightRows(db, t), r, dryRun, |commits| - |old(commits)|)
      ensures db == if dryRun then old(db)
                    else WithHeightRows(old(db), t,
                                        Partly(m, HeightRows(old(db), t), BatchedReach(m, HeightRows(old(db), t))))
      ensures old(commits) <= commits && (dryRun ==> commits == old(commits))
      ensures HeightCommits(old(db), t, m, commits[|old(commits)|..])
    {
      hide Ordered, CursorAt, Partly, BatchedReach, Clean, HeightCommits, Needing, FirstFailing;
      hide Migrated, HeightRows, WithHeightRows;
      ghost var was, rows := db, HeightRows(db, t);
      PartlyNone(m, rows);
      RowsReplaced(was, t, rows, rows);
      RowsReplaced(was, t, rows, Partly(m, rows, BatchedReach(m, rows)));
      NoCommits(was, t, m);
      assert commits[|commits|..] == [];
      var first := HeightRows(db, t);
      if first == [] {
        NothingScanned(m, rows);
        r := Ok(Stats(1, 0, 0, 0));
        TableMigrated(m, rows, r, dryRun, 0);
        return;
      }
      var next: nat := first[0].key;
      CursorAtFirst(rows);
      var scanned, upgraded := 0, 0;
      ghost var states: seq<Db>, done: nat := [], 0;
      var more := true;
      NothingScanned(m, rows[..0]);
      while more
        invariant scanned <= |rows| && CursorAt(rows, next, scanned)
        invariant scanned <= FirstFailing(m, rows) && scanned <= BatchedReach(m, rows)
        invariant more ==> scanned == 1000 * done
        invariant !more ==> scanned == |rows| && done > 0 && 1000 * (done - 1) <= |rows| < 1000 * done
        invariant upgraded == Needing(m, rows[..scanned])
        invariant db == if dryRun then was else WithHeightRows(was, t, Partly(m, rows, scanned))
        invariant commits == old(commits) + states
        invariant HeightCommits(was, t, m, states)
        invariant |states| == if dryRun then 0 else done
        decreases |rows| - scanned, more
      {
        ghost var end := Min(scanned + BATCH_SIZE, |rows|);
        ReachOfBatch(m, rows, scanned, done);
        RowsReplaced(was, t, Partly(m, rows, scanned), Partly(m, rows, end));
        NeedingSplit(m, rows, scanned, end);
        var ok, cursor, found, changed := MigrateBatch(t, m, next, dryRun, rows, scanned);
        if !ok {
          assert commits[|old(commits)|..] == states;
          r := Err(MigrationFailed);
          TableMigrated(m, rows, r, dryRun, |states|);
          return;
        }
        if !dryRun {
          OneCommit(was, t, m, end, states);
          states := states + [db];
        }
        next, scanned, upgraded := cursor, scanned + found, upgraded + changed;
        done := done + 1;
        if found < BATCH_SIZE {
          more := false;
        }
      }
      assert rows[..|rows|] == rows;
      assert commits[|old(commits)|..] == states;
      AllScanned(m, rows);
      r := Ok(Stats(1, scanned, upgraded, scanned - upgraded));
      ThousandsIn(|rows|, done);
      TableMigrated(m, rows, r, dryRun, |states|);
    }

    /** Undecided blocks and pending parts: every row in one transaction. */
    method MigrateKeyTable(t: KeyTableName, m: Migrator, dryRun: bool) returns (r: Result<Stats, Error>)
      requires Ordered(KeyRows(db, t), KeyLess)
      modifies this
      ensures r.Ok? <==> Clean(m, KeyRows(old(db), t))
      ensures r.Ok? ==> r.value == TableStats(m, KeyRows(old(db), t))
      ensures r.Ok? <==> Migratable(m, KeyRows(old(db), t))
      ensures r.Ok? ==> Tallies(r.value, m, KeyRows(old(db), t))
      ensures !dryRun ==>
                Rewritten(m, KeyRows(old(db), t), KeyRows(db, t), if r.Ok? then |KeyRows(old(db), t)| else 0)
      ensures db == if dryRun then old(db)
                    else WithKeyRows(old(db), t, Partly(m, KeyRows(old(db), t), WholeReach(m, KeyRows(old(db), t))))
      ensures commits == old(commits) + if r.Ok? && !dryRun then [db] else []
    {
      hide Ordered, Partly, Clean, Needing, Updates, PutAll, KeyLess;
      hide Migratable, Tallies, Rewritten;
      var rows := KeyRows(db, t);
      WholeMeans(m, rows);
      var ok, updates := ScanRows(m, rows);
      PartlyNone(m, rows);
      if !ok {
        return Err(MigrationFailed);
      }
      assert rows[0..|rows|] == rows;
      BatchWrites(m, rows, 0, |rows|, KeyLess);
      if !dryRun {
        var after := InsertAll(rows, updates, KeyLess);
        Commit(WithKeyRows(db, t, after));
      }
      r := Ok(Stats(1, |rows|, |updates|, |rows| - |updates|));
    }

    /** All four tables of one schema step; everything made durable on the way is a legal stopping point. */
    method MigrateTables(ms: MigratorSet, dryRun: bool) returns (r: Result<Stats, Error>)
      requires ValidDb(db)
      modifies this
      ensures r.Ok? <==> StepTables(ms, old(db)).ok
      ensures r.Ok? ==> r.value == StepStats(ms, old(db))
      ensures db == if dryRun then old(db) else StepTables(ms, old(db)).db
      ensures old(commits) <= commits && (dryRun ==> commits == old(commits))
      ensures AllMidStep(ms, old(db), commits[|old(commits)|..])
    {
      hide Ordered, Partly, Clean, Needing, BatchedReach, WholeReach, HeightCommits, AllMidStep, KeyLess;
      ghost var was, start := db, |commits|;
      var certificates := MigrateHeightTable(Certificates, ms.certificate, dryRun);
      CertificateStops(ms, was, commits[start..]);
      if certificates.Err? {
        return Err(certificates.error);
      }
      ghost var before, mark := commits, |commits|;
      var decided := MigrateHeightTable(DecidedBlocks, ms.decidedBlock, dryRun);
      if !dryRun {
        DecidedStops(ms, was, commits[mark..]);
        MoreStops(ms, was, before, commits, start);
      }
      if decided.Err? {
        return Err(decided.error);
      }
      before, mark := commits, |commits|;
      var undecided := MigrateKeyTable(UndecidedBlocks, ms.undecidedBlock, dryRun);
      if !dryRun && undecided.Ok? {
        UndecidedStops(ms, was);
        assert commits[mark..] == [db];
        MoreStops(ms, was, before, commits, start);
      }
      if undecided.Err? {
        assert commits == before;
        return Err(undecided.error);
      }
      before, mark := commits, |commits|;
      var pending := MigrateKeyTable(PendingParts, ms.pendingParts, dryRun);
      if !dryRun && pending.Ok? {
        PendingStops(ms, was);
        assert commits[mark..] == [db];
        MoreStops(ms, was, before, commits, start);
      }
      if pending.Err? {
        assert commits == before;
        return Err(pending.error);
      }
      r := Ok(Merge(Merge(certificates.value, decided.value), Merge(undecided.value, pending.value)));
    }

    method SetSchemaVersion(v: nat)
      modifies this
      ensures db == old(db).(version := Some(v)) && commits == old(commits) + [db]
    {
      Commit(db.(version := Some(v)));
    }

    /**
     An unversioned existing database becomes version 0; a new one gets the target version; a newer
     one is refused.
     */
    method NeedsMigration(dbExists: bool) returns (r: Result<bool, Error>)
      modifies this
      ensures old(db).version == None ==>
                db == old(db).(version := Some(if dbExists then 0 else target)) && r == Ok(dbExists) &&
                commits == old(commits) + [db]
      ensures old(db).version.Some? ==> db == old(db) && commits == old(commits)
      ensures old(db).version.Some? ==>
                var v := old(db).version.value; r == if v > target then Err(UnsupportedVersion(v)) else Ok(v < target)
    {
      match db.version {
        case None =>
          if dbExists {
            SetSchemaVersion(0);
            r := Ok(true);
          } else {
            SetSchemaVersion(target);
            r := Ok(false);
          }
        case Some(v) =>
          if v < target {
            r := Ok(true);
          } else if v > target {
            r := Err(UnsupportedVersion(v));
          } else {
            r := Ok(false);
          }
      }
    }

    /** The steps after `from` up to `to`, or the lowest version in between that has no migrators. */
    method BuildMigrationChain(from: nat, to: nat) returns (r: Result<seq<(nat, MigratorSet)>, Error>)
      ensures r.Ok? <==> Supported(migrators, from, to)
      ensures r.Ok? ==> |r.value| == if from < to then to - from else 0
      ensures r.Ok? ==> Chained(migrators, from, r.value)
      ensures r.Err? ==>
                exists v :: from < v <= to && v !in migrators && r.error == UnsupportedVersion(v) &&
                            Supported(migrators, from, v - 1)
    {
      var chain: seq<(nat, MigratorSet)> := [];
      var version := from + 1;
      while version <= to
        invariant from < version && (from < to ==> version <= to + 1) && (from >= to ==> version == from + 1)
        invariant Supported(migrators, from, version - 1)
        invariant |chain| == version - from - 1
        invariant Chained(migrators, from, chain)
      {
        if version !in migrators {
          return Err(UnsupportedVersion(version));
        }
        chain := chain + [(version, migrators[version])];
        version := version + 1;
      }
      r := Ok(chain);
    }

    /** One schema step: its four tables, then its version. It takes a run midway one step further, or ends it. */
    method MigrateStep(version: nat, ms: MigratorSet, ghost was: Db, ghost from: nat, ghost at: nat,
            ghost stats: Stats, ghost start: nat)
      returns (r: Result<Stats, Error>)
      requires Supported(migrators, from, target) && from <= at < target && start <= |commits|
      requires version == at + 1 && version in migrators && ms == migrators[version]
      requires Midway(migrators, target, was, from, db, at, stats, commits[start..])
      modifies this
      ensures old(commits) <= commits
      ensures r.Ok? ==> Midway(migrators, target, was, from, db, at + 1, Merge(stats, r.value), commits[start..])
      ensures r.Err? ==> Steps(migrators, was, from, target) == Outcome(db, false) &&
                         AllStops(migrators, was, from, target, commits[start..])
    {
      hide ValidDb, StepTables, StepStats, AllStops, AllMidStep, StopsCarryOver, Stops, Supported, Steps, StepsStats;
      ghost var now, before := db, commits;
      SupportedNext(migrators, at, target);
      StepsUnfold(migrators, now, at, target);
      StepValid(ms, now);
      r := MigrateTables(ms, false);
      StepStops(migrators, was, from, target, now, at, before, commits, start);
      if r.Err? {
        return;
      }
      ghost var done := commits;
      VersionKeepsValid(db, version);
      SetSchemaVersion(version);
      VersionStops(migrators, was, from, target, now, at, done, commits, start);
    }

    /**
     The whole chain, the version written after each step's four tables. Everything made durable on
     the way is a state the specification allows the run to stop in.
     */
    method Migrate() returns (r: Result<Stats, Error>)
      requires ValidDb(db) && db.version.Some?
      modifies this
      ensures var from := old(db).version.value;
              if Supported(migrators, from, target) then
                && r.Ok? == Steps(migrators, old(db), from, target).ok
                && db == Steps(migrators, old(db), from, target).db
                && (r.Ok? ==> r.value == StepsStats(migrators, old(db), from, target))
                && old(commits) <= commits
                && AllStops(migrators, old(db), from, target, commits[|old(commits)|..])
              else r.Err? && db == old(db) && commits == old(commits)
    {
      hide ValidDb, AllStops, Steps, StepsStats, Supported, Chained, Midway, Merge;
      var stats := NO_STATS;
      ghost var was, start := db, |commits|;
      var from := db.version.value;
      var chain := BuildMigrationChain(from, target);
      if chain.Err? {
        return Err(chain.error);
      }
      var i := 0;
      assert commits[start..] == [];
      MidwayStart(migrators, target, was, from);
      while i < |chain.value|
        invariant i <= |chain.value| && old(commits) <= commits && start == |old(commits)|
        invariant Midway(migrators, target, was, from, db, from + i, stats, commits[start..])
      {
        ChainAt(migrators, from, chain.value, i);
        var (version, ms) := chain.value[i];
        var step := MigrateStep(version, ms, was, from, from + i, stats, start);
        if step.Err? {
          return Err(step.error);
        }
        stats := Merge(stats, step.value);
        i := i + 1;
      }
      MidwayEnd(migrators, target, was, from, db, from + i, stats, commits[start..]);
      r := Ok(stats);
    }

    /** The same scans with every transaction aborted: counts what each step would do to the records as they are now. */
    method PreviewMigrate() returns (r: Result<Stats, Error>)
      requires ValidDb(db)
      modifies this
      ensures db == old(db) && commits == old(commits)
      ensures r.Ok? <==> db.version.Some? && Supported(migrators, db.version.value, target) &&
                         Previewable(migrators, db, db.version.value, target)
      ensures r.Ok? ==>
                var from := db.version.value;
                r.value == PreviewStats(migrators, db, from, if from < target then target - from else 0)
    {
      hide ValidDb, StepTables, StepStats, AllMidStep;
      var stats := NO_STATS;
      ghost var was, before := db, commits;
      if db.version.None? {
        return Err(VersionNotSet);
      }
      var from := db.version.value;
      var chain := BuildMigrationChain(from, target);
      if chain.Err? {
        return Err(chain.error);
      }
      var i := 0;
      while i < |chain.value|
        invariant i <= |chain.value| && db == was && commits == before
        invariant Supported(migrators, from, from + i) && Previewable(migrators, was, from, from + i)
        invariant stats == PreviewStats(migrators, was, from, i)
      {
        ChainAt(migrators, from, chain.value, i);
        var step := MigrateTables(chain.value[i].1, true);
        if step.Err? {
          return Err(step.error);
        }
        stats := Merge(stats, step.value);
        i := i + 1;
      }
      r := Ok(stats);
    }

    /**
     Opening the store: migrate if the version check asks for it. Everything made durable is a
     legal stopping point.
     */
    method Startup(dbExists: bool) returns (r: Result<Option<Stats>, Error>)
      requires ValidDb(db)
      modifies this
      ensures var outcome := StartupOutcome(migrators, target, old(db), dbExists);
              r.Ok? == outcome.ok && db == outcome.db
      ensures old(commits) <= commits
      ensures AllStartupStops(migrators, target, old(db), dbExists, commits[|old(commits)|..])
    {
      hide ValidDb, StepTables, AllStops, AllStartupStops;
      assert ValidDb(db.(version := Some(if dbExists then 0 else target))) by {
        VersionKeepsValid(db, if dbExists then 0 else target);
      }
      ghost var was, start := db, |commits|;
      var needs := NeedsMigration(dbExists);
      ghost var checked := commits;
      CheckedStops(migrators, target, was, dbExists, checked[start..]);
      if needs.Err? {
        return Err(needs.error);
      }
      if !needs.value {
        return Ok(None);
      }
      ghost var from := db.version.value;
      var stats := Migrate();
      if Supported(migrators, from, target) {
        MigratedStops(migrators, target, was, dbExists, checked, commits, start);
      }
      r := if stats.Ok? then Ok(Some(stats.value)) else Err(stats.error);
    }
  }

  /** The database as the version check leaves it. */
  function Versioned(db: Db, dbExists: bool, target: nat): (r: Db)
    ensures r.version.Some?
  {
    if db.version.Some? then db else db.(version := Some(if dbExists then 0 else target))
  }

  /** What a start leaves and whether it succeeds. */
  function StartupOutcome(sets: Migrators, target: nat, db: Db, dbExists: bool): Outcome {
    var checked := Versioned(db, dbExists, target);
    var from := checked.version.value;
    if from > target || !Supported(sets, from, target) then Outcome(checked, false)
    else Steps(sets, checked, from, target)
  }

  /** A state that a start from `db` can have made durable when it stops. */
  ghost predicate StartupStops(sets: Migrators, target: nat, db: Db, dbExists: bool, c: Db) {
    var checked := Versioned(db, dbExists, target);
    var from := checked.version.value;
    c == db || c == checked ||
    (from <= target && Supported(sets, from, target) && Stops(sets, checked, from, target, c))
  }

  ghost predicate AllStartupStops(sets: Migrators, target: nat, db: Db, dbExists: bool, states: seq<Db>) {
    forall i :: 0 <= i < |states| ==> StartupStops(sets, target, db, dbExists, states[i])
  }

  /** The version check makes at most its own result durable. */
  lemma {:induction false} CheckedStops(sets: Migrators, target: nat, db: Db, dbExists: bool, states: seq<Db>)
    requires states == [] || states == [Versioned(db, dbExists, target)]
    ensures AllStartupStops(sets, target, db, dbExists, states)
  {
  }

  lemma {:induction false} MigratedStops(
    sets: Migrators, target: nat, db: Db, dbExists: bool, before: seq<Db>, after: seq<Db>, start: nat)
    requires start <= |before| && before <= after && AllStartupStops(sets, target, db, dbExists, before[start..])
    requires var checked := Versioned(db, dbExists, target);
             checked.version.value <= target && Supported(sets, checked.version.value, target) &&
             AllStops(sets, checked, checked.version.value, target, after[|before|..])
    ensures AllStartupStops(sets, target, db, dbExists, after[start..])
  {
    hide Stops, Versioned;
    var mark := |before| - start;
    forall i | 0 <= i < |after[start..]|
      ensures StartupStops(sets, target, db, dbExists, after[start..][i])
    {
      if i < mark {
        assert after[start..][i] == before[start..][i];
      } else {
        assert after[start..][i] == after[|before|..][i - mark];
      }
    }
  }

  /** Entry number `i` is the `i + 1`-st version after `from`, with its migrators. */
  ghost predicate Chained(sets: Migrators, from: nat, chain: seq<(nat, MigratorSet)>) {
    forall i :: 0 <= i < |chain| ==> ChainEntry(sets, from + 1 + i, chain[i])
  }

  ghost predicate ChainEntry(sets: Migrators, v: nat, entry: (nat, MigratorSet)) {
    v in sets && entry == (v, sets[v])
  }

  lemma {:induction false} ChainAt(sets: Migrators, from: nat, chain: seq<(nat, MigratorSet)>, i: nat)
    requires Chained(sets, from, chain) && i < |chain|
    ensures from + 1 + i in sets && chain[i] == (from + 1 + i, sets[from + 1 + i])
  {
    assert ChainEntry(sets, from + 1 + i, chain[i]);
  }

  /** No step finds a record it cannot rewrite among the records as they are. */
  predicate Previewable(sets: Migrators, db: Db, from: nat, to: nat)
    requires Supported(sets, from, to)
  {
    forall v :: from < v <= to ==> StepTables(sets[v], db).ok
  }

  /** What the first `n` steps after `from` count, each on the same records. */
  function PreviewStats(sets: Migrators, db: Db, from: nat, n: nat): Stats
    requires Supported(sets, from, from + n)
  {
    if n == 0 then NO_STATS
    else
      assert Supported(sets, from, from + (n - 1));
      Merge(PreviewStats(sets, db, from, n - 1), StepStats(sets[from + n], db))
  }

  /** Every state is one the run may stop in. */
  ghost predicate AllStops(sets: Migrators, db: Db, from: nat, to: nat, states: seq<Db>)
    requires Supported(sets, from, to)
  {
    forall i :: 0 <= i < |states| ==> Stops(sets, db, from, to, states[i])
  }

  /** Whatever a run from a later point may stop in, the run from the start may stop in. */
  ghost predicate StopsCarryOver(sets: Migrators, was: Db, from: nat, to: nat, db: Db, at: nat)
    requires Supported(sets, from, to) && from <= at
  {
    forall c :: Stops(sets, db, at, to, c) ==> Stops(sets, was, from, to, c)
  }

  lemma {:induction false} SupportedNext(sets: Migrators, from: nat, to: nat)
    requires Supported(sets, from, to) && from < to
    ensures Supported(sets, from + 1, to) && from + 1 in sets
  {
  }

  lemma {:induction false} StepsStart(sets: Migrators, db: Db, from: nat, to: nat)
    requires Supported(sets, from, to)
    ensures AllStops(sets, db, from, to, [])
    ensures StopsCarryOver(sets, db, from, to, db, from)
    ensures from >= to ==> Steps(sets, db, from, to) == Outcome(db, true) && StepsStats(sets, db, from, to) == NO_STATS
  {
  }

  /** A run from `was` has reached `db` at schema version `at`: what remains to be done completes it. */
  ghost predicate Midway(sets: Migrators, target: nat, was: Db, from: nat, db: Db, at: nat, stats: Stats,
          states: seq<Db>)
    requires Supported(sets, from, target)
  {
    && from <= at && ValidDb(db) && Supported(sets, at, target)
    && Steps(sets, db, at, target) == Steps(sets, was, from, target)
    && (Steps(sets, db, at, target).ok ==>
          Merge(stats, StepsStats(sets, db, at, target)) == StepsStats(sets, was, from, target))
    && AllStops(sets, was, from, target, states)
    && StopsCarryOver(sets, was, from, target, db, at)
  }

  lemma {:induction false} MidwayStart(sets: Migrators, target: nat, was: Db, from: nat)
    requires Supported(sets, from, target) && ValidDb(was)
    ensures Midway(sets, target, was, from, was, from, NO_STATS, [])
  {
    hide ValidDb, AllStops, Steps, StepsStats, StopsCarryOver, Supported;
    StepsStart(sets, was, from, target);
  }

  lemma {:induction false} MidwayEnd(sets: Migrators, target: nat, was: Db, from: nat, db: Db, at: nat, stats: Stats,
          states: seq<Db>)
    requires Supported(sets, from, target) && at >= target && Midway(sets, target, was, from, db, at, stats, states)
    ensures Steps(sets, was, from, target) == Outcome(db, true) && StepsStats(sets, was, from, target) == stats
    ensures AllStops(sets, was, from, target, states)
  {
    hide ValidDb, AllStops, Steps, StepsStats, StopsCarryOver, Supported;
    StepsStart(sets, db, at, target);
  }

  lemma {:induction false} StepsUnfold(sets: Migrators, db: Db, from: nat, to: nat)
    requires Supported(sets, from, to) && from < to
    ensures var step := StepTables(sets[from + 1], db);
            var next := step.db.(version := Some(from + 1));
            && Steps(sets, db, from, to) == (if step.ok then Steps(sets, next, from + 1, to) else step)
            && StepsStats(sets, db, from, to) ==
               (if step.ok then Merge(StepStats(sets[from + 1], db), StepsStats(sets, next, from + 1, to))
                else NO_STATS)
  {
  }

  lemma {:induction false} VersionKeepsValid(db: Db, v: nat)
    requires ValidDb(db)
    ensures ValidDb(db.(version := Some(v)))
  {
  }

  /** The commits of one step's tables are stopping points of the whole run. */
  lemma {:induction false} StepStops(
    sets: Migrators, was: Db, from: nat, to: nat, db: Db, at: nat, before: seq<Db>, after: seq<Db>, start: nat)
    requires Supported(sets, from, to) && from <= at < to && StopsCarryOver(sets, was, from, to, db, at)
    requires start <= |before| && before <= after && AllStops(sets, was, from, to, before[start..])
    requires AllMidStep(sets[at + 1], db, after[|before|..])
    ensures AllStops(sets, was, from, to, after[start..])
  {
    hide MidStep;
    var mark := |before| - start;
    forall i | 0 <= i < |after[start..]|
      ensures Stops(sets, was, from, to, after[start..][i])
    {
      if i < mark {
        assert after[start..][i] == before[start..][i];
      } else {
        assert after[start..][i] == after[|before|..][i - mark];
        assert Stops(sets, db, at, to, after[start..][i]);
      }
    }
  }

  /** Writing the version is a stopping point too, and the rest of the run starts there. */
  lemma {:induction false} VersionStops(
    sets: Migrators, was: Db, from: nat, to: nat, db: Db, at: nat, before: seq<Db>, after: seq<Db>, start: nat)
    requires Supported(sets, from, to) && from <= at < to && StopsCarryOver(sets, was, from, to, db, at)
    requires StepTables(sets[at + 1], db).ok
    requires start <= |before| && AllStops(sets, was, from, to, before[start..])
    requires after == before + [StepTables(sets[at + 1], db).db.(version := Some(at + 1))]
    ensures AllStops(sets, was, from, to, after[start..])
    ensures StopsCarryOver(sets, was, from, to, StepTables(sets[at + 1], db).db.(version := Some(at + 1)), at + 1)
  {
    hide MidStep, StepTables;
    var next := StepTables(sets[at + 1], db).db.(version := Some(at + 1));
    forall c | Stops(sets, next, at + 1, to, c)
      ensures Stops(sets, was, from, to, c)
    {
      assert Stops(sets, db, at, to, c);
    }
    assert Stops(sets, next, at + 1, to, next);
    assert after[start..] == before[start..] + [next];
  }

  // ----- what is durable is a legal stopping point -----

  ghost predicate AllMidStep(ms: MigratorSet, db: Db, states: seq<Db>) {
    forall i :: 0 <= i < |states| ==> MidStep(ms, db, states[i])
  }

  lemma {:induction false} MoreStops(ms: MigratorSet, db: Db, before: seq<Db>, after: seq<Db>, start: nat)
    requires before <= after && start <= |before|
    requires AllMidStep(ms, db, before[start..]) && AllMidStep(ms, db, after[|before|..])
    ensures AllMidStep(ms, db, after[start..])
  {
    hide MidStep;
    var mark := |before| - start;
    forall i | 0 <= i < |after[start..]|
      ensures MidStep(ms, db, after[start..][i])
    {
      if i < mark {
        assert after[start..][i] == before[start..][i];
      } else {
        assert after[start..][i] == after[|before|..][i - mark];
      }
    }
  }

  /** The database with a number of records of each table rewritten is a legal stopping point. */
  lemma {:induction false} StopsAt(ms: MigratorSet, db: Db, p: Progress, c: Db)
    requires LegalProgress(ms, db, p) && c == AtProgress(ms, db, p)
    ensures MidStep(ms, db, c)
  {
  }

  lemma {:induction false} NoneRewritten(ms: MigratorSet, db: Db)
    ensures Partly(ms.decidedBlock, db.decidedBlocks, 0) == db.decidedBlocks
    ensures Partly(ms.undecidedBlock, db.undecidedBlocks, 0) == db.undecidedBlocks
    ensures Partly(ms.pendingParts, db.pendingParts, 0) == db.pendingParts
  {
    PartlyNone(ms.decidedBlock, db.decidedBlocks);
    PartlyNone(ms.undecidedBlock, db.undecidedBlocks);
    PartlyNone(ms.pendingParts, db.pendingParts);
  }

  lemma {:induction false} CertificateStops(ms: MigratorSet, db: Db, states: seq<Db>)
    requires HeightCommits(db, Certificates, ms.certificate, states)
    ensures AllMidStep(ms, db, states)
  {
    hide MidStep, Partly, BatchedReach, WholeReach, Clean;
    NoneRewritten(ms, db);
    forall i | 0 <= i < |states|
      ensures MidStep(ms, db, states[i])
    {
      var k := AfterBatches(|db.certificates|, i);
      assert HeightCommit(db, Certificates, ms.certificate, states[i], k);
      StopsAt(ms, db, Progress(k, 0, 0, 0), states[i]);
    }
  }

  lemma {:induction false} DecidedStops(ms: MigratorSet, db: Db, states: seq<Db>)
    requires Clean(ms.certificate, db.certificates)
    requires HeightCommits(
               db.(certificates := Partly(ms.certificate, db.certificates,
                                          BatchedReach(ms.certificate, db.certificates))),
               DecidedBlocks, ms.decidedBlock, states)
    ensures AllMidStep(ms, db, states)
  {
    hide MidStep, Partly, WholeReach;
    var mid := db.(certificates := Partly(ms.certificate, db.certificates,
                                          BatchedReach(ms.certificate, db.certificates)));
    NoneRewritten(ms, db);
    forall i | 0 <= i < |states|
      ensures MidStep(ms, db, states[i])
    {
      var k := AfterBatches(|db.decidedBlocks|, i);
      assert HeightCommit(mid, DecidedBlocks, ms.decidedBlock, states[i], k);
      StopsAt(ms, db, Progress(|db.certificates|, k, 0, 0), states[i]);
    }
  }

  lemma {:induction false} UndecidedStops(ms: MigratorSet, db: Db)
    requires Clean(ms.certificate, db.certificates) && Clean(ms.decidedBlock, db.decidedBlocks)
    requires Clean(ms.undecidedBlock, db.undecidedBlocks)
    ensures AllMidStep(ms, db, [Db(
      Partly(ms.certificate, db.certificates, BatchedReach(ms.certificate, db.certificates)),
      Partly(ms.decidedBlock, db.decidedBlocks, BatchedReach(ms.decidedBlock, db.decidedBlocks)),
      Partly(ms.undecidedBlock, db.undecidedBlocks, WholeReach(ms.undecidedBlock, db.undecidedBlocks)),
      db.pendingParts,
      db.version)])
  {
    hide MidStep, Partly;
    NoneRewritten(ms, db);
    var p := Progress(|db.certificates|, |db.decidedBlocks|, |db.undecidedBlocks|, 0);
    StopsAt(ms, db, p, AtProgress(ms, db, p));
  }

  lemma {:induction false} PendingStops(ms: MigratorSet, db: Db)
    requires StepTables(ms, db).ok
    ensures AllMidStep(ms, db, [StepTables(ms, db).db])
  {
    hide MidStep, Partly;
    var p := Progress(|db.certificates|, |db.decidedBlocks|, |db.undecidedBlocks|, |db.pendingParts|);
    StopsAt(ms, db, p, AtProgress(ms, db, p));
  }

  lemma {:induction false} RowsReplaced(db: Db, t: HeightTableName, a: HeightTable, b: HeightTable)
    ensures HeightRows(WithHeightRows(db, t, a), t) == a && HeightRows(WithHeightRows(db, t, b), t) == b
    ensures WithHeightRows(WithHeightRows(db, t, a), t, b) == WithHeightRows(db, t, b)
    ensures WithHeightRows(db, t, HeightRows(db, t)) == db
  {
  }

  lemma {:induction false} ThousandsIn(n: nat, k: nat)
    requires k > 0 && 1000 * (k - 1) <= n < 1000 * k
    ensures k == n / 1000 + 1
  {
  }

  lemma {:induction false} NoCommits(db: Db, t: HeightTableName, m: Migrator)
    ensures HeightCommits(db, t, m, [])
  {
  }

  lemma {:induction false} OneCommit(db: Db, t: HeightTableName, m: Migrator, k: nat, states: seq<Db>)
    requires HeightCommits(db, t, m, states) && k <= BatchedReach(m, HeightRows(db, t))
    requires k == AfterBatches(|HeightRows(db, t)|, |states|)
    ensures HeightCommits(db, t, m, states + [WithHeightRows(db, t, Partly(m, HeightRows(db, t), k))])
  {
  }

  lemma {:induction false} NothingScanned<K>(m: Migrator, rows: seq<Row<K>>)
    requires rows == []
    ensures Clean(m, rows) && Needing(m, rows) == 0 && BatchedReach(m, rows) == 0 == FirstFailing(m, rows)
  {
  }

  lemma {:induction false} AllScanned<K>(m: Migrator, rows: seq<Row<K>>)
    requires FirstFailing(m, rows) >= |rows|
    ensures Clean(m, rows) && BatchedReach(m, rows) == |rows|
  {
  }

  lemma {:induction false} CursorUse(rows: HeightTable, next: nat, k: nat)
    requires CursorAt(rows, next, k)
    ensures k <= |rows|
    ensures forall i :: 0 <= i < k ==> rows[i].key < next
    ensures forall i :: k <= i < |rows| ==> next <= rows[i].key
  {
  }

  lemma {:induction false} KeysAt(m: Migrator, rows: HeightTable, next: nat, k: nat, dryRun: bool)
    requires CursorAt(rows, next, k)
    ensures CursorAt(if dryRun then rows else Partly(m, rows, k), next, k)
    ensures |Partly(m, rows, k)| == |rows|
  {
    PartlyKeys(m, rows, k);
    CursorSameKeys(rows, Partly(m, rows, k), next, k);
  }
}
