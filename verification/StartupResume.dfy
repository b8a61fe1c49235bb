/** Starting the node again after a start was interrupted. */
module StartupResume {
  import opened Basics
  import opened Migration
  import opened Coordinator
  import opened MigrationResume

  /** A database file that has just been created: no version and no records. */
  predicate NewFile(db: Db) {
    db == Db([], [], [], [], None)
  }

  lemma {:induction false} EmptyStep(ms: MigratorSet, db: Db)
    requires db.certificates == [] && db.decidedBlocks == [] && db.undecidedBlocks == [] && db.pendingParts == []
    ensures StepTables(ms, db) == Outcome(db, true)
  {
    PartlyNone(ms.certificate, db.certificates);
    NoneRewritten(ms, db);
  }

  /** Migrating a database without records only moves its version. */
  lemma {:induction false} EmptySteps(sets: Migrators, db: Db, from: nat, to: nat)
    requires Supported(sets, from, to) && from <= to && db.version == Some(from)
    requires db.certificates == [] && db.decidedBlocks == [] && db.undecidedBlocks == [] && db.pendingParts == []
    ensures Steps(sets, db, from, to) == Outcome(db.(version := Some(to)), true)
    decreases if from < to then to - from else 0
  {
    hide StepTables;
    if from < to {
      EmptyStep(sets[from + 1], db);
      EmptySteps(sets, db.(version := Some(from + 1)), from + 1, to);
    }
  }

  /**
   Whatever a start had made durable when it was interrupted, starting again, now with the file in
   place, ends with the same records, version and success as the start that was not interrupted. A
   new file may have been left without its version; then every version from zero must be known.
   */
  lemma {:induction false} StartupResumes(sets: Migrators, target: nat, db: Db, dbExists: bool, c: Db)
    requires AllSettle(sets) && StartupStops(sets, target, db, dbExists, c)
    requires !dbExists ==> NewFile(db) && Supported(sets, 0, target)
    ensures StartupOutcome(sets, target, c, true) == StartupOutcome(sets, target, db, dbExists)
  {
    hide Stops, Steps, AllSettle;
    var checked := Versioned(db, dbExists, target);
    var from := checked.version.value;
    if c == db {
      if !dbExists {
        EmptySteps(sets, db.(version := Some(0)), 0, target);
        EmptySteps(sets, checked, target, target);
      }
    } else if c != checked {
      ResumeSame(sets, checked, from, target, c);
      StopsBelow(sets, checked, from, target, c);
    }
  }

  /** A run never writes a version beyond its target. */
  lemma {:induction false} StopsBelow(sets: Migrators, db: Db, from: nat, to: nat, c: Db)
    requires Supported(sets, from, to) && from <= to && db.version == Some(from) && Stops(sets, db, from, to, c)
    ensures c.version.Some? && c.version.value <= to
    decreases if from < to then to - from else 0
  {
    hide StepTables;
    if c != db && !MidStep(sets[from + 1], db, c) {
      StopsBelow(sets, StepTables(sets[from + 1], db).db.(version := Some(from + 1)), from + 1, to, c);
    }
  }

  /** Each state is where a start from the one before it, with the file in place, may stop. */
  ghost predicate RestartSequence(sets: Migrators, target: nat, states: seq<Db>) {
    forall i, j :: 0 <= i < j < |states| && j == i + 1 ==> StartupStops(sets, target, states[i], true, states[j])
  }

  /** However often starts are interrupted, the one that completes gives the uninterrupted result. */
  lemma {:induction false} RestartsResume(sets: Migrators, target: nat, db: Db, dbExists: bool, states: seq<Db>)
    requires AllSettle(sets) && states != [] && StartupStops(sets, target, db, dbExists, states[0])
    requires !dbExists ==> NewFile(db) && Supported(sets, 0, target)
    requires RestartSequence(sets, target, states)
    ensures StartupOutcome(sets, target, states[|states| - 1], true) == StartupOutcome(sets, target, db, dbExists)
    decreases |states|
  {
    hide AllSettle, StartupStops, StartupOutcome;
    if |states| == 1 {
      StartupResumes(sets, target, db, dbExists, states[0]);
    } else {
      var n := |states| - 1;
      assert StartupStops(sets, target, states[n - 1], true, states[n]);
      RestartsResume(sets, target, db, dbExists, states[..n]);
      StartupResumes(sets, target, states[n - 1], true, states[n]);
    }
  }
}
