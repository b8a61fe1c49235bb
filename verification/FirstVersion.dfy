/** The migrators from unversioned records to version 1, which put a version byte in front of every record. */
module FirstVersion {
  import opened Basics
  import opened Tables
  import opened Records
  import opened Migration
  import opened Coordinator
  import opened MigrationResume

  const CERTIFICATE_VERSION := 1
  const PAYLOAD_VERSION := 3
  const BLOCK_VERSION := 1
  const PARTS_VERSION := 1

  /** Wants every record, refuses an empty one, and otherwise puts the byte in front. */
  function Prefixing(version: nat): Migrator {
    Migrator(_ => true, (v: Bytes) => if v == [] then Err("empty") else Ok([version] + v))
  }

  function V1(): MigratorSet {
    MigratorSet(Prefixing(CERTIFICATE_VERSION), Prefixing(PAYLOAD_VERSION), Prefixing(BLOCK_VERSION),
                Prefixing(PARTS_VERSION))
  }

  lemma {:induction false} PrefixedRecord(version: nat, v: Bytes)
    ensures var m := Prefixing(version);
            && (Fails(m, v) <==> v == [])
            && Fixed(m, v) == (if v == [] then [] else [version] + v)
            && (Fails(m, Fixed(m, v)) <==> Fails(m, v))
            && (v != [] ==> Fixed(m, Fixed(m, v)) != Fixed(m, v))
  {
    var m := Prefixing(version);
    if v != [] {
      assert |Fixed(m, Fixed(m, v))| == |v| + 2 && |Fixed(m, v)| == |v| + 1;
    }
  }

  /** Scanning a partly prefixed table again leaves the uninterrupted rows exactly when no record had been prefixed. */
  lemma {:induction false} PrefixAgain<K>(version: nat, rows: seq<Row<K>>, k: nat, j: nat)
    requires k <= j <= |rows| && k <= FirstFailing(Prefixing(version), rows)
    ensures var m := Prefixing(version);
            && |Partly(m, rows, k)| == |rows|
            && FirstFailing(m, Partly(m, rows, k)) == FirstFailing(m, rows)
            && (Partly(m, Partly(m, rows, k), j) == Partly(m, rows, j) <==> k == 0)
  {
    hide Partly, Fails, Fixed, Prefixing;
    var m := Prefixing(version);
    var now := Partly(m, rows, k);
    PartlyKeys(m, rows, k);
    forall i | 0 <= i < |rows|
      ensures Fails(m, now[i].value) <==> Fails(m, rows[i].value)
    {
      PrefixedRecord(version, rows[i].value);
    }
    SameFirstFailing(m, now, rows);
    PartlyKeys(m, now, j);
    PartlyKeys(m, rows, j);
    if k == 0 {
      PartlyNone(m, rows);
    } else {
      PrefixedRecord(version, rows[0].value);
      assert Partly(m, now, j)[0] != Partly(m, rows, j)[0];
    }
  }

  /** The same rows with the byte in front of every record. */
  ghost predicate Prefixed<K>(version: nat, before: seq<Row<K>>, after: seq<Row<K>>) {
    |after| == |before| &&
    forall i :: 0 <= i < |before| ==> after[i].key == before[i].key && after[i].value == [version] + before[i].value
  }

  ghost predicate NoEmptyRecord<K>(rows: seq<Row<K>>) {
    forall i :: 0 <= i < |rows| ==> rows[i].value != []
  }

  lemma {:induction false} PrefixingMeans<K>(version: nat, before: seq<Row<K>>, after: seq<Row<K>>)
    ensures Migratable(Prefixing(version), before) <==> NoEmptyRecord(before)
    ensures NoEmptyRecord(before) && Rewritten(Prefixing(version), before, after, |before|) ==>
              Prefixed(version, before, after)
  {
    var m := Prefixing(version);
    forall i | 0 <= i < |before|
      ensures m.needs(before[i].value) && (m.migrate(before[i].value).Ok? <==> before[i].value != [])
    {
    }
  }

  /**
   The step to version 1 succeeds exactly when no record is empty; then certificates, undecided
   blocks and pending parts have a 1 in front, decided blocks a 3.
   */
  lemma {:induction false} FirstVersionMeans(db: Db)
    ensures StepTables(V1(), db).ok <==>
            NoEmptyRecord(db.certificates) && NoEmptyRecord(db.decidedBlocks) &&
            NoEmptyRecord(db.undecidedBlocks) && NoEmptyRecord(db.pendingParts)
    ensures StepTables(V1(), db).ok ==>
              var after := StepTables(V1(), db).db;
              && Prefixed(1, db.certificates, after.certificates) && Prefixed(3, db.decidedBlocks, after.decidedBlocks)
              && Prefixed(1, db.undecidedBlocks, after.undecidedBlocks)
              && Prefixed(1, db.pendingParts, after.pendingParts)
  {
    hide Migratable, Rewritten, Prefixing, StepTables, NoEmptyRecord, Prefixed;
    StepMeans(V1(), db);
    var after := StepTables(V1(), db).db;
    PrefixingMeans(CERTIFICATE_VERSION, db.certificates, after.certificates);
    PrefixingMeans(PAYLOAD_VERSION, db.decidedBlocks, after.decidedBlocks);
    PrefixingMeans(BLOCK_VERSION, db.undecidedBlocks, after.undecidedBlocks);
    PrefixingMeans(PARTS_VERSION, db.pendingParts, after.pendingParts);
  }

  /**
   Running the step again after it stopped ends as the uninterrupted step does exactly when no
   record of any table had been rewritten before the stop.
   */
  lemma {:induction false} RerunExact(db: Db, p: Progress)
    requires LegalProgress(V1(), db, p)
    ensures StepTables(V1(), AtProgress(V1(), db, p)) == StepTables(V1(), db) <==> p == Progress(0, 0, 0, 0)
  {
    hide Partly, FirstFailing, Prefixing;
    var ms := V1();
    PrefixAgain(CERTIFICATE_VERSION, db.certificates, p.certificates, BatchedReach(ms.certificate, db.certificates));
    PrefixAgain(PAYLOAD_VERSION, db.decidedBlocks, p.decidedBlocks, BatchedReach(ms.decidedBlock, db.decidedBlocks));
    PrefixAgain(BLOCK_VERSION, db.undecidedBlocks, p.undecidedBlocks,
                WholeReach(ms.undecidedBlock, db.undecidedBlocks));
    PrefixAgain(PARTS_VERSION, db.pendingParts, p.pendingParts, WholeReach(ms.pendingParts, db.pendingParts));
    PartlyNone(ms.certificate, db.certificates);
    NoneRewritten(ms, db);
  }

  /**
   One certificate, one decided block, and a stop between the two tables: the rerun prefixes the
   certificate twice.
   */
  lemma {:induction false} PrefixedTwice() returns (db: Db, p: Progress)
    ensures LegalProgress(V1(), db, p) && StepTables(V1(), db).ok
    ensures db.certificates == [Row(1, [7])]
    ensures StepTables(V1(), db).db.certificates == [Row(1, [1, 7])]
    ensures StepTables(V1(), AtProgress(V1(), db, p)).db.certificates == [Row(1, [1, 1, 7])]
  {
    var cert: Row<nat>, block: Row<nat>, once: Row<nat> := Row(1, [7]), Row(1, [9]), Row(1, [1, 7]);
    db := Db([cert], [block], [], [], Some(0));
    p := Progress(1, 0, 0, 0);
    OneRecord(CERTIFICATE_VERSION, cert);
    OneRecord(PAYLOAD_VERSION, block);
    OneRecord(CERTIFICATE_VERSION, once);
    assert [1] + [7] == [1, 7] && [1] + [1, 7] == [1, 1, 7];
  }

  lemma {:induction false} OneRecord(version: nat, r: Row<nat>)
    requires r.value != []
    ensures var m := Prefixing(version);
            && Clean(m, [r]) && BatchedReach(m, [r]) == 1
            && Partly(m, [r], 1) == [Row(r.key, [version] + r.value)]
  {
    PrefixedRecord(version, r.value);
    assert [r][..0] == [] && [r][..1] == [r] && [r][1..] == [];
  }
}
