/** What a rerun does after a crash between two rollback batches. */
module RollbackResume {
  import opened Keys
  import opened Tables
  import opened Rollback

  /** The highest certificate height in `(target, low)`, or `target` if there is none. */
  function CertifiedBelow(certs: HeightTable, target: nat, low: nat): (top: nat)
    ensures top >= target
  {
    if certs == [] then target
    else
      var key := certs[|certs| - 1].key;
      if target < key < low then key else CertifiedBelow(certs[..|certs| - 1], target, low)
  }

  ghost predicate NoneBetween<K>(rows: seq<Row<K>>, height: K -> nat, lo: nat, hi: nat) {
    forall r :: r in rows ==> !(lo < height(r.key) < hi)
  }

  /** No table has a row strictly between the two heights. */
  ghost predicate NothingBetween(s: Store, lo: nat, hi: nat) {
    && NoneBetween(s.certificates, Itself, lo, hi)
    && NoneBetween(s.decidedBlocks, Itself, lo, hi)
    && NoneBetween(s.invalidPayloads, Itself, lo, hi)
    && NoneBetween(s.misbehaviorEvidence, Itself, lo, hi)
    && NoneBetween(s.proposalMonitorData, Itself, lo, hi)
    && NoneBetween(s.undecidedBlocks, KeyHeight, lo, hi)
    && NoneBetween(s.pendingProposalParts, KeyHeight, lo, hi)
  }

  // ----- the head a rerun finds -----

  lemma {:induction false} AllKept(certs: HeightTable, low: nat, hi: nat)
    requires forall r :: r in certs ==> r.key < low
    ensures Outside(certs, Itself, low, hi) == certs
    decreases |certs|
  {
    if certs != [] {
      var n := |certs| - 1;
      AllKept(certs[..n], low, hi);
      assert certs[n] in certs;
      assert certs == certs[..n] + [certs[n]];
    }
  }

  lemma {:induction false} KeptIsPrefix(certs: HeightTable, low: nat, hi: nat)
    requires Ascending(certs) && forall r :: r in certs ==> r.key < hi
    ensures Outside(certs, Itself, low, hi) <= certs
    decreases |certs|
  {
    if certs != [] {
      var n := |certs| - 1;
      assert certs[n] in certs;
      if certs[n].key < low {
        AllKept(certs, low, hi);
      } else {
        KeptIsPrefix(certs[..n], low, hi);
      }
    }
  }

  lemma {:induction false} CertsAfterCrash(certs: HeightTable, low: nat, hi: nat)
    requires Ascending(certs) && forall r :: r in certs ==> r.key < hi
    ensures Outside(certs, Itself, low, hi) <= certs
    ensures forall r :: r in Outside(certs, Itself, low, hi) ==> r.key < low
    ensures forall r :: r in certs && r.key < low ==> r in Outside(certs, Itself, low, hi)
  {
    hide Outside, Ascending;
    KeptIsPrefix(certs, low, hi);
    forall r: Row<nat>
      ensures r in Outside(certs, Itself, low, hi) <==> r in certs && !(low <= r.key < hi)
    {
      OutsideMembers(certs, Itself, low, hi, r);
    }
  }

  lemma {:induction false} BelowOfKept(certs: HeightTable, kept: HeightTable, target: nat, low: nat)
    requires Ascending(certs) && kept <= certs
    requires forall r :: r in kept ==> r.key < low
    requires forall r :: r in certs && r.key < low ==> r in kept
    ensures CertifiedBelow(certs, target, low) ==
            if kept == [] || kept[|kept| - 1].key <= target then target else kept[|kept| - 1].key
    decreases |certs|
  {
    var n := |certs| - 1;
    if certs != [] && kept != certs {
      LastDropped(certs, kept, low);
      BelowOfKept(certs[..n], kept, target, low);
    } else if certs != [] && certs[n].key <= target {
      NothingCertified(certs[..n], target, low);
    }
  }

  lemma {:induction false} LastDropped(certs: HeightTable, kept: HeightTable, low: nat)
    requires Ascending(certs) && kept <= certs && certs != [] && kept != certs
    requires forall r :: r in certs && r.key < low ==> r in kept
    ensures var n := |certs| - 1;
            kept <= certs[..n] && certs[n].key >= low && Ascending(certs[..n]) &&
            forall r :: r in certs[..n] && r.key < low ==> r in kept
  {
    var n := |certs| - 1;
    assert certs[n] in certs;
    assert forall i :: 0 <= i < |kept| ==> kept[i] == certs[i] && kept[i] != certs[n];
    forall r | r in certs[..n] && r.key < low
      ensures r in kept
    {
      assert r in certs;
    }
  }

  lemma {:induction false} NothingCertified(certs: HeightTable, target: nat, low: nat)
    requires forall r :: r in certs ==> r.key <= target
    ensures CertifiedBelow(certs, target, low) == target
    decreases |certs|
  {
    if certs != [] {
      assert certs[|certs| - 1] in certs;
      NothingCertified(certs[..|certs| - 1], target, low);
    }
  }

  lemma {:induction false} LastIsHighest(s: Store, target: nat)
    requires Ascending(s.certificates)
    ensures target + 1 < Top(s, target) ==> forall r :: r in s.certificates ==> r.key < Top(s, target)
  {
  }

  /** A rerun takes the highest certificate left below the crash point as its head. */
  lemma {:induction false} TopAfterCrash(s: Store, target: nat, low: nat)
    requires Ascending(s.certificates) && target < low < Top(s, target)
    ensures Top(Without(s, low, Top(s, target)), target) == CertifiedBelow(s.certificates, target, low) + 1
    ensures CertifiedBelow(s.certificates, target, low) < low
  {
    hide Outside, CertifiedBelow;
    var hi := Top(s, target);
    LastIsHighest(s, target);
    var kept := Outside(s.certificates, Itself, low, hi);
    CertsAfterCrash(s.certificates, low, hi);
    BelowOfKept(s.certificates, kept, target, low);
    if kept != [] {
      assert kept[|kept| - 1] in kept;
    }
  }

  // ----- resuming -----

  lemma {:induction false} StoresAgree(s: Store, lo: nat, mid: nat, a: nat, hi: nat)
    requires lo <= mid + 1 <= a <= hi
    ensures Without(Without(s, a, hi), lo, mid + 1) == Without(s, lo, hi) <==> NothingBetween(s, mid, a)
  {
    hide Outside, NoneBetween;
    GapOnly(s.certificates, Itself, lo, mid, a, hi);
    GapOnly(s.decidedBlocks, Itself, lo, mid, a, hi);
    GapOnly(s.invalidPayloads, Itself, lo, mid, a, hi);
    GapOnly(s.misbehaviorEvidence, Itself, lo, mid, a, hi);
    GapOnly(s.proposalMonitorData, Itself, lo, mid, a, hi);
    GapOnly(s.undecidedBlocks, KeyHeight, lo, mid, a, hi);
    GapOnly(s.pendingProposalParts, KeyHeight, lo, mid, a, hi);
  }

  lemma {:induction false} GapOnly<K>(rows: seq<Row<K>>, height: K -> nat, lo: nat, mid: nat, a: nat, hi: nat)
    requires lo <= mid + 1 <= a <= hi
    ensures Outside(Outside(rows, height, a, hi), height, lo, mid + 1) == Outside(rows, height, lo, hi) <==>
            NoneBetween(rows, height, mid, a)
  {
    hide Outside;
    OutsideWithGap(rows, height, lo, mid + 1, a, hi);
  }

  /**
   Rerunning after a crash that left everything below `low` reaches the store of an uninterrupted
   rollback exactly when no table has a row in the gap between the highest certificate still above
   the target, or the target itself, and `low`.
   */
  lemma {:induction false} ResumeExact(s: Store, target: nat, low: nat)
    requires Ascending(s.certificates) && target < low < Top(s, target)
    ensures RolledBack(Without(s, low, Top(s, target)), target) == RolledBack(s, target) <==>
            NothingBetween(s, CertifiedBelow(s.certificates, target, low), low)
  {
    hide Without, NothingBetween, CertifiedBelow, Ascending;
    TopAfterCrash(s, target, low);
    StoresAgree(s, target + 1, CertifiedBelow(s.certificates, target, low), low, Top(s, target));
  }

  /** Every height above the target and up to the certificate head has a certificate. */
  ghost predicate FullyCertified(s: Store, target: nat) {
    forall h :: target < h < Top(s, target) ==> HasCertificate(s.certificates, h)
  }

  predicate HasCertificate(certs: HeightTable, h: nat) {
    exists r :: r in certs && r.key == h
  }

  lemma {:induction false} CertifiedBelowIsHighest(certs: HeightTable, target: nat, low: nat, r: Row<nat>)
    requires Ascending(certs) && r in certs && target < r.key < low
    ensures CertifiedBelow(certs, target, low) >= r.key
    decreases |certs|
  {
    var n := |certs| - 1;
    var i :| 0 <= i < |certs| && certs[i] == r;
    if !(target < certs[n].key < low) {
      assert r in certs[..n];
      CertifiedBelowIsHighest(certs[..n], target, low, r);
    }
  }

  /** Without certificate gaps every rerun finishes the rollback. */
  lemma {:induction false} CertifiedResumes(s: Store, target: nat, low: nat)
    requires Ascending(s.certificates) && target < low < Top(s, target) && FullyCertified(s, target)
    ensures RolledBack(Without(s, low, Top(s, target)), target) == RolledBack(s, target)
  {
    hide Without, CertifiedBelow, Ascending;
    ResumeExact(s, target, low);
    if low > target + 1 {
      assert HasCertificate(s.certificates, low - 1);
      var r :| r in s.certificates && r.key == low - 1;
      CertifiedBelowIsHighest(s.certificates, target, low, r);
    }
  }

  /**
   When certificates have been pruned above the target and a crash took all that were left, a rerun
   finds no certificate and removes nothing: the rollback stays unfinished exactly when some table
   has a row between the target and the crash point.
   */
  lemma {:induction false} PrunedCertificatesStrand(s: Store, target: nat, low: nat)
    requires Ascending(s.certificates) && target < low < Top(s, target)
    requires forall r :: r in s.certificates ==> low <= r.key
    ensures var crashed := Without(s, low, Top(s, target));
            && RolledBack(crashed, target) == crashed
            && (crashed == RolledBack(s, target) <==> NothingBetween(s, target, low))
  {
    hide Without, NothingBetween, Ascending, CertifiedBelow;
    var crashed := Without(s, low, Top(s, target));
    NoneCertifiedBelow(s.certificates, target, low);
    TopAfterCrash(s, target, low);
    EmptyRange(crashed, target + 1);
    ResumeExact(s, target, low);
  }

  lemma {:induction false} NoneCertifiedBelow(certs: HeightTable, target: nat, low: nat)
    requires forall r :: r in certs ==> low <= r.key
    ensures CertifiedBelow(certs, target, low) == target
    decreases |certs|
  {
    if certs != [] {
      assert certs[|certs| - 1] in certs;
      NoneCertifiedBelow(certs[..|certs| - 1], target, low);
    }
  }

  // ----- any number of crashes -----

  /** The store after one crashed run per low bound, each starting from what the one before left. */
  function Crashed(s: Store, target: nat, lows: seq<nat>): Store {
    if lows == [] then s
    else
      var before := Crashed(s, target, lows[..|lows| - 1]);
      Without(before, lows[|lows| - 1], Top(before, target))
  }

  /** Each low bound lies in the range the run it ends was removing. */
  predicate LegalCrashes(s: Store, target: nat, lows: seq<nat>) {
    lows == [] ||
    (LegalCrashes(s, target, lows[..|lows| - 1]) &&
     target < lows[|lows| - 1] < Top(Crashed(s, target, lows[..|lows| - 1]), target))
  }

  lemma {:induction false} CrashKeepsCertified(s: Store, target: nat, low: nat)
    requires Ascending(s.certificates) && target < low < Top(s, target) && FullyCertified(s, target)
    ensures var c := Without(s, low, Top(s, target)); Ascending(c.certificates) && FullyCertified(c, target)
  {
    hide Outside, CertifiedBelow;
    var c := Without(s, low, Top(s, target));
    LastIsHighest(s, target);
    CertsAfterCrash(s.certificates, low, Top(s, target));
    TopAfterCrash(s, target, low);
    forall h | target < h < Top(c, target)
      ensures HasCertificate(c.certificates, h)
    {
      assert HasCertificate(s.certificates, h);
      var r :| r in s.certificates && r.key == h;
      assert r in c.certificates;
    }
  }

  /**
   However often the rollback crashes and is rerun, the run that completes leaves the store an
   uninterrupted one would.
   */
  lemma {:induction false} CrashesResume(s: Store, target: nat, lows: seq<nat>)
    requires Ascending(s.certificates) && FullyCertified(s, target) && LegalCrashes(s, target, lows)
    ensures var c := Crashed(s, target, lows);
            Ascending(c.certificates) && FullyCertified(c, target) && RolledBack(c, target) == RolledBack(s, target)
    decreases |lows|
  {
    hide Without, Ascending, FullyCertified, RolledBack;
    if lows != [] {
      var n := |lows| - 1;
      CrashesResume(s, target, lows[..n]);
      CertifiedResumes(Crashed(s, target, lows[..n]), target, lows[n]);
      CrashKeepsCertified(Crashed(s, target, lows[..n]), target, lows[n]);
    }
  }
}
