/** When the builder's lists pass the receipt check, for every combination of statuses and completions. */
module Classification {
  import opened Basics
  import opened Capture
  import opened Traversal
  import opened TraceBuilder
  import opened Provenance
  import opened Numbering
  import opened ListTheorems
  import opened Placement
  import opened Positions
  import opened Ids
  import opened Shape

  function RootCount(traces: seq<Trace>): nat {
    if traces == [] then 0
    else RootCount(traces[..|traces| - 1]) + if traces[|traces| - 1].parentTraceId == "" then 1 else 0
  }

  function ValidateClassification(txSuccess: bool, lists: Lists): Result<(), string> {
    var successRoots, errorRoots := RootCount(lists.traces), RootCount(lists.errorTraces);
    if exists t :: t in lists.traces && t.error != "" then Err("successful trace has an error")
    else if exists t :: t in lists.errorTraces && t.error == "" then Err("error trace has no error")
    else if exists e :: e in lists.errorEvents && e.idx != 0 then Err("error event has a non-zero index")
    else if txSuccess then
      if successRoots == 1 && errorRoots == 0 then Ok(())
      else Err("successful receipt does not have exactly one successful root trace")
    else
      if successRoots == 0 && errorRoots == 1 && lists.traces == [] && lists.events == [] then Ok(())
      else Err("failed receipt has successful traces or events")
  }

  /** The positions of the traces without a parent. */
  ghost function Roots(traces: seq<Trace>): set<nat> {
    set i: nat | i < |traces| && traces[i].parentTraceId == ""
  }

  lemma {:induction false} RootCountMeans(traces: seq<Trace>)
    ensures RootCount(traces) == |Roots(traces)|
    decreases |traces|
  {
    hide RootCount, Roots;
    if traces == [] {
      NoRoots(traces);
    } else {
      var n := |traces| - 1;
      assert traces == traces[..n] + [traces[n]];
      RootCountMeans(traces[..n]);
      RootCountAppend(traces[..n], traces[n]);
      RootsAppend(traces[..n], traces[n]);
    }
  }

  lemma {:induction false} RootsAppend(traces: seq<Trace>, t: Trace)
    ensures |Roots(traces + [t])| == |Roots(traces)| + if t.parentTraceId == "" then 1 else 0
  {
    var n := |traces|;
    assert n !in Roots(traces);
    assert Roots(traces + [t]) == if t.parentTraceId == "" then Roots(traces) + {n} else Roots(traces);
  }

  lemma {:induction false} NoRoots(traces: seq<Trace>)
    requires traces == []
    ensures RootCount(traces) == 0 == |Roots(traces)|
  {
    assert Roots(traces) == {};
  }

  /**
   Any lists are accepted exactly when error texts and buckets agree, error events have no index,
   and there is one root, in the bucket the receipt says, with nothing successful beside a failed one.
   */
  lemma {:induction false} CheckAccepts(txSuccess: bool, lists: Lists)
    ensures ValidateClassification(txSuccess, lists).Ok? <==>
            && (forall t :: t in lists.traces ==> t.error == "")
            && (forall t :: t in lists.errorTraces ==> t.error != "")
            && (forall e :: e in lists.errorEvents ==> e.idx == 0)
            && (txSuccess ==> |Roots(lists.traces)| == 1 && |Roots(lists.errorTraces)| == 0)
            && (!txSuccess ==> lists.traces == [] && lists.events == [] && |Roots(lists.errorTraces)| == 1)
  {
    hide RootCount, Roots;
    RootCountMeans(lists.traces);
    RootCountMeans(lists.errorTraces);
    if lists.traces == [] {
      NoRoots(lists.traces);
    }
  }

  // ----- entries -----

  /** A trace carries an error text exactly when it is in the error bucket. */
  ghost predicate Classified(item: Item) {
    item.TraceItem? ==> (item.success <==> item.trace.error == "")
  }

  ghost predicate AllClassified(items: seq<Item>) {
    forall i :: 0 <= i < |items| ==> Classified(items[i])
  }

  lemma {:induction false} ListsClassified(items: seq<Item>)
    ensures var lists := AddItems(NO_LISTS, items);
            AllClassified(items) <==>
              (forall t :: t in lists.traces ==> t.error == "") &&
              (forall t :: t in lists.errorTraces ==> t.error != "")
    decreases |items|
  {
    if items != [] {
      var n := |items| - 1;
      ListsClassified(items[..n]);
      assert AllClassified(items) <==> AllClassified(items[..n]) && Classified(items[n]);
    }
  }

  /** Exactly the first entry is a root. */
  ghost predicate OneRoot(items: seq<Item>) {
    && items != [] && items[0].TraceItem? && items[0].trace.parentTraceId == ""
    && forall i :: 1 <= i < |items| && items[i].TraceItem? ==> items[i].trace.parentTraceId != ""
  }

  lemma {:induction false} RootsInLists(items: seq<Item>)
    requires OneRoot(items)
    ensures var lists := AddItems(NO_LISTS, items);
            && RootCount(lists.traces) == (if items[0].success then 1 else 0)
            && RootCount(lists.errorTraces) == (if items[0].success then 0 else 1)
    decreases |items|
  {
    var n := |items| - 1;
    var before := AddItems(NO_LISTS, items[..n]);
    RootAppended(before, items[n]);
    if n == 0 {
      assert items[..0] == [];
    } else {
      RootsInLists(items[..n]);
    }
  }

  lemma {:induction false} RootAppended(lists: Lists, item: Item)
    ensures var lists' := AddItem(lists, item);
            var root := item.TraceItem? && item.trace.parentTraceId == "";
            && RootCount(lists'.traces) == RootCount(lists.traces) + (if root && item.success then 1 else 0)
            && RootCount(lists'.errorTraces) == RootCount(lists.errorTraces) + (if root && !item.success then 1 else 0)
  {
    hide RootCount;
    if item.TraceItem? {
      RootCountAppend(lists.traces, item.trace);
      RootCountAppend(lists.errorTraces, item.trace);
    }
  }

  lemma {:induction false} RootCountAppend(traces: seq<Trace>, t: Trace)
    ensures RootCount(traces + [t]) == RootCount(traces) + if t.parentTraceId == "" then 1 else 0
  {
    assert (traces + [t])[..|traces|] == traces;
  }

  lemma {:induction false} NoneSuccessful(items: seq<Item>)
    requires forall i :: 0 <= i < |items| ==> !items[i].success
    ensures AddItems(NO_LISTS, items).traces == [] && AddItems(NO_LISTS, items).events == []
    decreases |items|
  {
    if items != [] {
      NoneSuccessful(items[..|items| - 1]);
    }
  }

  /** The check passes exactly when every trace is classified and the receipt agrees with the root's bucket. */
  lemma {:induction false} CheckMeans(items: seq<Item>, lo: nat, hi: nat, txSuccess: bool)
    requires OneRoot(items) && Numbered(items, lo, hi)
    requires !items[0].success ==> forall i :: 0 <= i < |items| ==> !items[i].success
    ensures ValidateClassification(txSuccess, AddItems(NO_LISTS, items)).Ok? <==>
            AllClassified(items) && txSuccess == items[0].success
  {
    hide OneRoot, Numbered, AllClassified;
    ListsClassified(items);
    RootsInLists(items);
    ListsNumbered(items, lo, hi);
    if !items[0].success {
      NoneSuccessful(items);
    }
  }

  // ----- origins -----

  /** A frame on a successful path reports no failing status. */
  ghost predicate StatusClean(c: Context) {
    forall f :: 0 <= f < |c.nodes| && f < |c.captured.frames| ==>
      (IsVisible(c, f) && PathSuccess(c.captured.frames, f) && c.nodes[f].status.Some? ==>
       c.nodes[f].status.value.IsOk())
  }

  /** A self-destructing frame did not itself fail. */
  ghost predicate SelfdestructClean(c: Context) {
    forall f :: 0 <= f < |c.nodes| && f < |c.captured.frames| && IsVisible(c, f) && c.nodes[f].selfdestruct.Some? ==>
      c.captured.frames[f].RawSuccess()
  }

  lemma {:induction false} FrameErrorEmpty(c: Context, f: nat)
    requires f < |c.nodes| && f < |c.captured.frames|
    ensures var error := FrameError(c.nodes[f], c.captured.frames[f], AncestorsSucceed(c, f));
            (PathSuccess(c.captured.frames, f) <==> error == "") <==>
            (PathSuccess(c.captured.frames, f) && c.nodes[f].status.Some? ==> c.nodes[f].status.value.IsOk())
  {
    PathFromAncestors(c, f);
    hide AncestorsSucceed, FirstCompletion;
  }

  lemma {:induction false} FrameClassified(c: Context, f: nat, item: Item)
    requires Matches(c, FromFrame(f), item)
    ensures f < |c.captured.frames| && f < |c.nodes|
    ensures Classified(item) <==>
            (PathSuccess(c.captured.frames, f) && c.nodes[f].status.Some? ==> c.nodes[f].status.value.IsOk())
  {
    FrameErrorEmpty(c, f);
    hide FrameError, PathSuccess, AncestorsSucceed;
  }

  lemma {:induction false} SelfdestructClassified(c: Context, f: nat, item: Item)
    requires Matches(c, FromSelfdestruct(f), item)
    ensures f < |c.captured.frames| && f < |c.nodes| && c.nodes[f].selfdestruct.Some?
    ensures Classified(item) <==> c.captured.frames[f].RawSuccess()
  {
  }

  lemma {:induction false} FrameMembership(os: seq<Origin>, f: nat)
    ensures f in FramesIn(os) <==> FromFrame(f) in os
    ensures f in SelfdestructsIn(os) <==> FromSelfdestruct(f) in os
    decreases |os|
  {
    if os != [] {
      var n := |os| - 1;
      FrameMembership(os[..n], f);
      assert os == os[..n] + [os[n]];
    }
  }

  lemma {:induction false} FilterMembership(c: Context, fs: seq<nat>, f: nat)
    ensures f in VisibleOnly(c, fs) <==> f in fs && IsVisible(c, f)
    ensures f in SelfdestructingOnly(c, fs) <==> f in fs && f < |c.nodes| && c.nodes[f].selfdestruct.Some?
    decreases |fs|
  {
    if fs != [] {
      var n := |fs| - 1;
      FilterMembership(c, fs[..n], f);
      assert fs == fs[..n] + [fs[n]];
    }
  }

  /** `os` holds every visible frame and every visible self-destruct, and nothing else of the kind. */
  ghost predicate Covers(c: Context, os: seq<Origin>) {
    && (forall f: nat :: FromFrame(f) in os <==> f < |c.captured.frames| && IsVisible(c, f))
    && (forall f: nat :: FromSelfdestruct(f) in os <==>
          f < |c.captured.frames| && IsVisible(c, f) && f < |c.nodes| && c.nodes[f].selfdestruct.Some?)
  }

  lemma {:induction false} ShownCovers(c: Context, os: seq<Origin>)
    requires FramesIn(os) == VisibleOnly(c, Range(|c.captured.frames|))
    requires multiset(SelfdestructsIn(os)) == multiset(SelfdestructingOnly(c, FramesIn(os)))
    ensures Covers(c, os)
  {
    forall f: nat
      ensures FromFrame(f) in os <==> f < |c.captured.frames| && IsVisible(c, f)
      ensures FromSelfdestruct(f) in os <==>
                f < |c.captured.frames| && IsVisible(c, f) && f < |c.nodes| && c.nodes[f].selfdestruct.Some?
    {
      FrameMembership(os, f);
      FilterMembership(c, Range(|c.captured.frames|), f);
      FilterMembership(c, FramesIn(os), f);
      assert f in Range(|c.captured.frames|) <==> f < |c.captured.frames| by {
        if f < |c.captured.frames| {
          assert Range(|c.captured.frames|)[f] == f;
        }
      }
      assert f in SelfdestructsIn(os) <==> f in multiset(SelfdestructsIn(os));
      assert f in SelfdestructingOnly(c, FramesIn(os)) <==> f in multiset(SelfdestructingOnly(c, FramesIn(os)));
    }
  }

  lemma {:induction false} ClassifiedMeansClean(c: Context, os: seq<Origin>, items: seq<Item>)
    requires AllMatch(c, os, items) && Covers(c, os) && AllClassified(items)
    ensures StatusClean(c) && SelfdestructClean(c)
  {
    hide Matches, Classified, PathSuccess;
    forall f | 0 <= f < |c.nodes| && f < |c.captured.frames| && IsVisible(c, f) && PathSuccess(c.captured.frames, f)
      ensures c.nodes[f].status.Some? ==> c.nodes[f].status.value.IsOk()
    {
      assert FromFrame(f) in os;
      var i :| 0 <= i < |os| && os[i] == FromFrame(f);
      FrameClassified(c, f, items[i]);
    }
    forall f | 0 <= f < |c.nodes| && f < |c.captured.frames| && IsVisible(c, f) && c.nodes[f].selfdestruct.Some?
      ensures c.captured.frames[f].RawSuccess()
    {
      assert FromSelfdestruct(f) in os;
      var i :| 0 <= i < |os| && os[i] == FromSelfdestruct(f);
      SelfdestructClassified(c, f, items[i]);
    }
  }

  lemma {:induction false} CleanMeansClassified(c: Context, os: seq<Origin>, items: seq<Item>)
    requires AllMatch(c, os, items) && Covers(c, os) && StatusClean(c) && SelfdestructClean(c)
    ensures AllClassified(items)
  {
    hide Matches, PathSuccess;
    forall i | 0 <= i < |items|
      ensures Classified(items[i])
    {
      assert os[i] in os;
      match os[i] {
        case FromFrame(f) => FrameClassified(c, f, items[i]);
        case FromSelfdestruct(f) => SelfdestructClassified(c, f, items[i]);
        case FromEvent(_) => MatchedKinds(c, os[i], items[i]);
      }
    }
  }

  // ----- the receipt check -----

  lemma {:induction false} PathReachesRoot(frames: seq<Frame>, f: nat)
    requires SingleRoot(frames) && PathSuccess(frames, f)
    ensures PathSuccess(frames, 0)
    decreases f
  {
    if f > 0 {
      PathReachesRoot(frames, frames[f].parent.value);
    }
  }

  lemma {:induction false} RootDecides(c: Context, o: Origin, item: Item)
    requires SingleRoot(c.captured.frames) && Matches(c, o, item) && item.success
    ensures PathSuccess(c.captured.frames, 0)
  {
    match o {
      case FromFrame(f) => PathReachesRoot(c.captured.frames, f);
      case FromSelfdestruct(f) => PathReachesRoot(c.captured.frames, f);
      case FromEvent(e) => PathReachesRoot(c.captured.frames, c.captured.events[e].frame);
    }
  }

  lemma {:induction false} BuiltOneRoot(c: Context, top: Node)
    requires HexDigest(c) && Placed(c, top, "", 0, [])
    ensures OneRoot(Items(top)) && Items(top)[0].success == top.success
  {
    var es, items := Entries(top, []), Items(top);
    TopRooted(c, top);
    EntriesAreItems(c, SubTrace(top), "", 0, [], []);
    assert ItemsOfChild(SubTrace(top), "") == items;
    assert ItemsIn(es) == items;
    PathsBelow(SubTrace(top), []);
    hide Rooted;
    forall i | 1 <= i < |items| && items[i].TraceItem?
      ensures items[i].trace.parentTraceId != ""
    {
      assert es[i] in es && es[i].item == items[i];
      assert es[i].path != [];
      var p := ParentOf(c, es, es[i]);
      assert |c.hash(Preimage(c, p.item))| == 32;
    }
  }

  /**
   The receipt check accepts the lists exactly when no frame on a successful path reports a
   failing status, no self-destructing frame failed by itself, and the receipt status is the
   root frame's effective verdict.
   */
  lemma {:induction false} ReceiptCheckExact(c: Context, logIndex: nat, txSuccess: bool)
    requires Consistent(c) && Acyclic(c.captured) && HexDigest(c)
    ensures var r := BuildLists(c, logIndex);
            && r.Ok? && c.captured.frames != []
            && (ValidateClassification(txSuccess, r.value.0).Ok? <==>
                StatusClean(c) && SelfdestructClean(c) && txSuccess == c.captured.frames[0].EffectiveSuccess())
  {
    hide HexDigest, Numbered, AllMatch, Acyclic, StatusClean, SelfdestructClean, OneRoot, Covers, AllClassified;
    hide ValidateClassification;
    hide Linked, Ascending, AllListed, WalkInOrder, EventsIn, FramesIn, VisibleOnly, SelfdestructsIn;
    hide SelfdestructingOnly, Shown, Placed;
    Partition(c, logIndex);
    var (top, next) := BuildNode(c, "", 0, 0, true, [], logIndex).value;
    var os, items := Shown(c, 0), Items(top);
    BuildPlaces(c, "", 0, 0, true, [], logIndex);
    BuiltOneRoot(c, top);
    BuildNumbers(c, "", 0, 0, true, [], logIndex, "");
    RootUnderItself(c, logIndex);
    assert ItemsOfChild(SubTrace(top), "") == items;
    ShownCovers(c, os);
    RootVerdict(c, os, items);
    CheckMeans(items, logIndex, next, txSuccess);
    if AllClassified(items) {
      ClassifiedMeansClean(c, os, items);
    }
    if StatusClean(c) && SelfdestructClean(c) {
      CleanMeansClassified(c, os, items);
    }
  }

  lemma {:induction false} RootVerdict(c: Context, os: seq<Origin>, items: seq<Item>)
    requires AllMatch(c, os, items) && SingleRoot(c.captured.frames) && c.captured.frames != [] && c.nodes != []
    requires os == Shown(c, 0)
    ensures items != [] && items[0].success == c.captured.frames[0].EffectiveSuccess()
    ensures !items[0].success ==> forall i :: 0 <= i < |items| ==> !items[i].success
  {
    assert os[0] == FromFrame(0);
    assert Matches(c, os[0], items[0]);
    forall i | 0 <= i < |items| && items[i].success
      ensures items[0].success
    {
      assert Matches(c, os[i], items[i]);
      RootDecides(c, os[i], items[i]);
    }
  }

  /** Every reported status says what the frame's success flag says. */
  ghost predicate StatusesMatch(c: Context) {
    forall f :: 0 <= f < |c.nodes| && c.nodes[f].status.Some? ==>
        (c.nodes[f].status.value.IsOk() <==> c.nodes[f].success)
  }

  /**
   When statuses match and self-destructing frames themselves succeeded, the lists always pass the
   check with the root's effective verdict, for every completion phase and every pair of statuses.
   */
  lemma {:induction false} MatchingStatusesPass(c: Context, logIndex: nat)
    requires Consistent(c) && Acyclic(c.captured) && HexDigest(c)
    requires ValidCapture(c.captured, |c.captured.frames|) && StatusesMatch(c) && SelfdestructClean(c)
    ensures var r := BuildLists(c, logIndex);
            r.Ok? && c.captured.frames != [] &&
            ValidateClassification(c.captured.frames[0].EffectiveSuccess(), r.value.0).Ok?
  {
    hide HexDigest, Acyclic, SelfdestructClean, ValidateClassification, BuildLists, FirstCompletion, Completions;
    hide WellFormed;
    ReceiptCheckExact(c, logIndex, c.captured.frames[0].EffectiveSuccess());
    forall f | 0 <= f < |c.nodes| && f < |c.captured.frames| && IsVisible(c, f) && PathSuccess(c.captured.frames, f)
      ensures c.nodes[f].status.Some? ==> c.nodes[f].status.value.IsOk()
    {
      assert ConsistentFrame(c.captured.frames[f]);
      FirstOfCompletions(c.captured.frames[f].members);
    }
  }
}
