/** The four lists of a transaction, each as the captured things it comes from, in order. */
module Buckets {
  import opened Basics
  import opened Capture
  import opened TraceBuilder
  import opened Provenance
  import opened ListTheorems

  /** The frame the origin belongs to and all its ancestors succeeded effectively. */
  ghost predicate OriginSucceeds(c: Context, o: Origin) {
    match o
    case FromFrame(f) => PathSuccess(c.captured.frames, f)
    case FromSelfdestruct(f) => PathSuccess(c.captured.frames, f)
    case FromEvent(e) => e < |c.captured.events| && PathSuccess(c.captured.frames, c.captured.events[e].frame)
  }

  ghost function TraceOrigins(c: Context, os: seq<Origin>, success: bool): seq<Origin> {
    if os == [] then []
    else
      var last := os[|os| - 1];
      TraceOrigins(c, os[..|os| - 1], success) +
      if !last.FromEvent? && OriginSucceeds(c, last) == success then [last] else []
  }

  ghost function EventOrigins(c: Context, os: seq<Origin>, success: bool): seq<Origin> {
    if os == [] then []
    else
      var last := os[|os| - 1];
      EventOrigins(c, os[..|os| - 1], success) +
      if last.FromEvent? && OriginSucceeds(c, last) == success then [last] else []
  }

  /** The frames among `fs` whose path succeeded, or those whose path did not. */
  ghost function OnPath(c: Context, fs: seq<nat>, success: bool): seq<nat> {
    if fs == [] then []
    else
      var last := fs[|fs| - 1];
      OnPath(c, fs[..|fs| - 1], success) + if PathSuccess(c.captured.frames, last) == success then [last] else []
  }

  /** The events among `es` whose frame's path succeeded, or those whose frame's path did not. */
  ghost function EventsOnPath(c: Context, es: seq<nat>, success: bool): seq<nat> {
    if es == [] then []
    else
      var last := es[|es| - 1];
      EventsOnPath(c, es[..|es| - 1], success) + if OriginSucceeds(c, FromEvent(last)) == success then [last] else []
  }

  ghost function AsTraces(ts: seq<Trace>, success: bool): seq<Item> {
    seq(|ts|, i requires 0 <= i < |ts| => TraceItem(ts[i], success))
  }

  ghost function AsEvents(es: seq<TraceEvent>, success: bool): seq<Item> {
    seq(|es|, i requires 0 <= i < |es| => EventItem(es[i], success))
  }

  // ----- entries by bucket -----

  /** The lists hold exactly the entries of the filtered origins, in their order. */
  ghost predicate Sorted(c: Context, os: seq<Origin>, lists: Lists) {
    && AllMatch(c, TraceOrigins(c, os, true), AsTraces(lists.traces, true))
    && AllMatch(c, TraceOrigins(c, os, false), AsTraces(lists.errorTraces, false))
    && AllMatch(c, EventOrigins(c, os, true), AsEvents(lists.events, true))
    && AllMatch(c, EventOrigins(c, os, false), AsEvents(lists.errorEvents, false))
  }

  lemma {:induction false} MatchAppend(c: Context, os: seq<Origin>, items: seq<Item>, o: Origin, item: Item)
    requires AllMatch(c, os, items) && Matches(c, o, item)
    ensures AllMatch(c, os + [o], items + [item])
  {
    hide Matches;
  }

  lemma {:induction false} MatchedBucket(c: Context, o: Origin, item: Item)
    requires Matches(c, o, item)
    ensures item.success == OriginSucceeds(c, o) && (item.EventItem? <==> o.FromEvent?)
  {
  }

  lemma {:induction false} AsTracesAppend(ts: seq<Trace>, t: Trace, success: bool)
    ensures AsTraces(ts + [t], success) == AsTraces(ts, success) + [TraceItem(t, success)]
  {
  }

  lemma {:induction false} AsEventsAppend(es: seq<TraceEvent>, e: TraceEvent, success: bool)
    ensures AsEvents(es + [e], success) == AsEvents(es, success) + [EventItem(e, success)]
  {
  }

  lemma {:induction false} OriginsAppend(c: Context, os: seq<Origin>, o: Origin, success: bool)
    ensures TraceOrigins(c, os + [o], success) ==
            TraceOrigins(c, os, success) + if !o.FromEvent? && OriginSucceeds(c, o) == success then [o] else []
    ensures EventOrigins(c, os + [o], success) ==
            EventOrigins(c, os, success) + if o.FromEvent? && OriginSucceeds(c, o) == success then [o] else []
  {
    assert (os + [o])[..|os|] == os;
  }

  lemma {:induction false} SortedAppend(c: Context, os: seq<Origin>, lists: Lists, o: Origin, item: Item)
    requires Sorted(c, os, lists) && Matches(c, o, item)
    ensures Sorted(c, os + [o], AddItem(lists, item))
  {
    hide Matches, AllMatch, TraceOrigins, EventOrigins, OriginSucceeds, AsTraces, AsEvents;
    MatchedBucket(c, o, item);
    OriginsAppend(c, os, o, true);
    OriginsAppend(c, os, o, false);
    match item {
      case TraceItem(t, success) =>
        AsTracesAppend(lists.traces, t, true);
        AsTracesAppend(lists.errorTraces, t, false);
        MatchAppend(c, TraceOrigins(c, os, success),
                    AsTraces(if success then lists.traces else lists.errorTraces, success), o, item);
      case EventItem(e, success) =>
        AsEventsAppend(lists.events, e, true);
        AsEventsAppend(lists.errorEvents, e, false);
        MatchAppend(c, EventOrigins(c, os, success),
                    AsEvents(if success then lists.events else lists.errorEvents, success), o, item);
    }
    assert TraceOrigins(c, os, true) + [] == TraceOrigins(c, os, true);
    assert TraceOrigins(c, os, false) + [] == TraceOrigins(c, os, false);
    assert EventOrigins(c, os, true) + [] == EventOrigins(c, os, true);
    assert EventOrigins(c, os, false) + [] == EventOrigins(c, os, false);
  }

  lemma {:induction false} NothingSorted(c: Context)
    ensures Sorted(c, [], NO_LISTS)
  {
  }

  lemma {:induction false} AddedSorted(c: Context, os: seq<Origin>, items: seq<Item>)
    requires AllMatch(c, os, items)
    ensures Sorted(c, os, AddItems(NO_LISTS, items))
    decreases |os|
  {
    hide Sorted, Matches, AddItem;
    if os == [] {
      NothingSorted(c);
    } else {
      var n := |os| - 1;
      AddedSorted(c, os[..n], items[..n]);
      SortedAppend(c, os[..n], AddItems(NO_LISTS, items[..n]), os[n], items[n]);
      assert os == os[..n] + [os[n]];
    }
  }

  // ----- what is in a bucket -----

  lemma {:induction false} BucketContents(c: Context, os: seq<Origin>, success: bool)
    ensures FramesIn(TraceOrigins(c, os, success)) == OnPath(c, FramesIn(os), success)
    ensures SelfdestructsIn(TraceOrigins(c, os, success)) == OnPath(c, SelfdestructsIn(os), success)
    ensures EventsIn(EventOrigins(c, os, success)) == EventsOnPath(c, EventsIn(os), success)
    decreases |os|
  {
    hide PathSuccess, FramesIn, SelfdestructsIn, EventsIn, TraceOrigins, EventOrigins, OnPath, EventsOnPath;
    if os == [] {
      EmptyBucket(c, os, success);
    } else {
      var n := |os| - 1;
      var before, o := os[..n], os[n];
      assert os == before + [o];
      BucketContents(c, before, success);
      OriginAppended(before, o);
      OriginsAppend(c, before, o, success);
      OriginAppended(TraceOrigins(c, before, success), o);
      OriginAppended(EventOrigins(c, before, success), o);
      OnPathAppend(c, FramesIn(before), SelfdestructsIn(before), EventsIn(before), o, success);
      NothingAppended(FramesIn(before), SelfdestructsIn(before), EventsIn(before));
      NothingAppended(OnPath(c, FramesIn(before), success), OnPath(c, SelfdestructsIn(before), success),
                      EventsOnPath(c, EventsIn(before), success));
      assert TraceOrigins(c, before, success) + [] == TraceOrigins(c, before, success);
      assert EventOrigins(c, before, success) + [] == EventOrigins(c, before, success);
    }
  }

  lemma {:induction false} NothingAppended(a: seq<nat>, b: seq<nat>, d: seq<nat>)
    ensures a + [] == a && b + [] == b && d + [] == d
  {
  }

  lemma {:induction false} EmptyBucket(c: Context, os: seq<Origin>, success: bool)
    requires os == []
    ensures FramesIn(TraceOrigins(c, os, success)) == OnPath(c, FramesIn(os), success)
    ensures SelfdestructsIn(TraceOrigins(c, os, success)) == OnPath(c, SelfdestructsIn(os), success)
    ensures EventsIn(EventOrigins(c, os, success)) == EventsOnPath(c, EventsIn(os), success)
  {
  }

  lemma {:induction false} OriginAppended(os: seq<Origin>, o: Origin)
    ensures FramesIn(os + [o]) == FramesIn(os) + if o.FromFrame? then [o.frame] else []
    ensures SelfdestructsIn(os + [o]) == SelfdestructsIn(os) + if o.FromSelfdestruct? then [o.frame] else []
    ensures EventsIn(os + [o]) == EventsIn(os) + if o.FromEvent? then [o.event] else []
  {
    assert (os + [o])[..|os|] == os;
  }

  lemma {:induction false} OnPathAppend(c: Context, fs: seq<nat>, sds: seq<nat>, es: seq<nat>, o: Origin, success: bool)
    ensures o.FromFrame? ==>
              OnPath(c, fs + [o.frame], success) ==
              OnPath(c, fs, success) + if OriginSucceeds(c, o) == success then [o.frame] else []
    ensures o.FromSelfdestruct? ==>
              OnPath(c, sds + [o.frame], success) ==
              OnPath(c, sds, success) + if OriginSucceeds(c, o) == success then [o.frame] else []
    ensures o.FromEvent? ==>
              EventsOnPath(c, es + [o.event], success) ==
              EventsOnPath(c, es, success) + if OriginSucceeds(c, o) == success then [o.event] else []
  {
    hide PathSuccess;
    match o {
      case FromFrame(f) => assert (fs + [f])[..|fs|] == fs;
      case FromSelfdestruct(f) => assert (sds + [f])[..|sds|] == sds;
      case FromEvent(e) => assert (es + [e])[..|es|] == es;
    }
  }

  lemma {:induction false} OnPathCounts(c: Context, fs: seq<nat>, success: bool, f: nat)
    ensures multiset(OnPath(c, fs, success))[f] ==
            if PathSuccess(c.captured.frames, f) == success then multiset(fs)[f] else 0
    decreases |fs|
  {
    hide PathSuccess;
    if fs != [] {
      var n := |fs| - 1;
      OnPathCounts(c, fs[..n], success, f);
      assert fs == fs[..n] + [fs[n]];
    }
  }

  lemma {:induction false} SelfdestructingOnPath(c: Context, fs: seq<nat>, success: bool)
    ensures SelfdestructingOnly(c, OnPath(c, fs, success)) == OnPath(c, SelfdestructingOnly(c, fs), success)
    decreases |fs|
  {
    hide PathSuccess, OnPath, SelfdestructingOnly;
    if fs == [] {
      NoFrames(c, fs, success);
    } else {
      var n := |fs| - 1;
      var on, sds := OnPath(c, fs[..n], success), SelfdestructingOnly(c, fs[..n]);
      SelfdestructingOnPath(c, fs[..n], success);
      assert fs == fs[..n] + [fs[n]] && on + [] == on && sds + [] == sds;
      FrameAppended(c, fs[..n], fs[n], success);
      FrameAppended(c, on, fs[n], success);
      FrameAppended(c, sds, fs[n], success);
      assert OnPath(c, sds, success) + [] == OnPath(c, sds, success);
    }
  }

  lemma {:induction false} NoFrames(c: Context, fs: seq<nat>, success: bool)
    requires fs == []
    ensures SelfdestructingOnly(c, OnPath(c, fs, success)) == OnPath(c, SelfdestructingOnly(c, fs), success)
  {
  }

  lemma {:induction false} FrameAppended(c: Context, fs: seq<nat>, f: nat, success: bool)
    ensures OnPath(c, fs + [f], success) ==
            OnPath(c, fs, success) + if PathSuccess(c.captured.frames, f) == success then [f] else []
    ensures SelfdestructingOnly(c, fs + [f]) ==
            SelfdestructingOnly(c, fs) + if f < |c.nodes| && c.nodes[f].selfdestruct.Some? then [f] else []
  {
    assert (fs + [f])[..|fs|] == fs;
  }

  lemma {:induction false} SelfdestructsFollow(c: Context, os: seq<Origin>, success: bool)
    requires multiset(SelfdestructsIn(os)) == multiset(SelfdestructingOnly(c, FramesIn(os)))
    ensures var bucket := TraceOrigins(c, os, success);
            multiset(SelfdestructsIn(bucket)) == multiset(SelfdestructingOnly(c, FramesIn(bucket)))
  {
    hide SelfdestructsIn, FramesIn, SelfdestructingOnly, OnPath, TraceOrigins, PathSuccess;
    BucketContents(c, os, success);
    SelfdestructingOnPath(c, FramesIn(os), success);
    var a, b := SelfdestructsIn(os), SelfdestructingOnly(c, FramesIn(os));
    forall f: nat
      ensures multiset(OnPath(c, a, success))[f] == multiset(OnPath(c, b, success))[f]
    {
      OnPathCounts(c, a, success, f);
      OnPathCounts(c, b, success, f);
    }
  }

  /** A bucket holds the visible frames and the events of its kind of path in order, and their self-destructs. */
  ghost predicate Holds(c: Context, os: seq<Origin>, success: bool) {
    var traces, events := TraceOrigins(c, os, success), EventOrigins(c, os, success);
    && FramesIn(traces) == OnPath(c, VisibleOnly(c, Range(|c.captured.frames|)), success)
    && multiset(SelfdestructsIn(traces)) == multiset(SelfdestructingOnly(c, FramesIn(traces)))
    && EventsIn(events) == EventsOnPath(c, Range(|c.captured.events|), success)
  }

  /**
   The four lists split what was captured. `traces` are the visible frames on successful paths in
   the order they were entered, with one more entry per visible self-destruct among them; `events`
   are the events of frames on successful paths in emission order; `errorTraces` and `errorEvents`
   are the others. Each entry matches what it comes from.
   */
  lemma {:induction false} ListsPartition(c: Context, logIndex: nat)
    requires Consistent(c) && Acyclic(c.captured)
    ensures var r := BuildLists(c, logIndex);
            && r.Ok? && 0 < |c.nodes| == |c.captured.frames|
            && var os := Shown(c, 0);
            && Sorted(c, os, r.value.0) && Holds(c, os, true) && Holds(c, os, false)
  {
    hide Consistent, Acyclic, Sorted, Shown, AllMatch, AddItems;
    hide EventsIn, FramesIn, SelfdestructsIn, VisibleOnly, SelfdestructingOnly, TraceOrigins, EventOrigins, OnPath;
    hide EventsOnPath;
    Partition(c, logIndex);
    var top := BuildNode(c, "", 0, 0, true, [], logIndex).value.0;
    var os := Shown(c, 0);
    AddedSorted(c, os, Items(top));
    BucketContents(c, os, true);
    BucketContents(c, os, false);
    SelfdestructsFollow(c, os, true);
    SelfdestructsFollow(c, os, false);
  }
}
