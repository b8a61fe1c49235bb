/** The lists hold every captured event and every visible frame exactly once, in order, in the right bucket. */
module ListTheorems {
  import opened Basics
  import opened Capture
  import opened Traversal
  import opened TraceBuilder
  import opened Provenance
  import opened Numbering

  ghost function EventsIn(os: seq<Origin>): seq<nat> {
    if os == [] then []
    else
      var last := os[|os| - 1];
      EventsIn(os[..|os| - 1]) + if last.FromEvent? then [last.event] else []
  }

  ghost function FramesIn(os: seq<Origin>): seq<nat> {
    if os == [] then []
    else
      var last := os[|os| - 1];
      FramesIn(os[..|os| - 1]) + if last.FromFrame? then [last.frame] else []
  }

  ghost function SelfdestructsIn(os: seq<Origin>): seq<nat> {
    if os == [] then []
    else
      var last := os[|os| - 1];
      SelfdestructsIn(os[..|os| - 1]) + if last.FromSelfdestruct? then [last.frame] else []
  }

  ghost function VisibleOnly(c: Context, fs: seq<nat>): seq<nat> {
    if fs == [] then []
    else
      var last := fs[|fs| - 1];
      VisibleOnly(c, fs[..|fs| - 1]) + if IsVisible(c, last) then [last] else []
  }

  ghost function SelfdestructingOnly(c: Context, fs: seq<nat>): seq<nat> {
    if fs == [] then []
    else
      var last := fs[|fs| - 1];
      SelfdestructingOnly(c, fs[..|fs| - 1]) +
      if last < |c.nodes| && c.nodes[last].selfdestruct.Some? then [last] else []
  }

  lemma {:induction false} OriginsConcat(a: seq<Origin>, b: seq<Origin>)
    ensures EventsIn(a + b) == EventsIn(a) + EventsIn(b)
    ensures FramesIn(a + b) == FramesIn(a) + FramesIn(b)
    ensures SelfdestructsIn(a + b) == SelfdestructsIn(a) + SelfdestructsIn(b)
    decreases |b|
  {
    if b == [] {
      assert a + b == a;
    } else {
      assert (a + b)[..|a + b| - 1] == a + b[..|b| - 1];
      OriginsConcat(a, b[..|b| - 1]);
    }
  }

  lemma {:induction false} FiltersConcat(c: Context, a: seq<nat>, b: seq<nat>)
    ensures VisibleOnly(c, a + b) == VisibleOnly(c, a) + VisibleOnly(c, b)
    ensures SelfdestructingOnly(c, a + b) == SelfdestructingOnly(c, a) + SelfdestructingOnly(c, b)
    decreases |b|
  {
    if b == [] {
      assert a + b == a;
    } else {
      assert (a + b)[..|a + b| - 1] == a + b[..|b| - 1];
      FiltersConcat(c, a, b[..|b| - 1]);
    }
  }

  lemma {:induction false} OneOrigin(c: Context, o: Origin)
    ensures EventsIn([o]) == if o.FromEvent? then [o.event] else []
    ensures FramesIn([o]) == if o.FromFrame? then [o.frame] else []
    ensures SelfdestructsIn([o]) == if o.FromSelfdestruct? then [o.frame] else []
    ensures o.FromFrame? ==> VisibleOnly(c, [o.frame]) == if IsVisible(c, o.frame) then [o.frame] else []
    ensures o.FromFrame? ==>
              SelfdestructingOnly(c, [o.frame]) ==
              if o.frame < |c.nodes| && c.nodes[o.frame].selfdestruct.Some? then [o.frame] else []
  {
    assert [o][..0] == [];
    if o.FromFrame? {
      assert [o.frame][..0] == [];
    }
  }

  /** `os` shows exactly what `walk` visits: all events, and the visible frames. */
  ghost predicate Shows(c: Context, os: seq<Origin>, walk: seq<Visit>) {
    && EventsIn(os) == EventsOf(walk)
    && FramesIn(os) == VisibleOnly(c, FramesOf(walk))
    && multiset(SelfdestructsIn(os)) == multiset(SelfdestructingOnly(c, FramesIn(os)))
  }

  lemma {:induction false} ShowsConcat(c: Context, a: seq<Origin>, x: seq<Visit>, b: seq<Origin>, y: seq<Visit>)
    requires Shows(c, a, x) && Shows(c, b, y)
    ensures Shows(c, a + b, x + y)
  {
    OriginsConcat(a, b);
    ProjectionsConcat(x, y);
    FiltersConcat(c, FramesOf(x), FramesOf(y));
    FiltersConcat(c, FramesIn(a), FramesIn(b));
  }

  lemma {:induction false} ShowsFrame(c: Context, f: nat)
    requires Fits(c) && f < |c.captured.frames| && f < |c.nodes| && IsVisible(c, f)
    ensures Shows(c, Shown(c, f), Walk(c.captured.frames, f))
    decreases |c.captured.frames| - f, 1, 0
  {
    hide Fits, Shows;
    var n := |c.captured.frames[f].members|;
    ShowsMembers(c, f, n);
    ShowsAround(c, f, ShownMembers(c, f, n), WalkMembers(c.captured.frames, f, n));
  }

  /** A frame's own entry and its self-destruct, put around what its members show. */
  lemma {:induction false} ShowsAround(c: Context, f: nat, inner: seq<Origin>, visits: seq<Visit>)
    requires f < |c.nodes| && IsVisible(c, f) && Shows(c, inner, visits)
    ensures var ends := if c.nodes[f].selfdestruct.Some? then [FromSelfdestruct(f)] else [];
            Shows(c, [FromFrame(f)] + inner + ends, [Enter(f)] + visits)
  {
    hide EventsIn, FramesIn, SelfdestructsIn, FramesOf, EventsOf, VisibleOnly, SelfdestructingOnly;
    var ends := if c.nodes[f].selfdestruct.Some? then [FromSelfdestruct(f)] else [];
    var all := [FromFrame(f)] + inner + ends;
    OneOrigin(c, FromFrame(f));
    OneOrigin(c, FromSelfdestruct(f));
    OneVisit(Enter(f));
    NoOrigins(c);
    OriginsConcat([FromFrame(f)], inner);
    OriginsConcat([FromFrame(f)] + inner, ends);
    ProjectionsConcat([Enter(f)], visits);
    FiltersConcat(c, [f], FramesOf(visits));
    FiltersConcat(c, [f], FramesIn(inner));
    var mark := if c.nodes[f].selfdestruct.Some? then [f] else [];
    assert SelfdestructsIn(all) == SelfdestructsIn(inner) + mark;
    assert FramesIn(all) == [f] + FramesIn(inner);
    assert SelfdestructingOnly(c, FramesIn(all)) == mark + SelfdestructingOnly(c, FramesIn(inner));
    assert EventsIn(all) == EventsIn(inner);
  }

  lemma {:induction false} OneVisit(v: Visit)
    ensures FramesOf([v]) == if v.Enter? then [v.frame] else []
    ensures EventsOf([v]) == if v.Emit? then [v.event] else []
  {
    assert [v][..0] == [];
  }

  lemma {:induction false} NoOrigins(c: Context)
    ensures EventsIn([]) == [] && FramesIn([]) == [] && SelfdestructsIn([]) == []
    ensures VisibleOnly(c, []) == [] && SelfdestructingOnly(c, []) == [] && FramesOf([]) == [] && EventsOf([]) == []
  {
  }

  lemma {:induction false} ShowsMembers(c: Context, f: nat, n: nat)
    requires Fits(c) && f < |c.captured.frames| && f < |c.nodes| && n <= |c.captured.frames[f].members|
    ensures Shows(c, ShownMembers(c, f, n), WalkMembers(c.captured.frames, f, n))
    decreases |c.captured.frames| - f, 0, n
  {
    hide Fits, Shows;
    if n == 0 {
      ShowsNothing(c);
    } else {
      ShowsMembers(c, f, n - 1);
      ShowsMember(c, f, n - 1);
      ShowsConcat(c, ShownMembers(c, f, n - 1), WalkMembers(c.captured.frames, f, n - 1), ShownMember(c, f, n - 1),
                  WalkMember(c.captured.frames, f, n - 1));
    }
  }

  lemma {:induction false} ShowsNothing(c: Context)
    ensures Shows(c, [], [])
  {
  }

  lemma {:induction false} ShowsEvent(c: Context, e: nat)
    ensures Shows(c, [FromEvent(e)], [Emit(e)])
  {
    OneOrigin(c, FromEvent(e));
    OneVisit(Emit(e));
  }

  /** A hidden frame shows its members but not itself. */
  lemma {:induction false} ShowsHidden(c: Context, f: nat, os: seq<Origin>, walk: seq<Visit>)
    requires Shows(c, os, walk) && !IsVisible(c, f)
    ensures Shows(c, os, [Enter(f)] + walk)
  {
    OneVisit(Enter(f));
    ProjectionsConcat([Enter(f)], walk);
    FiltersConcat(c, [f], FramesOf(walk));
    assert [f][..0] == [];
  }

  lemma {:induction false} ShowsMember(c: Context, f: nat, i: nat)
    requires Fits(c) && f < |c.captured.frames| && f < |c.nodes| && i < |c.captured.frames[f].members|
    ensures Shows(c, ShownMember(c, f, i), WalkMember(c.captured.frames, f, i))
    decreases |c.captured.frames| - f, 0, i
  {
    hide Fits, Shows;
    FrameFits(c, f);
    MemberFits(c, f, i);
    match c.captured.frames[f].members[i] {
      case Call(child) =>
        if IsVisible(c, child) {
          ShowsFrame(c, child);
        } else {
          var n := |c.captured.frames[child].members|;
          ShowsMembers(c, child, n);
          ShowsHidden(c, child, ShownMembers(c, child, n), WalkMembers(c.captured.frames, child, n));
        }
      case Event(e) =>
        ShowsEvent(c, e);
      case SubcallCompletion(_) =>
        ShowsNothing(c);
    }
  }

  // ----- one transaction -----

  /** Everything the two inspectors produce for a transaction fits, with frame 0 as its root. */
  ghost predicate Consistent(c: Context) {
    Fits(c) && c.captured.frames != [] && WellFormed(c.captured.frames, c.captured.events) && IsVisible(c, 0)
  }

  /**
   The builder never fails, and its entries are exactly: every captured event, in emission
   order; every visible frame, in the order frames were entered; one more per visible
   self-destructing frame. An entry is in the success bucket exactly when its frame and all
   ancestors of its frame, hidden ones included, succeeded effectively.
   */
  lemma {:induction false} Partition(c: Context, logIndex: nat)
    requires Consistent(c) && Acyclic(c.captured)
    ensures var r := BuildNode(c, "", 0, 0, true, [], logIndex);
            && r.Ok? && 0 < |c.nodes| == |c.captured.frames|
            && var os := Shown(c, 0);
            && AllMatch(c, os, Items(r.value.0))
            && EventsIn(os) == Range(|c.captured.events|)
            && FramesIn(os) == VisibleOnly(c, Range(|c.captured.frames|))
            && multiset(SelfdestructsIn(os)) == multiset(SelfdestructingOnly(c, FramesIn(os)))
  {
    hide AllMatch, Linked, Ascending, AllListed, EventsIn, FramesIn, SelfdestructsIn, VisibleOnly, SelfdestructingOnly;
    FrameFits(c, 0);
    BuildShows(c, "", 0, 0, [], logIndex, "");
    ShowsFrame(c, 0);
    var top := BuildNode(c, "", 0, 0, true, [], logIndex).value.0;
    RootUnderItself(c, logIndex);
    assert ItemsOfChild(SubTrace(top), "") == Items(top);
  }

  lemma {:induction false} RootUnderItself(c: Context, logIndex: nat)
    requires Acyclic(c.captured)
    ensures var r := BuildNode(c, "", 0, 0, true, [], logIndex);
            r.Ok? ==> r.value.0.trace.parentTraceId == ""
  {
    hide Acyclic, AppendMembers;
  }

  /** Logs of the listed events whose frame path succeeded (or failed). */
  ghost function LogsAt(c: Context, es: seq<nat>, success: bool): seq<Log> {
    if es == [] then []
    else
      var last := es[|es| - 1];
      LogsAt(c, es[..|es| - 1], success) +
      if last < |c.captured.events| && PathSuccess(c.captured.frames, c.captured.events[last].frame) == success
      then [c.captured.events[last].log] else []
  }

  ghost function LogsOf(events: seq<TraceEvent>): seq<Log> {
    if events == [] then [] else LogsOf(events[..|events| - 1]) + [LogOf(events[|events| - 1])]
  }

  lemma {:induction false} LogsOfAppend(events: seq<TraceEvent>, event: TraceEvent)
    ensures LogsOf(events + [event]) == LogsOf(events) + [LogOf(event)]
  {
    assert (events + [event])[..|events|] == events;
  }

  lemma {:induction false} LogsAtAppend(c: Context, es: seq<nat>, e: nat, success: bool)
    ensures LogsAt(c, es + [e], success) == LogsAt(c, es, success) +
              if e < |c.captured.events| && PathSuccess(c.captured.frames, c.captured.events[e].frame) == success
              then [c.captured.events[e].log] else []
  {
    assert (es + [e])[..|es|] == es;
  }

  lemma {:induction false} MatchedKinds(c: Context, o: Origin, item: Item)
    requires Matches(c, o, item)
    ensures item.EventItem? <==> o.FromEvent?
    ensures o.FromEvent? ==> o.event < |c.captured.events| && LogOf(item.event) == c.captured.events[o.event].log &&
                             item.success == PathSuccess(c.captured.frames, c.captured.events[o.event].frame)
  {
    hide PathSuccess, TraceOf, LogOf;
  }

  lemma {:induction false} AllMatchLast(c: Context, os: seq<Origin>, items: seq<Item>)
    requires AllMatch(c, os, items) && os != []
    ensures |items| == |os| && Matches(c, os[|os| - 1], items[|os| - 1])
    ensures AllMatch(c, os[..|os| - 1], items[..|os| - 1])
  {
    hide Matches;
  }

  lemma {:induction false} MatchedLogs(c: Context, os: seq<Origin>, items: seq<Item>)
    requires AllMatch(c, os, items)
    ensures var lists := AddItems(NO_LISTS, items);
            && LogsOf(lists.events) == LogsAt(c, EventsIn(os), true)
            && LogsOf(lists.errorEvents) == LogsAt(c, EventsIn(os), false)
    decreases |os|
  {
    if os == [] {
      assert items == [];
    } else {
      AllMatchLast(c, os, items);
      MatchedLogs(c, os[..|os| - 1], items[..|os| - 1]);
      MatchedLast(c, os, items);
    }
  }

  lemma {:induction false} MatchedLast(c: Context, os: seq<Origin>, items: seq<Item>)
    requires os != [] && |items| == |os| && Matches(c, os[|os| - 1], items[|os| - 1])
    requires var lists := AddItems(NO_LISTS, items[..|os| - 1]);
             && LogsOf(lists.events) == LogsAt(c, EventsIn(os[..|os| - 1]), true)
             && LogsOf(lists.errorEvents) == LogsAt(c, EventsIn(os[..|os| - 1]), false)
    ensures var lists := AddItems(NO_LISTS, items);
            && LogsOf(lists.events) == LogsAt(c, EventsIn(os), true)
            && LogsOf(lists.errorEvents) == LogsAt(c, EventsIn(os), false)
  {
    hide Matches, LogsOf, LogsAt, PathSuccess, LogOf;
    var n := |os| - 1;
    var o, item := os[n], items[n];
    MatchedKinds(c, o, item);
    var before := AddItems(NO_LISTS, items[..n]);
    if item.EventItem? {
      LogsOfAppend(before.events, item.event);
      LogsOfAppend(before.errorEvents, item.event);
      LogsAtAppend(c, EventsIn(os[..n]), o.event, true);
      LogsAtAppend(c, EventsIn(os[..n]), o.event, false);
    } else {
      assert EventsIn(os) == EventsIn(os[..n]);
    }
  }

  lemma {:induction false} LogsAtAll(c: Context, n: nat)
    requires n <= |c.captured.events|
    ensures LogsAt(c, Range(n), true) == SurvivingLogs(c.captured.frames, c.captured.events[..n])
    decreases n
  {
    if n > 0 {
      assert Range(n)[..n - 1] == Range(n - 1);
      assert c.captured.events[..n][..n - 1] == c.captured.events[..n - 1];
      LogsAtAll(c, n - 1);
    }
  }

  /**
   The recursive builder and the flat pass agree: the logs behind `events` are the surviving
   logs in the same order, numbered consecutively from the incoming log index.
   */
  lemma {:induction false} EventsAreSurvivingLogs(c: Context, logIndex: nat)
    requires Consistent(c) && Acyclic(c.captured)
    ensures var r := BuildLists(c, logIndex);
            && r.Ok?
            && var (lists, next) := r.value;
            && LogsOf(lists.events) == SurvivingLogs(c.captured.frames, c.captured.events)
            && next == logIndex + |lists.events|
            && (forall i :: 0 <= i < |lists.events| ==> lists.events[i].idx == logIndex + i)
            && (forall i :: 0 <= i < |lists.errorEvents| ==> lists.errorEvents[i].idx == 0)
  {
    hide AllMatch, Consistent, Acyclic, LogsOf, LogsAt, SurvivingLogs, Shown, EventsIn, FramesIn, VisibleOnly;
    hide SelfdestructsIn, SelfdestructingOnly, AddItems, Numbered;
    Partition(c, logIndex);
    var (top, next) := BuildNode(c, "", 0, 0, true, [], logIndex).value;
    MatchedLogs(c, Shown(c, 0), Items(top));
    LogsAtAll(c, |c.captured.events|);
    assert c.captured.events[..|c.captured.events|] == c.captured.events;
    BuildNumbers(c, "", 0, 0, true, [], logIndex, "");
    RootUnderItself(c, logIndex);
    assert ItemsOfChild(SubTrace(top), "") == Items(top);
    ListsNumbered(Items(top), logIndex, next);
  }
}
