/**
 Where every entry of the lists comes from: the flattened tree matches, entry by entry,
 the captured frames and events met on a depth-first walk.
 */
module Provenance {
  import opened Capture
  import opened Traversal
  import opened TraceBuilder
  import opened Storage

  datatype Origin = FromFrame(frame: nat) | FromEvent(event: nat) | FromSelfdestruct(frame: nat)

  /** The builder's inputs fit together: one node per frame, agreeing on success, and a linked frame tree. */
  ghost predicate Fits(c: Context) {
    && |c.nodes| == |c.captured.frames|
    && (forall f :: 0 <= f < |c.nodes| ==> c.nodes[f].success == c.captured.frames[f].success)
    && Linked(c.captured.frames, c.captured.events)
    && SingleRoot(c.captured.frames)
  }

  lemma {:induction false} FitsAcyclic(c: Context)
    requires Fits(c)
    ensures Acyclic(c.captured)
  {
    var frames := c.captured.frames;
    var rank := (f: nat) => if f < |frames| then |frames| - f else 0;
    forall f, i | 0 <= f < |frames| && 0 <= i < |frames[f].members|
      ensures frames[f].members[i].Call? ==> rank(frames[f].members[i].frame) < rank(f)
    {
      assert LinkedMember(frames, c.captured.events, f, frames[f].members[i]);
    }
    assert Ranks(c.captured, rank);
  }

  /** All proper ancestors of `f` are effectively successful. */
  ghost predicate AncestorsSucceed(c: Context, f: nat)
    requires f < |c.captured.frames|
  {
    var p := c.captured.frames[f].parent;
    p.Some? && p.value < f ==> PathSuccess(c.captured.frames, p.value)
  }

  ghost function Shown(c: Context, f: nat): seq<Origin>
    requires f < |c.captured.frames| && f < |c.nodes|
    decreases |c.captured.frames| - f, |c.captured.frames[f].members| + 1
  {
    [FromFrame(f)] + ShownMembers(c, f, |c.captured.frames[f].members|) +
    if c.nodes[f].selfdestruct.Some? then [FromSelfdestruct(f)] else []
  }

  ghost function ShownMembers(c: Context, f: nat, n: nat): seq<Origin>
    requires f < |c.captured.frames| && n <= |c.captured.frames[f].members|
    decreases |c.captured.frames| - f, n
  {
    if n == 0 then [] else ShownMembers(c, f, n - 1) + ShownMember(c, f, n - 1)
  }

  ghost function ShownMember(c: Context, f: nat, i: nat): seq<Origin>
    requires f < |c.captured.frames| && i < |c.captured.frames[f].members|
    decreases |c.captured.frames| - f, i
  {
    match c.captured.frames[f].members[i]
    case Call(child) =>
      if !(f < child < |c.captured.frames|) || child >= |c.nodes| then []
      else if IsVisible(c, child) then Shown(c, child)
      else ShownMembers(c, child, |c.captured.frames[child].members|)
    case Event(e) => [FromEvent(e)]
    case SubcallCompletion(_) => []
  }

  /** The trace's own data are those of frame `f`, corrected by its completion. */
  ghost predicate TraceOf(c: Context, f: nat, t: Trace)
    requires f < |c.captured.frames| && f < |c.nodes|
  {
    var node, frame := c.nodes[f], c.captured.frames[f];
    var completion := frame.SubcallCompletion();
    && t.txId == c.txId
    && t.fromAddr == node.caller && t.toAddr == node.address && t.value == node.value && t.input == node.data
    && (t.callCreateType, t.callType) == CallTypes(node.kind) && Typed(node.kind, t.callCreateType, t.callType)
    && t.selfStorageChange == (0x55 in node.steps)
    && t.error == FrameError(node, frame, AncestorsSucceed(c, f))
    && ErrorTells(node, frame, AncestorsSucceed(c, f), t.error)
    && (match completion
        case Some(done) =>
          t.output == done.childOutput && t.gasUsed == done.childGasUsed && t.gasLimit == done.childGasLimit
        case None => t.output == node.output && t.gasUsed == node.gasUsed && t.gasLimit == node.gasLimit)
  }

  ghost predicate Matches(c: Context, o: Origin, item: Item) {
    var frames := c.captured.frames;
    match o
    case FromFrame(f) =>
      f < |frames| && f < |c.nodes| && item.TraceItem? && item.success == PathSuccess(frames, f) &&
      TraceOf(c, f, item.trace) &&
      Acyclic(c.captured) && (item.trace.storageChange <==> Stores(c, f))
    case FromEvent(e) =>
      e < |c.captured.events| && item.EventItem? &&
      item.success == PathSuccess(frames, c.captured.events[e].frame) &&
      LogOf(item.event) == c.captured.events[e].log && Carries(item.event, c.captured.events[e].log)
    case FromSelfdestruct(f) =>
      f < |frames| && f < |c.nodes| && c.nodes[f].selfdestruct.Some? && item.TraceItem? &&
      item.success == PathSuccess(frames, f) &&
      var sd := c.nodes[f].selfdestruct.value;
      && item.trace.callCreateType == "suicide" && item.trace.txId == c.txId
      && item.trace.fromAddr == sd.address && item.trace.toAddr == sd.refundTarget && item.trace.value == sd.value
      && item.trace.callType == "" && item.trace.input == [] && item.trace.output == []
      && item.trace.gasLimit == 0 && item.trace.gasUsed == 0 && item.trace.subtraces == 0
      && !item.trace.selfStorageChange && !item.trace.storageChange
      && item.trace.error == if frames[f].RawSuccess() && !PathSuccess(frames, f) then "parent call failed" else ""
  }

  ghost predicate AllMatch(c: Context, origins: seq<Origin>, items: seq<Item>) {
    |origins| == |items| && forall i :: 0 <= i < |items| ==> Matches(c, origins[i], items[i])
  }

  lemma {:induction false} AllMatchConcat(c: Context, os: seq<Origin>, items: seq<Item>, os': seq<Origin>,
          items': seq<Item>)
    requires AllMatch(c, os, items) && AllMatch(c, os', items')
    ensures AllMatch(c, os + os', items + items')
  {
    hide Matches;
  }

  lemma {:induction false} FrameFits(c: Context, f: nat)
    requires Fits(c) && f < |c.captured.frames|
    ensures |c.nodes| == |c.captured.frames| && c.nodes[f].success == c.captured.frames[f].success
  {
  }

  lemma {:induction false} MemberFits(c: Context, f: nat, i: nat)
    requires Fits(c) && f < |c.captured.frames| && i < |c.captured.frames[f].members|
    ensures var m := c.captured.frames[f].members[i];
            && (m.Call? ==>
                f < m.frame < |c.captured.frames| && AncestorsSucceed(c, m.frame) == PathSuccess(c.captured.frames, f))
            && (m.Event? ==> m.event < |c.captured.events| && c.captured.events[m.event].frame == f)
  {
    assert LinkedMember(c.captured.frames, c.captured.events, f, c.captured.frames[f].members[i]);
  }

  lemma {:induction false} PathFromAncestors(c: Context, f: nat)
    requires f < |c.captured.frames|
    ensures PathSuccess(c.captured.frames, f) == (AncestorsSucceed(c, f) && c.captured.frames[f].EffectiveSuccess())
  {
  }

  /** Building frame `f` succeeds and shows what the walk from `f` meets, whatever parent id it is listed under. */
  lemma {:induction false} BuildShows(c: Context, parentId: string, pos: nat, f: nat, address: seq<nat>, logIndex: nat,
          under: string)
    requires Fits(c) && Acyclic(c.captured) && f < |c.captured.frames| && f < |c.nodes|
    ensures var r := BuildNode(c, parentId, pos, f, AncestorsSucceed(c, f), address, logIndex);
            r.Ok? && AllMatch(c, Shown(c, f), ItemsOfChild(SubTrace(r.value.0), under))
    decreases Rank(c, f), 1, 0
  {
    hide Fits, AllMatch, Matches, Acyclic, AncestorsSucceed, Stores;
    FrameFits(c, f);
    var above := AncestorsSucceed(c, f);
    var head := HeadTrace(c, parentId, pos, f, above, address);
    var n := |c.captured.frames[f].members|;
    var start := Acc([], head.storageChange, 0, logIndex);
    NothingMatches(c);
    MembersShow(c, start, f, n, head.id, address, []);
    BuildStores(c, parentId, pos, f, above, address, logIndex);
    assert [] + ShownMembers(c, f, n) == ShownMembers(c, f, n);
    CloseShows(c, parentId, pos, f, address, AppendMembers(c, start, f, n, head.id, above, address).value,
               ShownMembers(c, f, n), under);
  }

  lemma {:induction false} NothingMatches(c: Context)
    ensures AllMatch(c, [], [])
  {
  }

  lemma {:induction false} HeadMatches(c: Context, parentId: string, pos: nat, f: nat, address: seq<nat>, acc: Acc,
          under: string)
    requires f < |c.captured.frames| && f < |c.nodes| && Acyclic(c.captured) && (acc.storageChange <==> Stores(c, f))
    ensures var above := AncestorsSucceed(c, f);
            var node := CloseNode(c, f, HeadTrace(c, parentId, pos, f, above, address), above, acc);
            Matches(c, FromFrame(f), TraceItem(node.trace.(parentTraceId := under), node.success))
  {
    hide AncestorsSucceed, FrameError, ErrorTells, Typed, CallTypes, FirstCompletion, PathSuccess, CountTraces, Stores;
    hide Acyclic;
    PathFromAncestors(c, f);
    CallsTyped(c.nodes[f].kind);
    FrameErrorTells(c.nodes[f], c.captured.frames[f], AncestorsSucceed(c, f));
  }

  lemma {:induction false} SelfdestructMatches(c: Context, parentId: string, pos: nat, f: nat, address: seq<nat>,
          acc: Acc, under: string)
    requires f < |c.captured.frames| && f < |c.nodes| && c.nodes[f].selfdestruct.Some?
    ensures var above := AncestorsSucceed(c, f);
            var node := CloseNode(c, f, HeadTrace(c, parentId, pos, f, above, address), above, acc);
            var last := node.children[|acc.children|];
            && node.children == acc.children + [last] && last.SubTrace? && last.node.children == []
            && Matches(c, FromSelfdestruct(f), TraceItem(last.node.trace.(parentTraceId := under), last.node.success))
  {
    hide AncestorsSucceed, FrameError, FirstCompletion, PathSuccess, CountTraces, Stores, Acyclic;
    PathFromAncestors(c, f);
  }

  lemma {:induction false} CloseShows(c: Context, parentId: string, pos: nat, f: nat, address: seq<nat>, acc: Acc,
          inner: seq<Origin>, under: string)
    requires f < |c.captured.frames| && f < |c.nodes| && Acyclic(c.captured) && (acc.storageChange <==> Stores(c, f))
    requires var head := HeadTrace(c, parentId, pos, f, AncestorsSucceed(c, f), address);
             AllMatch(c, inner, ChildItems(acc.children, head.id))
    ensures var above := AncestorsSucceed(c, f);
            var node := CloseNode(c, f, HeadTrace(c, parentId, pos, f, above, address), above, acc);
            AllMatch(c, [FromFrame(f)] + inner + (if c.nodes[f].selfdestruct.Some? then [FromSelfdestruct(f)] else []),
                     ItemsOfChild(SubTrace(node), under))
  {
    hide AllMatch, AncestorsSucceed, Matches, HeadTrace, CloseNode, ChildItems, ItemsOfChild, Stores, Acyclic;
    var above := AncestorsSucceed(c, f);
    var head := HeadTrace(c, parentId, pos, f, above, address);
    var node := CloseNode(c, f, head, above, acc);
    var first := TraceItem(node.trace.(parentTraceId := under), node.success);
    var items := ChildItems(acc.children, head.id);
    HeadMatches(c, parentId, pos, f, address, acc, under);
    OneMatches(c, FromFrame(f), first);
    AllMatchConcat(c, [FromFrame(f)], [first], inner, items);
    ClosedItems(c, f, head, above, acc, under);
    if c.nodes[f].selfdestruct.Some? {
      SelfdestructMatches(c, parentId, pos, f, address, acc, head.id);
      var last := node.children[|acc.children|].node;
      var item := TraceItem(last.trace.(parentTraceId := head.id), last.success);
      OneMatches(c, FromSelfdestruct(f), item);
      AllMatchConcat(c, [FromFrame(f)] + inner, [first] + items, [FromSelfdestruct(f)], [item]);
    } else {
      assert [FromFrame(f)] + inner + [] == [FromFrame(f)] + inner;
    }
  }

  lemma {:induction false} OneMatches(c: Context, o: Origin, item: Item)
    requires Matches(c, o, item)
    ensures AllMatch(c, [o], [item])
  {
    hide Matches;
  }

  lemma {:induction false} MembersShow(c: Context, acc: Acc, f: nat, n: nat, parentId: string, address: seq<nat>,
          base: seq<Origin>)
    requires Fits(c) && Acyclic(c.captured) && f < |c.captured.frames| && f < |c.nodes| &&
             n <= |c.captured.frames[f].members|
    requires AllMatch(c, base, ChildItems(acc.children, parentId))
    ensures var r := AppendMembers(c, acc, f, n, parentId, AncestorsSucceed(c, f), address);
            r.Ok? && AllMatch(c, base + ShownMembers(c, f, n), ChildItems(r.value.children, parentId))
    decreases Rank(c, f), 0, n
  {
    hide Fits, AllMatch, Matches, Acyclic, AncestorsSucceed;
    if n == 0 {
      assert base + [] == base;
    } else {
      MembersShow(c, acc, f, n - 1, parentId, address, base);
      var before := AppendMembers(c, acc, f, n - 1, parentId, AncestorsSucceed(c, f), address).value;
      MemberShows(c, before, f, n - 1, parentId, address, base + ShownMembers(c, f, n - 1));
      assert base + ShownMembers(c, f, n) == base + ShownMembers(c, f, n - 1) + ShownMember(c, f, n - 1);
    }
  }

  lemma {:induction false} EventShows(c: Context, acc: Acc, e: nat, parentId: string, base: seq<Origin>)
    requires e < |c.captured.events| && AllMatch(c, base, ChildItems(acc.children, parentId))
    ensures var ok := PathSuccess(c.captured.frames, c.captured.events[e].frame);
            AllMatch(c, base + [FromEvent(e)],
                     ChildItems(WithEvent(c, acc, c.captured.events[e].log, parentId, ok).children, parentId))
  {
    hide AllMatch, PathSuccess, TraceOf;
    var log := c.captured.events[e].log;
    var ok := PathSuccess(c.captured.frames, c.captured.events[e].frame);
    var child := WithEvent(c, acc, log, parentId, ok).children[|acc.children|];
    EventKeepsLog(log);
    ChildItemsAppend(acc.children, child, parentId);
    OneMatches(c, FromEvent(e), EventItem(child.event, ok));
    AllMatchConcat(c, base, ChildItems(acc.children, parentId), [FromEvent(e)], [EventItem(child.event, ok)]);
  }

  lemma {:induction false} MemberShows(c: Context, acc: Acc, f: nat, i: nat, parentId: string, address: seq<nat>,
          base: seq<Origin>)
    requires Fits(c) && Acyclic(c.captured) && f < |c.captured.frames| && f < |c.nodes| &&
             i < |c.captured.frames[f].members|
    requires AllMatch(c, base, ChildItems(acc.children, parentId))
    ensures var r := AppendMember(c, acc, f, i, parentId, AncestorsSucceed(c, f), address);
            r.Ok? && AllMatch(c, base + ShownMember(c, f, i), ChildItems(r.value.children, parentId))
    decreases Rank(c, f), 0, i
  {
    hide Fits, AllMatch, Acyclic, AncestorsSucceed, Matches, WithEvent;
    FrameFits(c, f);
    MemberFits(c, f, i);
    PathFromAncestors(c, f);
    var ok := PathSuccess(c.captured.frames, f);
    match c.captured.frames[f].members[i] {
      case Call(child) =>
        if IsVisible(c, child) {
          BuildShows(c, parentId, |acc.children|, child, address + [acc.nextTrace], acc.logIndex, parentId);
          var built := BuildNode(c, parentId, |acc.children|, child, ok, address + [acc.nextTrace], acc.logIndex).value;
          ChildItemsAppend(acc.children, SubTrace(built.0), parentId);
          AllMatchConcat(c, base, ChildItems(acc.children, parentId), Shown(c, child),
                         ItemsOfChild(SubTrace(built.0), parentId));
        } else {
          MembersShow(c, acc, child, |c.captured.frames[child].members|, parentId, address, base);
        }
      case Event(e) =>
        EventShows(c, acc, e, parentId, base);
      case SubcallCompletion(_) =>
        assert base + [] == base;
    }
  }
}
