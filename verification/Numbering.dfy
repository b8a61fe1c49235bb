/** Successful events are numbered consecutively in list order; failed ones carry index zero. */
module Numbering {
  import opened TraceBuilder

  /** `[lo, lo + 1, ..., hi - 1]`. */
  ghost function Interval(lo: nat, hi: nat): (r: seq<nat>)
    requires lo <= hi
    ensures |r| == hi - lo && forall i :: 0 <= i < |r| ==> r[i] == lo + i
  {
    seq(hi - lo, i => lo + i)
  }

  ghost function SuccessIndices(items: seq<Item>): seq<nat> {
    if items == [] then []
    else
      var last := items[|items| - 1];
      SuccessIndices(items[..|items| - 1]) + if last.EventItem? && last.success then [last.event.idx] else []
  }

  ghost predicate Numbered(items: seq<Item>, lo: nat, hi: nat) {
    && lo <= hi && SuccessIndices(items) == Interval(lo, hi)
    && forall i :: 0 <= i < |items| && items[i].EventItem? && !items[i].success ==> items[i].event.idx == 0
  }

  lemma {:induction false} SuccessIndicesConcat(a: seq<Item>, b: seq<Item>)
    ensures SuccessIndices(a + b) == SuccessIndices(a) + SuccessIndices(b)
    decreases |b|
  {
    if b == [] {
      assert a + b == a;
    } else {
      assert (a + b)[..|a + b| - 1] == a + b[..|b| - 1];
      SuccessIndicesConcat(a, b[..|b| - 1]);
    }
  }

  lemma {:induction false} NumberedConcat(a: seq<Item>, b: seq<Item>, lo: nat, mid: nat, hi: nat)
    requires Numbered(a, lo, mid) && Numbered(b, mid, hi)
    ensures Numbered(a + b, lo, hi)
  {
    SuccessIndicesConcat(a, b);
    assert Interval(lo, hi) == Interval(lo, mid) + Interval(mid, hi);
  }

  lemma {:induction false} NumberedTrace(t: Trace, success: bool, n: nat)
    ensures Numbered([TraceItem(t, success)], n, n)
  {
    assert [TraceItem(t, success)][..0] == [];
  }

  lemma {:induction false} NumberedEvent(event: TraceEvent, success: bool, n: nat)
    requires event.idx == if success then n else 0
    ensures Numbered([EventItem(event, success)], n, if success then n + 1 else n)
  {
    assert [EventItem(event, success)][..0] == [];
  }

  lemma {:induction false} BuildNumbers(c: Context, parentId: string, pos: nat, f: nat, parentSuccess: bool,
          address: seq<nat>, logIndex: nat, under: string)
    requires Acyclic(c.captured)
    ensures var r := BuildNode(c, parentId, pos, f, parentSuccess, address, logIndex);
            r.Ok? ==> Numbered(ItemsOfChild(SubTrace(r.value.0), under), logIndex, r.value.1)
    decreases Rank(c, f), 1, 0
  {
    hide Acyclic, Numbered, HeadTrace, CloseNode;
    var r := BuildNode(c, parentId, pos, f, parentSuccess, address, logIndex);
    if r.Ok? {
      var head := HeadTrace(c, parentId, pos, f, parentSuccess, address);
      var n := |c.captured.frames[f].members|;
      var start := Acc([], head.storageChange, 0, logIndex);
      NumberedNothing(logIndex);
      MembersNumber(c, start, f, n, head.id, parentSuccess, address, logIndex);
      CloseNumbers(c, f, head, parentSuccess, AppendMembers(c, start, f, n, head.id, parentSuccess, address).value,
                   logIndex, under);
    }
  }

  lemma {:induction false} NumberedNothing(n: nat)
    ensures Numbered([], n, n)
  {
  }

  lemma {:induction false} CloseNumbers(c: Context, f: nat, head: Trace, parentSuccess: bool, acc: Acc, lo: nat,
          under: string)
    requires f < |c.nodes| && f < |c.captured.frames|
    requires Numbered(ChildItems(acc.children, head.id), lo, acc.logIndex)
    ensures Numbered(ItemsOfChild(SubTrace(CloseNode(c, f, head, parentSuccess, acc)), under), lo, acc.logIndex)
  {
    hide Numbered, CloseNode, ChildItems, ItemsOfChild;
    ClosedItems(c, f, head, parentSuccess, acc, under);
    var node := CloseNode(c, f, head, parentSuccess, acc);
    var own := node.trace.(parentTraceId := under);
    var inner := ChildItems(acc.children, head.id);
    NumberedTrace(own, node.success, lo);
    NumberedConcat([TraceItem(own, node.success)], inner, lo, lo, acc.logIndex);
    if c.nodes[f].selfdestruct.Some? {
      var last := node.children[|acc.children|].node;
      var extra := last.trace.(parentTraceId := head.id);
      NumberedTrace(extra, last.success, acc.logIndex);
      NumberedConcat([TraceItem(own, node.success)] + inner,
                     [TraceItem(extra, last.success)], lo, acc.logIndex, acc.logIndex);
    }
  }

  lemma {:induction false} MembersNumber(c: Context, acc: Acc, f: nat, n: nat, parentId: string, parentSuccess: bool,
          address: seq<nat>, lo: nat)
    requires Acyclic(c.captured) && f < |c.captured.frames| && n <= |c.captured.frames[f].members|
    requires Numbered(ChildItems(acc.children, parentId), lo, acc.logIndex)
    ensures var r := AppendMembers(c, acc, f, n, parentId, parentSuccess, address);
            r.Ok? ==> Numbered(ChildItems(r.value.children, parentId), lo, r.value.logIndex)
    decreases Rank(c, f), 0, n
  {
    hide Acyclic, Numbered;
    if n > 0 {
      MembersNumber(c, acc, f, n - 1, parentId, parentSuccess, address, lo);
      var r := AppendMembers(c, acc, f, n - 1, parentId, parentSuccess, address);
      if r.Ok? {
        MemberNumbers(c, r.value, f, n - 1, parentId, parentSuccess, address, lo);
      }
    }
  }

  lemma {:induction false} MemberNumbers(c: Context, acc: Acc, f: nat, i: nat, parentId: string, parentSuccess: bool,
          address: seq<nat>, lo: nat)
    requires Acyclic(c.captured) && f < |c.captured.frames| && i < |c.captured.frames[f].members|
    requires Numbered(ChildItems(acc.children, parentId), lo, acc.logIndex)
    ensures var r := AppendMember(c, acc, f, i, parentId, parentSuccess, address);
            r.Ok? ==> Numbered(ChildItems(r.value.children, parentId), lo, r.value.logIndex)
    decreases Rank(c, f), 0, i
  {
    hide Numbered;
    var ok := parentSuccess && c.captured.frames[f].EffectiveSuccess();
    match c.captured.frames[f].members[i] {
      case Call(child) =>
        if IsVisible(c, child) {
          BuildNumbers(c, parentId, |acc.children|, child, ok, address + [acc.nextTrace], acc.logIndex, parentId);
          var r := BuildNode(c, parentId, |acc.children|, child, ok, address + [acc.nextTrace], acc.logIndex);
          if r.Ok? {
            ChildItemsAppend(acc.children, SubTrace(r.value.0), parentId);
            NumberedConcat(ChildItems(acc.children, parentId), ItemsOfChild(SubTrace(r.value.0), parentId), lo,
                           acc.logIndex, r.value.1);
          }
        } else if child < |c.captured.frames| {
          MembersNumber(c, acc, child, |c.captured.frames[child].members|, parentId, ok, address, lo);
        }
      case Event(e) =>
        if e < |c.captured.events| {
          var acc' := WithEvent(c, acc, c.captured.events[e].log, parentId, ok);
          var child := acc'.children[|acc.children|];
          ChildItemsAppend(acc.children, child, parentId);
          NumberedEvent(child.event, ok, acc.logIndex);
          NumberedConcat(ChildItems(acc.children, parentId), [EventItem(child.event, ok)], lo, acc.logIndex,
                         acc'.logIndex);
        }
      case SubcallCompletion(_) =>
    }
  }

  /** Every event in the list knows its place in the block, and no error event claims one. */
  lemma {:induction false} ListsNumbered(items: seq<Item>, lo: nat, hi: nat)
    requires Numbered(items, lo, hi)
    ensures var lists := AddItems(NO_LISTS, items);
            && |lists.events| == hi - lo
            && (forall i :: 0 <= i < |lists.events| ==> lists.events[i].idx == lo + i)
            && (forall i :: 0 <= i < |lists.errorEvents| ==> lists.errorEvents[i].idx == 0)
  {
    IndicesOfLists(items);
    var lists := AddItems(NO_LISTS, items);
    assert forall i :: 0 <= i < |lists.events| ==> lists.events[i].idx == SuccessIndices(items)[i];
  }

  lemma {:induction false} IndicesOfLists(items: seq<Item>)
    requires forall i :: 0 <= i < |items| && items[i].EventItem? && !items[i].success ==> items[i].event.idx == 0
    ensures var lists := AddItems(NO_LISTS, items);
            && |lists.events| == |SuccessIndices(items)|
            && (forall i :: 0 <= i < |lists.events| ==> lists.events[i].idx == SuccessIndices(items)[i])
            && (forall i :: 0 <= i < |lists.errorEvents| ==> lists.errorEvents[i].idx == 0)
    decreases |items|
  {
    if items != [] {
      IndicesOfLists(items[..|items| - 1]);
    }
  }
}
