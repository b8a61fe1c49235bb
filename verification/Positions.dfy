/**
 Every entry of a transaction has a path: the positions leading to it from the root. Paths
 are unique, gap-free and closed under prefixes, and they determine parent, position and id.
 */
module Positions {
  import opened TraceBuilder
  import opened Placement
  import Text

  datatype Entry = Entry(path: seq<nat>, item: Item)

  ghost function Entries(node: Node, path: seq<nat>): seq<Entry>
    decreases node, 1
  {
    [Entry(path, TraceItem(node.trace, node.success))] + ChildEntries(node.children, path)
  }

  ghost function ChildEntries(children: seq<Child>, path: seq<nat>): seq<Entry>
    decreases children, 0
  {
    if children == [] then []
    else
      var n := |children| - 1;
      ChildEntries(children[..n], path) + EntriesOfChild(children[n], path + [n])
  }

  ghost function EntriesOfChild(child: Child, path: seq<nat>): seq<Entry>
    decreases child, 0
  {
    match child
    case SubTrace(node) => Entries(node, path)
    case SubLog(event, success) => [Entry(path, EventItem(event, success))]
  }

  ghost function ItemsIn(es: seq<Entry>): seq<Item> {
    seq(|es|, i requires 0 <= i < |es| => es[i].item)
  }

  function ItemId(item: Item): string {
    match item
    case TraceItem(t, _) => t.id
    case EventItem(e, _) => e.id
  }

  function ItemParent(item: Item): string {
    match item
    case TraceItem(t, _) => t.parentTraceId
    case EventItem(e, _) => e.parentTraceId
  }

  function ItemPos(item: Item): nat {
    match item
    case TraceItem(t, _) => t.posInParent
    case EventItem(e, _) => e.posInParent
  }

  /** What is hashed to give the entry its id. */
  function Preimage(c: Context, item: Item): string {
    (if item.TraceItem? then c.txId else "") + ItemParent(item) + Text.Decimal(ItemPos(item))
  }
  // ----- entries and items -----

  lemma {:induction false} EntriesAreItems(c: Context, child: Child, id: string, pos: nat, address: seq<nat>,
          path: seq<nat>)
    requires PlacedChild(c, child, id, pos, address)
    ensures ItemsIn(EntriesOfChild(child, path)) == ItemsOfChild(child, id)
    decreases child, 0
  {
    if child.SubTrace? {
      ChildEntriesAreItems(c, child.node.children, child.node.trace.id, address, path);
    }
  }

  lemma {:induction false} ChildEntriesAreItems(c: Context, children: seq<Child>, id: string, address: seq<nat>,
          path: seq<nat>)
    requires PlacedChildren(c, children, id, address)
    ensures ItemsIn(ChildEntries(children, path)) == ChildItems(children, id)
    decreases children, 0
  {
    if children != [] {
      var n := |children| - 1;
      ChildEntriesAreItems(c, children[..n], id, address, path);
      EntriesAreItems(c, children[n], id, n, address + [CountTraces(children[..n])], path + [n]);
    }
  }

  // ----- paths -----

  ghost predicate AtOrBelow(p: seq<nat>, path: seq<nat>) {
    |path| <= |p| && p[..|path|] == path
  }

  /** All of a child's entries are at or below the child's path. */
  lemma {:induction false} PathsBelow(child: Child, path: seq<nat>)
    ensures forall i :: 0 <= i < |EntriesOfChild(child, path)| ==> AtOrBelow(EntriesOfChild(child, path)[i].path, path)
    ensures forall i :: 1 <= i < |EntriesOfChild(child, path)| ==> EntriesOfChild(child, path)[i].path != path
    decreases child, 0
  {
    if child.SubTrace? {
      ChildPathsBelow(child.node.children, path);
      var inner := ChildEntries(child.node.children, path);
      assert forall i :: 1 <= i < |EntriesOfChild(child, path)| ==> EntriesOfChild(child, path)[i] == inner[i - 1];
    }
  }

  lemma {:induction false} ChildPathsBelow(children: seq<Child>, path: seq<nat>)
    ensures forall i :: 0 <= i < |ChildEntries(children, path)| ==>
            UnderSlot(ChildEntries(children, path)[i].path, path, |children|)
    decreases children, 0
  {
    if children != [] {
      var n := |children| - 1;
      ChildPathsBelow(children[..n], path);
      PathsBelow(children[n], path + [n]);
      var own := EntriesOfChild(children[n], path + [n]);
      forall i | 0 <= i < |own|
        ensures UnderSlot(own[i].path, path, n + 1)
      {
        SlotOf(own[i].path, path, n);
      }
    }
  }

  /** `p` is below `path`, in one of its first `n` slots. */
  ghost predicate UnderSlot(p: seq<nat>, path: seq<nat>, n: nat) {
    |path| < |p| && p[..|path|] == path && p[|path|] < n
  }

  lemma {:induction false} SlotOf(p: seq<nat>, path: seq<nat>, n: nat)
    requires AtOrBelow(p, path + [n])
    ensures UnderSlot(p, path, n + 1) && p[|path|] == n
  {
    assert p[..|path|] == p[..|path| + 1][..|path|] == path;
    assert p[|path|] == p[..|path| + 1][|path|];
  }

  ghost predicate DistinctPaths(es: seq<Entry>) {
    forall i, j :: 0 <= i < j < |es| ==> es[i].path != es[j].path
  }

  lemma {:induction false} PathsDistinct(child: Child, path: seq<nat>)
    ensures DistinctPaths(EntriesOfChild(child, path))
    decreases child, 0
  {
    if child.SubTrace? {
      ChildPathsDistinct(child.node.children, path);
      ChildPathsBelow(child.node.children, path);
    }
  }

  lemma {:induction false} ChildPathsDistinct(children: seq<Child>, path: seq<nat>)
    ensures DistinctPaths(ChildEntries(children, path))
    decreases children, 0
  {
    if children != [] {
      var n := |children| - 1;
      var before, own := ChildEntries(children[..n], path), EntriesOfChild(children[n], path + [n]);
      ChildPathsDistinct(children[..n], path);
      ChildPathsBelow(children[..n], path);
      PathsDistinct(children[n], path + [n]);
      PathsBelow(children[n], path + [n]);
      forall j | 0 <= j < |own|
        ensures |own[j].path| > |path| && own[j].path[|path|] == n
      {
        SlotOf(own[j].path, path, n);
      }
    }
  }

  // ----- parents -----

  /**
   The entry's id, position and parent are those its path promises; `es` holds its parent unless it
   hangs from `path`.
   */
  ghost predicate Hangs(c: Context, e: Entry, es: seq<Entry>, path: seq<nat>, id: string) {
    && |e.path| > |path|
    && ItemPos(e.item) == e.path[|e.path| - 1]
    && ItemId(e.item) == c.hash(Preimage(c, e.item))
    && if |e.path| == |path| + 1 then e.path[..|path|] == path && ItemParent(e.item) == id
       else HasParent(e, es)
  }

  ghost predicate HasParent(e: Entry, es: seq<Entry>) {
    exists k :: 0 <= k < |es| && IsParent(es[k], e)
  }

  ghost predicate IsParent(p: Entry, e: Entry) {
    p.item.TraceItem? && |e.path| == |p.path| + 1 && e.path[..|p.path|] == p.path &&
    p.item.trace.id == ItemParent(e.item)
  }

  ghost predicate AllHang(c: Context, es: seq<Entry>, all: seq<Entry>, path: seq<nat>, id: string) {
    forall i :: 0 <= i < |es| ==> Hangs(c, es[i], all, path, id)
  }

  lemma {:induction false} HangsInMore(c: Context, es: seq<Entry>, all: seq<Entry>, more: seq<Entry>, path: seq<nat>,
          id: string)
    requires AllHang(c, es, all, path, id)
    requires forall k :: 0 <= k < |all| ==> all[k] in more
    ensures AllHang(c, es, more, path, id)
  {
    forall i | 0 <= i < |es|
      ensures Hangs(c, es[i], more, path, id)
    {
      assert Hangs(c, es[i], all, path, id);
      if HasParent(es[i], all) {
        var k :| 0 <= k < |all| && IsParent(all[k], es[i]);
        var k' :| 0 <= k' < |more| && more[k'] == all[k];
        assert IsParent(more[k'], es[i]);
      }
    }
  }

  lemma {:induction false} ChildrenHang(c: Context, children: seq<Child>, path: seq<nat>, id: string, address: seq<nat>)
    requires PlacedChildren(c, children, id, address)
    ensures AllHang(c, ChildEntries(children, path), ChildEntries(children, path), path, id)
    decreases children, 0
  {
    if children != [] {
      var n := |children| - 1;
      var before, own := ChildEntries(children[..n], path), EntriesOfChild(children[n], path + [n]);
      var all := ChildEntries(children, path);
      ChildrenHang(c, children[..n], path, id, address);
      ChildHangs(c, children[n], path, n, id, address + [CountTraces(children[..n])]);
      hide Hangs;
      HangsInMore(c, before, before, all, path, id);
      HangsInMore(c, own, own, all, path, id);
      assert all == before + own;
    }
  }

  lemma {:induction false} ChildHangs(c: Context, child: Child, path: seq<nat>, n: nat, id: string, address: seq<nat>)
    requires PlacedChild(c, child, id, n, address)
    ensures AllHang(c, EntriesOfChild(child, path + [n]), EntriesOfChild(child, path + [n]), path, id)
    decreases child, 0
  {
    var all := EntriesOfChild(child, path + [n]);
    assert (path + [n])[..|path|] == path;
    PreimageOfChild(c, child, id, n, address);
    if child.SubTrace? {
      var node := child.node;
      var inner := ChildEntries(node.children, path + [n]);
      assert all == Entries(node, path + [n]) == [Entry(path + [n], TraceItem(node.trace, node.success))] + inner;
      ChildrenHang(c, node.children, path + [n], node.trace.id, address);
      forall i | 0 <= i < |inner|
        ensures Hangs(c, inner[i], all, path, id)
      {
        DeeperHangs(c, inner, i, all, path, n, id, node);
      }
    }
  }

  lemma {:induction false} PreimageOfChild(c: Context, child: Child, id: string, n: nat, address: seq<nat>)
    requires PlacedChild(c, child, id, n, address)
    ensures var item :=
              if child.SubTrace? then TraceItem(child.node.trace, child.node.success)
              else EventItem(child.event, child.success);
            ItemId(item) == c.hash(Preimage(c, item)) && ItemPos(item) == n && ItemParent(item) == id
  {
    assert "" + id == id;
  }

  /** Entries below a sub-trace hang from it or from something below it. */
  lemma {:induction false} DeeperHangs(c: Context, inner: seq<Entry>, i: nat, all: seq<Entry>, path: seq<nat>, n: nat,
          id: string, node: Node)
    requires i < |inner| && Hangs(c, inner[i], inner, path + [n], node.trace.id)
    requires all == [Entry(path + [n], TraceItem(node.trace, node.success))] + inner
    ensures Hangs(c, inner[i], all, path, id)
  {
    if |inner[i].path| == |path| + 2 {
      assert IsParent(all[0], inner[i]);
    } else {
      var k :| 0 <= k < |inner| && IsParent(inner[k], inner[i]);
      assert IsParent(all[k + 1], inner[i]);
    }
  }

  // ----- gaps -----

  ghost predicate Occupied(es: seq<Entry>, path: seq<nat>) {
    exists k :: 0 <= k < |es| && es[k].path == path
  }

  /** Every earlier position beside an entry is taken too. */
  ghost predicate GapFree(es: seq<Entry>, path: seq<nat>) {
    forall i, j :: 0 <= i < |es| && |es[i].path| > |path| && 0 <= j < es[i].path[|es[i].path| - 1] ==>
      Occupied(es, Beside(es[i].path, j))
  }

  lemma {:induction false} OccupiedInMore(es: seq<Entry>, more: seq<Entry>, path: seq<nat>)
    requires Occupied(es, path) && forall k :: 0 <= k < |es| ==> es[k] in more
    ensures Occupied(more, path)
  {
    var k :| 0 <= k < |es| && es[k].path == path;
    var k' :| 0 <= k' < |more| && more[k'] == es[k];
  }

  lemma {:induction false} FirstEntry(child: Child, path: seq<nat>)
    ensures |EntriesOfChild(child, path)| > 0 && EntriesOfChild(child, path)[0].path == path
  {
  }

  lemma {:induction false} SlotsOccupied(children: seq<Child>, path: seq<nat>, j: nat)
    requires j < |children|
    ensures Occupied(ChildEntries(children, path), path + [j])
    decreases |children|
  {
    var n := |children| - 1;
    var before, own := ChildEntries(children[..n], path), EntriesOfChild(children[n], path + [n]);
    var all := ChildEntries(children, path);
    assert all == before + own;
    if j == n {
      FirstEntry(children[n], path + [n]);
      assert all[|before|].path == path + [n];
    } else {
      SlotsOccupied(children[..n], path, j);
      OccupiedInMore(before, all, path + [j]);
    }
  }

  /** The position `j` beside an entry with path `p`. */
  ghost function Beside(p: seq<nat>, j: nat): seq<nat>
    requires p != []
  {
    p[..|p| - 1] + [j]
  }

  lemma {:induction false} BesideInSlot(children: seq<Child>, path: seq<nat>, p: seq<nat>, j: nat)
    requires children != [] && AtOrBelow(p, path + [|children| - 1]) && j < p[|p| - 1]
    requires |p| > |path| + 1 ==>
             Occupied(EntriesOfChild(children[|children| - 1], path + [|children| - 1]), Beside(p, j))
    ensures Occupied(ChildEntries(children, path), Beside(p, j))
  {
    var n := |children| - 1;
    if |p| == |path| + 1 {
      assert p == path + [n];
      assert Beside(p, j) == path + [j];
      SlotsOccupied(children, path, j);
    } else {
      var before, own := ChildEntries(children[..n], path), EntriesOfChild(children[n], path + [n]);
      assert ChildEntries(children, path) == before + own;
      OccupiedInMore(own, before + own, Beside(p, j));
    }
  }

  lemma {:induction false} ChildrenGapFree(children: seq<Child>, path: seq<nat>)
    ensures GapFree(ChildEntries(children, path), path)
    decreases children, 0
  {
    if children != [] {
      var n := |children| - 1;
      var before, own := ChildEntries(children[..n], path), EntriesOfChild(children[n], path + [n]);
      ChildrenGapFree(children[..n], path);
      ChildGapFree(children[n], path + [n]);
      PathsBelow(children[n], path + [n]);
      hide Occupied, AtOrBelow;
      forall i, j | 0 <= i < |before| && |before[i].path| > |path| && 0 <= j < before[i].path[|before[i].path| - 1]
        ensures Occupied(before + own, Beside(before[i].path, j))
      {
        OccupiedInMore(before, before + own, Beside(before[i].path, j));
      }
      forall i, j | 0 <= i < |own| && |own[i].path| > |path| && 0 <= j < own[i].path[|own[i].path| - 1]
        ensures Occupied(before + own, Beside(own[i].path, j))
      {
        BesideInSlot(children, path, own[i].path, j);
      }
      GapFreeConcat(before, own, path);
    }
  }

  lemma {:induction false} GapFreeConcat(a: seq<Entry>, b: seq<Entry>, path: seq<nat>)
    requires forall i, j :: 0 <= i < |a| && |a[i].path| > |path| && 0 <= j < a[i].path[|a[i].path| - 1] ==>
             Occupied(a + b, Beside(a[i].path, j))
    requires forall i, j :: 0 <= i < |b| && |b[i].path| > |path| && 0 <= j < b[i].path[|b[i].path| - 1] ==>
             Occupied(a + b, Beside(b[i].path, j))
    ensures GapFree(a + b, path)
  {
    hide Occupied;
    forall i, j | 0 <= i < |a + b| && |(a + b)[i].path| > |path| && 0 <= j < (a + b)[i].path[|(a + b)[i].path| - 1]
      ensures Occupied(a + b, Beside((a + b)[i].path, j))
    {
      if i < |a| {
        assert (a + b)[i] == a[i];
      } else {
        assert (a + b)[i] == b[i - |a|];
      }
    }
  }

  lemma {:induction false} ChildGapFree(child: Child, path: seq<nat>)
    ensures GapFree(EntriesOfChild(child, path), path)
    decreases child, 0
  {
    if child.SubTrace? {
      var inner, all := ChildEntries(child.node.children, path), EntriesOfChild(child, path);
      ChildrenGapFree(child.node.children, path);
      assert all == Entries(child.node, path) == [Entry(path, TraceItem(child.node.trace, child.node.success))] + inner;
      forall i, j | 0 <= i < |all| && |all[i].path| > |path| && 0 <= j < all[i].path[|all[i].path| - 1]
        ensures Occupied(all, Beside(all[i].path, j))
      {
        assert all[i] == inner[i - 1];
        OccupiedInMore(inner, all, Beside(all[i].path, j));
      }
    }
  }
}
