/** Children of a trace, traces and events together, sit at positions 0, 1, 2, ..., a self-destruct last. */
module PositionTree {
  import opened TraceBuilder
  import opened Placement
  import opened Positions
  import opened Ids

  ghost predicate IsSelfdestruct(item: Item) {
    item.TraceItem? && item.trace.callCreateType == "suicide"
  }

  /** The position right after the entry's own. */
  ghost function After(p: seq<nat>): seq<nat>
    requires p != []
  {
    Beside(p, p[|p| - 1] + 1)
  }

  /** Nothing follows a self-destruct at its level. */
  ghost predicate SelfdestructsLast(es: seq<Entry>) {
    forall i :: 0 <= i < |es| && es[i].path != [] && IsSelfdestruct(es[i].item) ==> !Occupied(es, After(es[i].path))
  }

  /** All entries are below `path`, in slots from `lo` up to `hi`. */
  ghost predicate InSlots(es: seq<Entry>, path: seq<nat>, lo: nat, hi: nat) {
    forall i :: 0 <= i < |es| ==> UnderSlot(es[i].path, path, hi) && lo <= es[i].path[|path|]
  }

  lemma {:induction false} ChildrenSelfdestructsLast(c: Context, children: seq<Child>, path: seq<nat>, id: string,
          address: seq<nat>)
    requires PlacedChildren(c, children, id, address)
    requires children != [] ==> AllOrdinary(children[..|children| - 1])
    ensures SelfdestructsLast(ChildEntries(children, path))
    decreases children, 0
  {
    if children != [] {
      var n := |children| - 1;
      var before, own := ChildEntries(children[..n], path), EntriesOfChild(children[n], path + [n]);
      assert n > 0 ==> children[..n][..n - 1] == children[..n - 1];
      ChildrenSelfdestructsLast(c, children[..n], path, id, address);
      ChildSelfdestructsLast(c, children[n], path, n, id, address + [CountTraces(children[..n])]);
      OrdinaryDeeper(children[..n], path);
      SlotsOfChildren(children[..n], path);
      SlotsOfChild(children[n], path, n);
      hide Occupied, UnderSlot;
      CombineLast(before, own, path, n);
    }
  }

  lemma {:induction false} SlotsOfChildren(children: seq<Child>, path: seq<nat>)
    ensures InSlots(ChildEntries(children, path), path, 0, |children|)
  {
    ChildPathsBelow(children, path);
  }

  lemma {:induction false} SlotsOfChild(child: Child, path: seq<nat>, n: nat)
    ensures InSlots(EntriesOfChild(child, path + [n]), path, n, n + 1)
  {
    PathsBelow(child, path + [n]);
    var own := EntriesOfChild(child, path + [n]);
    forall i | 0 <= i < |own|
      ensures UnderSlot(own[i].path, path, n + 1) && n <= own[i].path[|path|]
    {
      SlotOf(own[i].path, path, n);
    }
  }

  /** Among ordinary children, a self-destruct can only be further down. */
  ghost predicate SelfdestructsDeeper(es: seq<Entry>, path: seq<nat>) {
    forall i :: 0 <= i < |es| && IsSelfdestruct(es[i].item) ==> |es[i].path| > |path| + 1
  }

  lemma {:induction false} OrdinaryDeeper(children: seq<Child>, path: seq<nat>)
    requires AllOrdinary(children)
    ensures SelfdestructsDeeper(ChildEntries(children, path), path)
    decreases |children|
  {
    if children != [] {
      var n := |children| - 1;
      var own := EntriesOfChild(children[n], path + [n]);
      OrdinaryDeeper(children[..n], path);
      assert Ordinary(children[n]);
      assert children[n].SubTrace? ==> own == Entries(children[n].node, path + [n]);
      assert !IsSelfdestruct(own[0].item);
      PathsBelow(children[n], path + [n]);
      forall i | 0 <= i < |own| && IsSelfdestruct(own[i].item)
        ensures |own[i].path| > |path| + 1
      {
        assert own[i].path != path + [n] && AtOrBelow(own[i].path, path + [n]);
      }
    }
  }

  lemma {:induction false} AfterStaysInSlot(p: seq<nat>, path: seq<nat>, hi: nat)
    requires UnderSlot(p, path, hi)
    ensures |After(p)| == |p|
    ensures |p| > |path| + 1 ==> UnderSlot(After(p), path, hi) && After(p)[|path|] == p[|path|]
    ensures |p| == |path| + 1 ==> After(p) == path + [p[|path|] + 1]
  {
  }

  lemma {:induction false} NotInSlots(es: seq<Entry>, path: seq<nat>, lo: nat, hi: nat, p: seq<nat>)
    requires InSlots(es, path, lo, hi) && |p| > |path| && !(lo <= p[|path|] < hi)
    ensures !Occupied(es, p)
  {
  }

  lemma {:induction false} CombineLast(before: seq<Entry>, own: seq<Entry>, path: seq<nat>, n: nat)
    requires SelfdestructsLast(before) && SelfdestructsLast(own) && SelfdestructsDeeper(before, path)
    requires InSlots(before, path, 0, n) && InSlots(own, path, n, n + 1)
    ensures SelfdestructsLast(before + own)
  {
    hide UnderSlot, After;
    var all := before + own;
    forall i | 0 <= i < |all| && all[i].path != [] && IsSelfdestruct(all[i].item)
      ensures !Occupied(all, After(all[i].path))
    {
      var p := all[i].path;
      if i < |before| {
        assert all[i] == before[i];
        SlotFacts(p, path, n);
        NotInSlots(own, path, n, n + 1, After(p));
      } else {
        assert all[i] == own[i - |before|];
        SlotFacts(p, path, n + 1);
        if |p| == |path| + 1 {
          NotInSlots(own, path, n, n + 1, After(p));
        }
        NotInSlots(before, path, 0, n, After(p));
      }
    }
  }

  lemma {:induction false} SlotFacts(p: seq<nat>, path: seq<nat>, hi: nat)
    requires UnderSlot(p, path, hi)
    ensures |p| > |path| && p[|path|] < hi
    ensures |After(p)| == |p|
    ensures |p| > |path| + 1 ==> After(p)[|path|] == p[|path|]
    ensures |p| == |path| + 1 ==> After(p)[|path|] == p[|path|] + 1
  {
    AfterStaysInSlot(p, path, hi);
  }

  lemma {:induction false} ChildSelfdestructsLast(c: Context, child: Child, path: seq<nat>, n: nat, id: string,
          address: seq<nat>)
    requires PlacedChild(c, child, id, n, address)
    ensures SelfdestructsLast(EntriesOfChild(child, path + [n]))
    decreases child, 0
  {
    var all := EntriesOfChild(child, path + [n]);
    SlotsOfChild(child, path, n);
    if child.SubTrace? {
      var node := child.node;
      var inner := ChildEntries(node.children, path + [n]);
      ChildrenSelfdestructsLast(c, node.children, path + [n], node.trace.id, address);
      SlotsOfChildren(node.children, path + [n]);
      assert all == Entries(node, path + [n]) == [Entry(path + [n], TraceItem(node.trace, node.success))] + inner;
      forall i | 0 <= i < |all| && all[i].path != [] && IsSelfdestruct(all[i].item)
        ensures !Occupied(all, After(all[i].path))
      {
        if i == 0 {
          SlotFacts(all[0].path, path, n + 1);
          NotInSlots(all, path, n, n + 1, After(all[0].path));
        } else {
          assert all[i] == inner[i - 1];
          SlotFacts(all[i].path, path + [n], |node.children|);
        }
      }
    } else {
      SlotFacts(all[0].path, path, n + 1);
      NotInSlots(all, path, n, n + 1, After(all[0].path));
    }
  }

  /**
   Lay the entries of a transaction out by path. Paths are different; below every trace the
   taken positions are 0, 1, ... without a gap, each once, with nothing after a self-destruct;
   every entry but the root has its parent one step up, names that parent's id, and records
   its own position; and only traces have anything below them.
   */
  lemma {:induction false} PositionsFormTree(c: Context, logIndex: nat) returns (es: seq<Entry>)
    requires Acyclic(c.captured) && BuildNode(c, "", 0, 0, true, [], logIndex).Ok?
    ensures ItemsIn(es) == Items(BuildNode(c, "", 0, 0, true, [], logIndex).value.0)
    ensures DistinctPaths(es) && GapFree(es, []) && SelfdestructsLast(es) && Rooted(c, es)
  {
    var top := BuildNode(c, "", 0, 0, true, [], logIndex).value.0;
    BuildPlaces(c, "", 0, 0, true, [], logIndex);
    hide BuildNode;
    es := Entries(top, []);
    EntriesAreItems(c, SubTrace(top), "", 0, [], []);
    assert ItemsOfChild(SubTrace(top), "") == Items(top);
    PathsDistinct(SubTrace(top), []);
    ChildGapFree(SubTrace(top), []);
    TopRooted(c, top);
    ChildrenSelfdestructsLast(c, top.children, [], top.trace.id, []);
    SlotsOfChildren(top.children, []);
    TopSelfdestructsLast(top);
  }

  lemma {:induction false} TopSelfdestructsLast(top: Node)
    requires SelfdestructsLast(ChildEntries(top.children, []))
    ensures SelfdestructsLast(Entries(top, []))
  {
    var es, inner := Entries(top, []), ChildEntries(top.children, []);
    forall i | 0 <= i < |es| && es[i].path != [] && IsSelfdestruct(es[i].item)
      ensures !Occupied(es, After(es[i].path))
    {
      assert es[i] == inner[i - 1];
    }
  }
}
