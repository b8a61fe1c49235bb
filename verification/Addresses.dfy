/** Trace addresses name the traces of a transaction, and form a tree that agrees with `subtraces` and parent ids. */
module Addresses {
  import opened TraceBuilder
  import opened Placement
  import opened Positions

  ghost predicate TraceAt(item: Item, a: seq<nat>) {
    item.TraceItem? && item.trace.traceAddress == a
  }

  ghost predicate HasTrace(items: seq<Item>, a: seq<nat>) {
    exists k :: 0 <= k < |items| && TraceAt(items[k], a)
  }

  /** Some trace has address `a` and more than `i` sub-traces. */
  ghost predicate HasRoom(items: seq<Item>, a: seq<nat>, i: nat) {
    exists k :: 0 <= k < |items| && TraceAt(items[k], a) && i < items[k].trace.subtraces
  }

  ghost predicate DistinctAddresses(items: seq<Item>) {
    forall i, j :: 0 <= i < j < |items| && items[i].TraceItem? && items[j].TraceItem? ==>
      items[i].trace.traceAddress != items[j].trace.traceAddress
  }

  lemma {:induction false} HasTraceConcat(x: seq<Item>, y: seq<Item>, a: seq<nat>)
    ensures HasTrace(x + y, a) <==> HasTrace(x, a) || HasTrace(y, a)
  {
    hide TraceAt;
    assert forall k :: 0 <= k < |x| ==> (x + y)[k] == x[k];
    assert forall k :: 0 <= k < |y| ==> (x + y)[|x| + k] == y[k];
  }

  lemma {:induction false} HasRoomConcat(x: seq<Item>, y: seq<Item>, a: seq<nat>, i: nat)
    ensures HasRoom(x + y, a, i) <==> HasRoom(x, a, i) || HasRoom(y, a, i)
  {
    assert forall k :: 0 <= k < |x| ==> (x + y)[k] == x[k];
    assert forall k :: 0 <= k < |y| ==> (x + y)[|x| + k] == y[k];
  }

  // ----- addresses below a node -----

  /** The items' addresses are below `address`, in its first `n` slots. */
  ghost predicate AddressesUnder(items: seq<Item>, address: seq<nat>, n: nat) {
    forall k :: 0 <= k < |items| && items[k].TraceItem? ==> UnderSlot(items[k].trace.traceAddress, address, n)
  }

  lemma {:induction false} ChildAddresses(c: Context, child: Child, id: string, pos: nat, address: seq<nat>)
    requires PlacedChild(c, child, id, pos, address)
    ensures forall k :: 0 <= k < |ItemsOfChild(child, id)| && ItemsOfChild(child, id)[k].TraceItem? ==>
              AtOrBelow(ItemsOfChild(child, id)[k].trace.traceAddress, address)
    ensures DistinctAddresses(ItemsOfChild(child, id))
    decreases child, 0
  {
    if child.SubTrace? {
      var node := child.node;
      var inner, all := ChildItems(node.children, node.trace.id), ItemsOfChild(child, id);
      ChildrenAddresses(c, node.children, node.trace.id, address);
      assert forall k :: 1 <= k < |all| ==> all[k] == inner[k - 1];
      assert all[0].trace.traceAddress == address;
    }
  }

  lemma {:induction false} ChildrenAddresses(c: Context, children: seq<Child>, id: string, address: seq<nat>)
    requires PlacedChildren(c, children, id, address)
    ensures AddressesUnder(ChildItems(children, id), address, CountTraces(children))
    ensures DistinctAddresses(ChildItems(children, id))
    decreases children, 0
  {
    if children != [] {
      var n := |children| - 1;
      var before, own := ChildItems(children[..n], id), ItemsOfChild(children[n], id);
      var slot := CountTraces(children[..n]);
      ChildrenAddresses(c, children[..n], id, address);
      ChildAddresses(c, children[n], id, n, address + [slot]);
      forall k | 0 <= k < |own| && own[k].TraceItem?
        ensures UnderSlot(own[k].trace.traceAddress, address, slot + 1) && own[k].trace.traceAddress[|address|] == slot
      {
        SlotOf(own[k].trace.traceAddress, address, slot);
      }
    }
  }

  // ----- addresses and sub-trace counts -----

  lemma {:induction false} ChildRoom(c: Context, child: Child, id: string, pos: nat, address: seq<nat>, a: seq<nat>,
          i: nat)
    requires PlacedChild(c, child, id, pos, address)
    ensures HasTrace(ItemsOfChild(child, id), a + [i]) <==>
            (child.SubTrace? && a + [i] == address) || HasRoom(ItemsOfChild(child, id), a, i)
    decreases child, 0
  {
    if child.SubTrace? {
      var node := child.node;
      var own := [TraceItem(node.trace.(parentTraceId := id), node.success)];
      var inner := ChildItems(node.children, node.trace.id);
      ChildrenRoom(c, node.children, node.trace.id, address, a, i);
      HasTraceConcat(own, inner, a + [i]);
      HasRoomConcat(own, inner, a, i);
      assert HasTrace(own, a + [i]) <==> TraceAt(own[0], a + [i]);
      assert HasRoom(own, a, i) <==> TraceAt(own[0], a) && i < own[0].trace.subtraces;
    }
  }

  lemma {:induction false} ChildrenRoom(c: Context, children: seq<Child>, id: string, address: seq<nat>, a: seq<nat>,
          i: nat)
    requires PlacedChildren(c, children, id, address)
    ensures HasTrace(ChildItems(children, id), a + [i]) <==>
            (a == address && i < CountTraces(children)) || HasRoom(ChildItems(children, id), a, i)
    decreases children, 0
  {
    if children != [] {
      var n := |children| - 1;
      var before, own := ChildItems(children[..n], id), ItemsOfChild(children[n], id);
      var slot := CountTraces(children[..n]);
      ChildrenRoom(c, children[..n], id, address, a, i);
      ChildRoom(c, children[n], id, n, address + [slot], a, i);
      HasTraceConcat(before, own, a + [i]);
      HasRoomConcat(before, own, a, i);
      hide HasTrace, HasRoom;
      LastOf(a, i, address, slot);
    }
  }

  lemma {:induction false} LastOf(a: seq<nat>, i: nat, b: seq<nat>, j: nat)
    ensures a + [i] == b + [j] <==> a == b && i == j
  {
    if a + [i] == b + [j] {
      assert |a| == |b|;
      assert a == (a + [i])[..|a|] == (b + [j])[..|b|] == b;
      assert (a + [i])[|a|] == i && (b + [j])[|b|] == j;
    }
  }

  // ----- addresses and parent ids -----

  /**
   The trace's parent id is that of the trace one address step up: `id` directly below `address`,
   else one of `items`.
   */
  ghost predicate ParentAddressed(t: Trace, items: seq<Item>, address: seq<nat>, id: string) {
    && |t.traceAddress| > |address|
    && var a := t.traceAddress[..|t.traceAddress| - 1];
    (a == address && t.parentTraceId == id) ||
    exists k :: 0 <= k < |items| && TraceAt(items[k], a) && items[k].trace.id == t.parentTraceId
  }

  ghost predicate AllParentAddressed(items: seq<Item>, all: seq<Item>, address: seq<nat>, id: string) {
    forall k :: 0 <= k < |items| && items[k].TraceItem? ==> ParentAddressed(items[k].trace, all, address, id)
  }

  lemma {:induction false} ParentAddressedInMore(items: seq<Item>, all: seq<Item>, more: seq<Item>, address: seq<nat>,
          id: string)
    requires AllParentAddressed(items, all, address, id) && forall k :: 0 <= k < |all| ==> all[k] in more
    ensures AllParentAddressed(items, more, address, id)
  {
    forall k | 0 <= k < |items| && items[k].TraceItem?
      ensures ParentAddressed(items[k].trace, more, address, id)
    {
      var t := items[k].trace;
      assert ParentAddressed(t, all, address, id);
      var a := t.traceAddress[..|t.traceAddress| - 1];
      if !(a == address && t.parentTraceId == id) {
        var m :| 0 <= m < |all| && TraceAt(all[m], a) && all[m].trace.id == t.parentTraceId;
        var m' :| 0 <= m' < |more| && more[m'] == all[m];
        assert TraceAt(more[m'], a);
      }
    }
  }

  lemma {:induction false} ChildParents(c: Context, child: Child, id: string, pos: nat, address: seq<nat>, slot: nat)
    requires PlacedChild(c, child, id, pos, address + [slot])
    ensures AllParentAddressed(ItemsOfChild(child, id), ItemsOfChild(child, id), address, id)
    decreases child, 0
  {
    if child.SubTrace? {
      var node := child.node;
      var inner, all := ChildItems(node.children, node.trace.id), ItemsOfChild(child, id);
      ChildrenParents(c, node.children, node.trace.id, address + [slot]);
      ParentAddressedInMore(inner, inner, all, address + [slot], node.trace.id);
      forall k | 0 <= k < |all| && all[k].TraceItem?
        ensures ParentAddressed(all[k].trace, all, address, id)
      {
        if k == 0 {
          assert (address + [slot])[..|address|] == address;
        } else {
          assert all[k] == inner[k - 1];
          assert ParentAddressed(inner[k - 1].trace, all, address + [slot], node.trace.id);
          assert TraceAt(all[0], address + [slot]) && all[0].trace.id == node.trace.id;
        }
      }
    }
  }

  lemma {:induction false} ChildrenParents(c: Context, children: seq<Child>, id: string, address: seq<nat>)
    requires PlacedChildren(c, children, id, address)
    ensures AllParentAddressed(ChildItems(children, id), ChildItems(children, id), address, id)
    decreases children, 0
  {
    if children != [] {
      var n := |children| - 1;
      var before, own := ChildItems(children[..n], id), ItemsOfChild(children[n], id);
      ChildrenParents(c, children[..n], id, address);
      ChildParents(c, children[n], id, n, address, CountTraces(children[..n]));
      hide ParentAddressed;
      ParentAddressedInMore(before, before, before + own, address, id);
      ParentAddressedInMore(own, own, before + own, address, id);
    }
  }

  /**
   Over all traces of a transaction: addresses are different; `a` followed by `i` is an
   address exactly when some trace has address `a` and more than `i` sub-traces; and a
   trace's parent id is the id of the trace whose address is one step shorter.
   */
  lemma {:induction false} AddressTree(c: Context, logIndex: nat)
    requires Acyclic(c.captured) && BuildNode(c, "", 0, 0, true, [], logIndex).Ok?
    ensures var items := Items(BuildNode(c, "", 0, 0, true, [], logIndex).value.0);
            && DistinctAddresses(items)
            && HasTrace(items, [])
            && (forall a: seq<nat>, i: nat :: HasTrace(items, a + [i]) <==> HasRoom(items, a, i))
            && (forall k :: 0 <= k < |items| && items[k].TraceItem? && items[k].trace.traceAddress != [] ==>
                  ParentHere(items, items[k].trace))
  {
    var top := BuildNode(c, "", 0, 0, true, [], logIndex).value.0;
    BuildPlaces(c, "", 0, 0, true, [], logIndex);
    hide BuildNode;
    var items, inner := Items(top), ChildItems(top.children, top.trace.id);
    assert ItemsOfChild(SubTrace(top), "") == items;
    ChildAddresses(c, SubTrace(top), "", 0, []);
    assert TraceAt(items[0], []);
    forall a: seq<nat>, i: nat
      ensures HasTrace(items, a + [i]) <==> HasRoom(items, a, i)
    {
      ChildRoom(c, SubTrace(top), "", 0, [], a, i);
    }
    ChildrenParents(c, top.children, top.trace.id, []);
    TopParents(top, items, inner);
  }

  ghost predicate ParentHere(items: seq<Item>, t: Trace)
    requires t.traceAddress != []
  {
    exists k :: 0 <= k < |items| && TraceAt(items[k], t.traceAddress[..|t.traceAddress| - 1]) &&
        items[k].trace.id == t.parentTraceId
  }

  lemma {:induction false} TopParents(top: Node, items: seq<Item>, inner: seq<Item>)
    requires top.trace.traceAddress == [] && items == [TraceItem(top.trace, top.success)] + inner
    requires AllParentAddressed(inner, inner, [], top.trace.id)
    ensures forall k :: 0 <= k < |items| && items[k].TraceItem? && items[k].trace.traceAddress != [] ==>
            ParentHere(items, items[k].trace)
  {
    ParentAddressedInMore(inner, inner, items, [], top.trace.id);
    forall k | 0 <= k < |items| && items[k].TraceItem? && items[k].trace.traceAddress != []
      ensures ParentHere(items, items[k].trace)
    {
      assert items[k] == inner[k - 1];
      assert ParentAddressed(inner[k - 1].trace, items, [], top.trace.id);
      assert TraceAt(items[0], []);
    }
  }
}
