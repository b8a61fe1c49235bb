/** Where each entry sits in its transaction's tree: parent id, position, address and own id. */
module Placement {
  import opened TraceBuilder

  /** The node hangs from `parentId` at `pos` with the given address, and so does everything below it. */
  ghost predicate Placed(c: Context, node: Node, parentId: string, pos: nat, address: seq<nat>)
    decreases node, 1
  {
    && node.trace.parentTraceId == parentId
    && node.trace.posInParent == pos
    && node.trace.traceAddress == address
    && node.trace.id == TraceId(c, parentId, pos)
    && node.trace.subtraces == CountTraces(node.children)
    && PlacedChildren(c, node.children, node.trace.id, address)
    && AllOrdinary(node.children[..if node.children == [] then 0 else |node.children| - 1])
  }

  /** A child that is not the extra trace of a self-destruct. */
  ghost predicate Ordinary(child: Child) {
    child.SubTrace? ==> child.node.trace.callCreateType != "suicide"
  }

  ghost predicate AllOrdinary(children: seq<Child>) {
    forall i :: 0 <= i < |children| ==> Ordinary(children[i])
  }

  /** Children take positions 0, 1, ... and the traces among them addresses 0, 1, ... */
  ghost predicate PlacedChildren(c: Context, children: seq<Child>, id: string, address: seq<nat>)
    decreases children, 0
  {
    children != [] ==>
      var before := children[..|children| - 1];
      && PlacedChildren(c, before, id, address)
      && PlacedChild(c, children[|children| - 1], id, |before|, address + [CountTraces(before)])
  }

  ghost predicate PlacedChild(c: Context, child: Child, id: string, pos: nat, address: seq<nat>)
    decreases child, 0
  {
    match child
    case SubTrace(node) => Placed(c, node, id, pos, address)
    case SubLog(event, _) => event.parentTraceId == id && event.posInParent == pos && event.id == EventId(c, id, pos)
  }

  lemma {:induction false} PlacedAppend(c: Context, children: seq<Child>, child: Child, id: string, address: seq<nat>)
    requires PlacedChildren(c, children, id, address)
    requires PlacedChild(c, child, id, |children|, address + [CountTraces(children)])
    ensures PlacedChildren(c, children + [child], id, address)
    ensures CountTraces(children + [child]) == CountTraces(children) + if child.SubTrace? then 1 else 0
  {
    assert (children + [child])[..|children|] == children;
  }

  lemma {:induction false} BuildPlaces(c: Context, parentId: string, pos: nat, f: nat, parentSuccess: bool,
          address: seq<nat>, logIndex: nat)
    requires Acyclic(c.captured)
    ensures var r := BuildNode(c, parentId, pos, f, parentSuccess, address, logIndex);
            r.Ok? ==> Placed(c, r.value.0, parentId, pos, address) && Ordinary(SubTrace(r.value.0))
    decreases Rank(c, f), 1, 0
  {
    hide Acyclic, Placed, HeadTrace, CloseNode;
    var r := BuildNode(c, parentId, pos, f, parentSuccess, address, logIndex);
    if r.Ok? {
      var head := HeadTrace(c, parentId, pos, f, parentSuccess, address);
      var n := |c.captured.frames[f].members|;
      var start := Acc([], head.storageChange, 0, logIndex);
      MembersPlace(c, start, f, n, head.id, parentSuccess, address);
      ClosePlaces(c, parentId, pos, f, parentSuccess, address,
                  AppendMembers(c, start, f, n, head.id, parentSuccess, address).value);
    }
  }

  lemma {:induction false} ClosePlaces(c: Context, parentId: string, pos: nat, f: nat, parentSuccess: bool,
          address: seq<nat>, acc: Acc)
    requires f < |c.nodes| && f < |c.captured.frames|
    requires var head := HeadTrace(c, parentId, pos, f, parentSuccess, address);
             PlacedChildren(c, acc.children, head.id, address) && AllOrdinary(acc.children) &&
             acc.nextTrace == CountTraces(acc.children)
    ensures var node := CloseNode(c, f, HeadTrace(c, parentId, pos, f, parentSuccess, address), parentSuccess, acc);
            Placed(c, node, parentId, pos, address) && Ordinary(SubTrace(node))
  {
    hide PlacedChildren, FrameError, SelfdestructNode, AllOrdinary, CountTraces;
    var head := HeadTrace(c, parentId, pos, f, parentSuccess, address);
    var node := CloseNode(c, f, head, parentSuccess, acc);
    if c.nodes[f].selfdestruct.Some? {
      var last := node.children[|acc.children|];
      SelfdestructPlaced(c, f, head, parentSuccess, acc);
      PlacedAppend(c, acc.children, last, head.id, address);
      assert node.children[..|acc.children|] == acc.children;
    } else {
      OrdinaryPrefix(acc.children);
    }
  }

  lemma {:induction false} OrdinaryPrefix(children: seq<Child>)
    requires AllOrdinary(children)
    ensures AllOrdinary(children[..if children == [] then 0 else |children| - 1])
  {
  }

  lemma {:induction false} SelfdestructPlaced(c: Context, f: nat, head: Trace, parentSuccess: bool, acc: Acc)
    requires f < |c.nodes| && f < |c.captured.frames| && c.nodes[f].selfdestruct.Some?
    requires acc.nextTrace == CountTraces(acc.children)
    ensures var node := CloseNode(c, f, head, parentSuccess, acc);
            && |node.children| == |acc.children| + 1
            && PlacedChild(c, node.children[|acc.children|], head.id, |acc.children|,
                           head.traceAddress + [CountTraces(acc.children)])
  {
  }

  lemma {:induction false} MembersPlace(c: Context, acc: Acc, f: nat, n: nat, parentId: string, parentSuccess: bool,
          address: seq<nat>)
    requires Acyclic(c.captured) && f < |c.captured.frames| && n <= |c.captured.frames[f].members|
    requires PlacedChildren(c, acc.children, parentId, address) && AllOrdinary(acc.children) &&
             acc.nextTrace == CountTraces(acc.children)
    ensures var r := AppendMembers(c, acc, f, n, parentId, parentSuccess, address);
            r.Ok? ==>
              PlacedChildren(c, r.value.children, parentId, address) && AllOrdinary(r.value.children) &&
              r.value.nextTrace == CountTraces(r.value.children)
    decreases Rank(c, f), 0, n
  {
    hide Acyclic, PlacedChildren;
    if n > 0 {
      MembersPlace(c, acc, f, n - 1, parentId, parentSuccess, address);
      var r := AppendMembers(c, acc, f, n - 1, parentId, parentSuccess, address);
      if r.Ok? {
        MemberPlaces(c, r.value, f, n - 1, parentId, parentSuccess, address);
      }
    }
  }

  lemma {:induction false} MemberPlaces(c: Context, acc: Acc, f: nat, i: nat, parentId: string, parentSuccess: bool,
          address: seq<nat>)
    requires Acyclic(c.captured) && f < |c.captured.frames| && i < |c.captured.frames[f].members|
    requires PlacedChildren(c, acc.children, parentId, address) && AllOrdinary(acc.children) &&
             acc.nextTrace == CountTraces(acc.children)
    ensures var r := AppendMember(c, acc, f, i, parentId, parentSuccess, address);
            r.Ok? ==>
              PlacedChildren(c, r.value.children, parentId, address) && AllOrdinary(r.value.children) &&
              r.value.nextTrace == CountTraces(r.value.children)
    decreases Rank(c, f), 0, i
  {
    hide PlacedChildren, Placed, CountTraces, AllOrdinary;
    var ok := parentSuccess && c.captured.frames[f].EffectiveSuccess();
    match c.captured.frames[f].members[i] {
      case Call(child) =>
        if IsVisible(c, child) {
          ChildPlaces(c, acc, child, parentId, ok, address);
        } else if child < |c.captured.frames| {
          MembersPlace(c, acc, child, |c.captured.frames[child].members|, parentId, ok, address);
        }
      case Event(e) =>
        if e < |c.captured.events| {
          var acc' := WithEvent(c, acc, c.captured.events[e].log, parentId, ok);
          PlacedAppend(c, acc.children, acc'.children[|acc.children|], parentId, address);
          OrdinaryAppend(acc.children, acc'.children[|acc.children|]);
        }
      case SubcallCompletion(_) =>
    }
  }

  lemma {:induction false} OrdinaryAppend(children: seq<Child>, child: Child)
    requires AllOrdinary(children) && Ordinary(child)
    ensures AllOrdinary(children + [child])
  {
  }

  /** A visible child takes the next position and the next address. */
  lemma {:induction false} ChildPlaces(c: Context, acc: Acc, child: nat, parentId: string, ok: bool, address: seq<nat>)
    requires Acyclic(c.captured)
    requires PlacedChildren(c, acc.children, parentId, address) && AllOrdinary(acc.children) &&
             acc.nextTrace == CountTraces(acc.children)
    ensures var r := BuildNode(c, parentId, |acc.children|, child, ok, address + [acc.nextTrace], acc.logIndex);
            r.Ok? ==>
              var acc' := WithTrace(acc, r.value.0, r.value.1);
              PlacedChildren(c, acc'.children, parentId, address) && AllOrdinary(acc'.children) &&
              acc'.nextTrace == CountTraces(acc'.children)
    decreases Rank(c, child), 2, 0
  {
    hide PlacedChildren, Placed, CountTraces, BuildNode;
    BuildPlaces(c, parentId, |acc.children|, child, ok, address + [acc.nextTrace], acc.logIndex);
    var r := BuildNode(c, parentId, |acc.children|, child, ok, address + [acc.nextTrace], acc.logIndex);
    if r.Ok? {
      PlacedAppend(c, acc.children, SubTrace(r.value.0), parentId, address);
    }
  }
}
