/** The builder's procedures, proved against the functions of `TraceBuilder`. */
module TraceMethods {
  import opened Basics
  import opened Capture
  import opened TraceBuilder

  method BuildTraceNode(c: Context, parentId: string, pos: nat, f: nat, parentSuccess: bool, address: seq<nat>,
          logIndex: nat)
    returns (r: Result<(Node, nat), BuildError>)
    requires Acyclic(c.captured)
    ensures r == BuildNode(c, parentId, pos, f, parentSuccess, address, logIndex)
    decreases Rank(c, f), 1
  {
    hide Acyclic, HeadTrace, SelfdestructNode, FirstCompletion, CountTraces, AppendMembers;
    if f >= |c.nodes| {
      return Err(MissingNode(f));
    }
    if f >= |c.captured.frames| {
      return Err(MissingFrame(f));
    }
    var callNode, frame := c.nodes[f], c.captured.frames[f];
    if callNode.success != frame.success {
      return Err(SuccessMismatch(f));
    }
    var effective := frame.EffectiveSuccess();
    var node := Node(HeadTrace(c, parentId, pos, f, parentSuccess, address), [], frame.RawSuccess(), effective,
                     effective && parentSuccess);
    var appended := AppendCapturedMembers(c, Acc([], node.trace.storageChange, 0, logIndex), f, node.trace.id,
                                          parentSuccess, address);
    if appended.Err? {
      return Err(appended.error);
    }
    var acc := appended.value;
    var subtraces := CountSubtraces(acc.children);
    node := node.(children := acc.children,
                  trace := node.trace.(storageChange := acc.storageChange, subtraces := subtraces));
    if callNode.selfdestruct.Some? {
      var last := SelfdestructNode(c, f, node, acc.nextTrace);
      node := node.(trace := node.trace.(subtraces := node.trace.subtraces + 1),
                    children := node.children + [SubTrace(last)]);
    }
    return Ok((node, acc.logIndex));
  }

  method CountSubtraces(children: seq<Child>) returns (n: nat)
    ensures n == CountTraces(children)
  {
    n := 0;
    for i := 0 to |children|
      invariant n == CountTraces(children[..i])
    {
      assert children[..i + 1][..i] == children[..i];
      if children[i].SubTrace? {
        n := n + 1;
      }
    }
    assert children[..|children|] == children;
  }

  lemma {:induction false} ErrorSticks(c: Context, acc: Acc, f: nat, i: nat, n: nat, parentId: string,
          parentSuccess: bool, address: seq<nat>)
    requires Acyclic(c.captured) && f < |c.captured.frames| && i <= n <= |c.captured.frames[f].members|
    requires AppendMembers(c, acc, f, i, parentId, parentSuccess, address).Err?
    ensures AppendMembers(c, acc, f, n, parentId, parentSuccess, address) ==
            AppendMembers(c, acc, f, i, parentId, parentSuccess, address)
    decreases n
  {
    if i < n {
      ErrorSticks(c, acc, f, i, n - 1, parentId, parentSuccess, address);
    }
  }

  method AppendCapturedMembers(c: Context, start: Acc, f: nat, parentId: string, parentSuccess: bool, address: seq<nat>)
    returns (r: Result<Acc, BuildError>)
    requires Acyclic(c.captured)
    ensures f < |c.captured.frames| ==>
            r == AppendMembers(c, start, f, |c.captured.frames[f].members|, parentId, parentSuccess, address)
    ensures f >= |c.captured.frames| ==> r == Err(MissingFrame(f))
    decreases Rank(c, f), 0
  {
    hide Acyclic, BuildNode, WithTrace, WithEvent, FirstCompletion;
    if f >= |c.captured.frames| {
      return Err(MissingFrame(f));
    }
    var frame := c.captured.frames[f];
    var frameSuccess := parentSuccess && frame.EffectiveSuccess();
    var acc := start;
    for i := 0 to |frame.members|
      invariant AppendMembers(c, start, f, i, parentId, parentSuccess, address) == Ok(acc)
    {
      match frame.members[i] {
        case Call(child) =>
          if IsVisible(c, child) {
            var built := BuildTraceNode(c, parentId, |acc.children|, child, frameSuccess,
                                        address + [acc.nextTrace], acc.logIndex);
            if built.Err? {
              ErrorSticks(c, start, f, i + 1, |frame.members|, parentId, parentSuccess, address);
              return Err(built.error);
            }
            acc := WithTrace(acc, built.value.0, built.value.1);
          } else {
            var flattened := AppendCapturedMembers(c, acc, child, parentId, frameSuccess, address);
            if flattened.Err? {
              ErrorSticks(c, start, f, i + 1, |frame.members|, parentId, parentSuccess, address);
              return flattened;
            }
            acc := flattened.value;
          }
        case Event(e) =>
          if e >= |c.captured.events| {
            ErrorSticks(c, start, f, i + 1, |frame.members|, parentId, parentSuccess, address);
            return Err(MissingEvent(e));
          }
          if c.captured.events[e].frame != f {
            ErrorSticks(c, start, f, i + 1, |frame.members|, parentId, parentSuccess, address);
            return Err(WrongFrame(e, c.captured.events[e].frame, f));
          }
          acc := WithEvent(c, acc, c.captured.events[e].log, parentId, frameSuccess);
        case SubcallCompletion(_) =>
      }
    }
    return Ok(acc);
  }

  lemma {:induction false} AddOne(lists: Lists, item: Item)
    ensures AddItems(lists, [item]) == AddItem(lists, item)
  {
    assert [item][..0] == [];
  }

  /** The entries of one more child follow those of the children before it. */
  lemma {:induction false} OneMoreChild(children: seq<Child>, i: nat, id: string, head: seq<Item>)
    requires i < |children|
    ensures head + ChildItems(children[..i + 1], id) ==
            head + ChildItems(children[..i], id) + ItemsOfChild(children[i], id)
  {
    hide ChildItems, ItemsOfChild;
    assert children[..i + 1] == children[..i] + [children[i]];
    ChildItemsAppend(children[..i], children[i], id);
  }

  lemma {:induction false} NoChildren(children: seq<Child>, id: string, head: seq<Item>)
    ensures head + ChildItems(children[..0], id) == head
  {
  }

  lemma {:induction false} RenamedItems(sub: Node, id: string)
    ensures Items(sub.(trace := sub.trace.(parentTraceId := id))) == ItemsOfChild(SubTrace(sub), id)
  {
  }

  /** Appends the node and everything below it to the four lists. */
  method FinishBuildTraces(node: Node, lists: Lists) returns (r: Lists)
    ensures r == AddItems(lists, Items(node))
    decreases node.children
  {
    hide AddItems, AddItem, ChildItems, ItemsOfChild;
    var id := node.trace.id;
    ghost var head := [TraceItem(node.trace, node.success)];
    r := AddItem(lists, TraceItem(node.trace, node.success));
    AddOne(lists, TraceItem(node.trace, node.success));
    NoChildren(node.children, id, head);
    for i := 0 to |node.children|
      invariant r == AddItems(lists, head + ChildItems(node.children[..i], id))
    {
      var child := node.children[i];
      OneMoreChild(node.children, i, id, head);
      AddItemsConcat(lists, head + ChildItems(node.children[..i], id), ItemsOfChild(child, id));
      match child {
        case SubTrace(sub) =>
          RenamedItems(sub, id);
          r := FinishBuildTraces(sub.(trace := sub.trace.(parentTraceId := id)), r);
        case SubLog(event, success) =>
          LogItems(event, success, id);
          AddOne(r, EventItem(event, success));
          r := AddItem(r, EventItem(event, success));
      }
    }
    assert node.children[..|node.children|] == node.children;
  }

  lemma {:induction false} LogItems(event: TraceEvent, success: bool, id: string)
    ensures ItemsOfChild(SubLog(event, success), id) == [EventItem(event, success)]
  {
  }

  method MarkVisible(nodes: seq<CallNode>) returns (visible: seq<bool>)
    requires nodes != []
    ensures visible == VisibleFlags(nodes)
    ensures |visible| == |nodes|
    ensures forall f :: 0 <= f < |nodes| ==>
              (visible[f] <==> f == 0 || exists g :: 0 <= g < |nodes| && f in nodes[g].children)
  {
    visible := seq(|nodes|, f => f == 0);
    for g := 0 to |nodes|
      invariant |visible| == |nodes|
      invariant forall f :: 0 <= f < |nodes| ==>
                visible[f] == (f == 0 || exists h :: 0 <= h < g && f in nodes[h].children)
    {
      var children := nodes[g].children;
      for i := 0 to |children|
        invariant |visible| == |nodes|
        invariant forall f :: 0 <= f < |nodes| ==>
          visible[f] == (f == 0 || (exists h :: 0 <= h < g && f in nodes[h].children) || f in children[..i])
      {
        if children[i] < |visible| {
          visible := visible[children[i] := true];
        }
      }
      assert children[..|children|] == children;
    }
  }

  method BuildDebankTraces(hash: string -> string, txId: string, nodes: seq<CallNode>, captured: Captured,
          logIndex: nat)
    returns (r: Result<(Lists, nat), BuildError>)
    requires Acyclic(captured)
    ensures !ValidCapture(captured, |nodes|) ==> r.Err? && r.error.InvalidCapture?
    ensures ValidCapture(captured, |nodes|) ==>
              r ==
              if nodes == [] then Ok((NO_LISTS, logIndex))
              else BuildLists(ContextOf(hash, txId, nodes, captured), logIndex)
  {
    var checked := Validate(captured, |nodes|);
    if checked.Err? {
      return Err(InvalidCapture(checked.error));
    }
    if nodes == [] {
      return Ok((NO_LISTS, logIndex));
    }
    var visible := MarkVisible(nodes);
    var built := BuildTraceNode(Context(hash, txId, nodes, captured, visible), "", 0, 0, true, [], logIndex);
    if built.Err? {
      return Err(built.error);
    }
    var lists := FinishBuildTraces(built.value.0, NO_LISTS);
    return Ok((lists, built.value.1));
  }
}
