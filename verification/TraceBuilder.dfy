/**
 Building the trace tree of one transaction from the tracing inspector's nodes and the
 captured events, and flattening it into success and error lists.
 */
module TraceBuilder {
  import opened Basics
  import opened Capture
  import opened Text

  const SSTORE := 0x55
  const PARENT_CALL_FAILED := "parent call failed"

  datatype CallKind = PlainCall | StaticCall | CallCode | DelegateCall | AuthCall | Create | Create2

  /** One node of the tracing inspector's arena, with the fields the builder reads. */
  datatype CallNode = CallNode(
    idx: nat,
    children: seq<nat>,
    success: bool,
    status: Option<Status>,
    kind: CallKind,
    caller: nat,
    address: nat,
    value: nat,
    data: seq<nat>,
    output: seq<nat>,
    gasUsed: nat,
    gasLimit: nat,
    steps: seq<nat>,
    selfdestruct: Option<Selfdestruct>)

  datatype Selfdestruct = Selfdestruct(address: nat, refundTarget: nat, value: nat)

  datatype Trace = Trace(
    id: string,
    fromAddr: nat,
    gasLimit: nat,
    input: seq<nat>,
    toAddr: nat,
    value: nat,
    gasUsed: nat,
    output: seq<nat>,
    callCreateType: string,
    callType: string,
    txId: string,
    parentTraceId: string,
    posInParent: nat,
    selfStorageChange: bool,
    storageChange: bool,
    subtraces: nat,
    traceAddress: seq<nat>,
    error: string)

  datatype TraceEvent = TraceEvent(
    id: string,
    contractId: nat,
    selector: Option<nat>,
    topics: seq<nat>,
    data: seq<nat>,
    parentTraceId: string,
    posInParent: nat,
    idx: nat)

  datatype Child = SubTrace(node: Node) | SubLog(event: TraceEvent, success: bool)

  datatype Node = Node(
    trace: Trace,
    children: seq<Child>,
    frameSuccess: bool,
    effectiveFrameSuccess: bool,
    success: bool)

  // ----- single records -----

  /** The text a status is reported with. */
  predicate Describes(status: Status, msg: string) {
    && (status.IsOk() ==> msg == "")
    && (status == Revert ==> msg == "Reverted")
    && (status in {OutOfGas, PrecompileOOG, MemoryOOG, MemoryLimitOOG, InvalidOperandOOG, ReentrancySentryOOG} ==>
          msg == "Out of gas")
    && (status == OutOfFunds ==> msg == "Insufficient balance for transfer")
    && (status in {OpcodeNotFound, InvalidFEOpcode} ==> msg == "Bad instruction")
    && (status == StackOverflow ==> msg == "Out of stack")
    && (status == InvalidJump ==> msg == "Bad jump destination")
    && (status == PrecompileError ==> msg == "Built-in failed")
    && (status.OtherFailure? ==> msg == status.name)
  }

  /** Error text of a status; empty for a successful one. */
  function ErrorMessage(status: Status): (msg: string)
    ensures msg == "" <==> status.IsOk()
  {
    match status
    case Stop | Return | SelfDestruct => ""
    case Revert => "Reverted"
    case OutOfGas | PrecompileOOG | MemoryOOG | MemoryLimitOOG | InvalidOperandOOG | ReentrancySentryOOG => "Out of gas"
    case OutOfFunds => "Insufficient balance for transfer"
    case OpcodeNotFound | InvalidFEOpcode => "Bad instruction"
    case StackOverflow => "Out of stack"
    case InvalidJump => "Bad jump destination"
    case PrecompileError => "Built-in failed"
    case OtherFailure(name) => name
  }

  lemma {:induction false} MessageDescribes(status: Status)
    ensures Describes(status, ErrorMessage(status))
  {
  }

  function CallTypes(kind: CallKind): (string, string) {
    match kind
    case PlainCall => ("call", "call")
    case StaticCall => ("call", "staticcall")
    case CallCode => ("call", "callcode")
    case DelegateCall => ("call", "delegatecall")
    case AuthCall => ("call", "authcall")
    case Create | Create2 => ("create", "")
  }

  /** The two type texts of each kind of call. */
  predicate Typed(kind: CallKind, createType: string, callType: string) {
    && (kind == Create || kind == Create2 ==> createType == "create" && callType == "")
    && (kind != Create && kind != Create2 ==> createType == "call")
    && (kind == PlainCall ==> callType == "call")
    && (kind == StaticCall ==> callType == "staticcall")
    && (kind == CallCode ==> callType == "callcode")
    && (kind == DelegateCall ==> callType == "delegatecall")
    && (kind == AuthCall ==> callType == "authcall")
  }

  lemma {:induction false} CallsTyped(kind: CallKind)
    ensures Typed(kind, CallTypes(kind).0, CallTypes(kind).1)
  {
  }

  /** The event carries the log: the first topic apart from the others, if there is one. */
  predicate Carries(event: TraceEvent, log: Log) {
    && event.contractId == log.address && event.data == log.data
    && (log.topics == [] ==> event.selector == None && event.topics == [])
    && (log.topics != [] ==> event.selector == Some(log.topics[0]) && event.topics == log.topics[1..])
  }

  function EventOf(log: Log): TraceEvent {
    TraceEvent("", log.address,
               if log.topics == [] then None else Some(log.topics[0]),
               if |log.topics| > 1 then log.topics[1..] else [],
               log.data, "", 0, 0)
  }

  /** The log an event was made from. */
  function LogOf(event: TraceEvent): Log {
    Log(event.contractId, if event.selector.None? then [] else [event.selector.value] + event.topics, event.data)
  }

  lemma {:induction false} EventKeepsLog(log: Log)
    ensures LogOf(EventOf(log)) == log && Carries(EventOf(log), log)
  {
    if log.topics != [] {
      assert log.topics == [log.topics[0]] + log.topics[1..];
    }
  }

  /** Everything the builder reads and never changes. */
  datatype Context = Context(
    hash: string -> string,
    txId: string,
    nodes: seq<CallNode>,
    captured: Captured,
    visible: seq<bool>)

  predicate IsVisible(c: Context, f: nat) {
    f < |c.visible| && c.visible[f]
  }

  function TraceId(c: Context, parentId: string, pos: nat): string {
    c.hash(c.txId + parentId + Decimal(pos))
  }

  function EventId(c: Context, parentId: string, pos: nat): string {
    c.hash(parentId + Decimal(pos))
  }

  /** Error text of frame `f`'s trace, from its own status, its completion and its surroundings. */
  function FrameError(node: CallNode, frame: Frame, parentSuccess: bool): string {
    var own :=
      if frame.RawFailureStatus().Some? then ErrorMessage(frame.RawFailureStatus().value)
      else if frame.CompletionRolledBack() then PARENT_CALL_FAILED
      else if node.status.Some? then ErrorMessage(node.status.value)
      else "";
    if (!parentSuccess || !frame.EffectiveSuccess()) && own == "" then PARENT_CALL_FAILED else own
  }

  /**
   What an error text says: a failed child is reported by its own status; a rolled back completion
   as a failed parent; any other frame by its own failing status, and without one as a failed parent
   exactly when the frame or something above it did not succeed.
   */
  predicate ErrorTells(node: CallNode, frame: Frame, above: bool, error: string) {
    var completion := frame.SubcallCompletion();
    if completion.Some? && !completion.value.childStatus.IsOk() then Describes(completion.value.childStatus, error)
    else if completion.Some? && completion.value.rolledBack then error == "parent call failed"
    else if node.status.Some? && !node.status.value.IsOk() then Describes(node.status.value, error)
    else error == if above && frame.EffectiveSuccess() then "" else "parent call failed"
  }

  lemma {:induction false} FrameErrorTells(node: CallNode, frame: Frame, above: bool)
    ensures ErrorTells(node, frame, above, FrameError(node, frame, above))
  {
    hide FirstCompletion, Describes, ErrorMessage;
    var completion := frame.SubcallCompletion();
    if completion.Some? {
      MessageDescribes(completion.value.childStatus);
    }
    if node.status.Some? {
      MessageDescribes(node.status.value);
    }
  }

  /** Frame `f`'s trace before its members are appended. */
  function HeadTrace(c: Context, parentId: string, pos: nat, f: nat, parentSuccess: bool, address: seq<nat>): Trace
    requires f < |c.nodes| && f < |c.captured.frames|
  {
    var node, frame := c.nodes[f], c.captured.frames[f];
    var completion := frame.SubcallCompletion();
    var stores := SSTORE in node.steps;
    Trace(TraceId(c, parentId, pos),
          node.caller,
          if completion.Some? then completion.value.childGasLimit else node.gasLimit,
          node.data,
          node.address,
          node.value,
          if completion.Some? then completion.value.childGasUsed else node.gasUsed,
          if completion.Some? then completion.value.childOutput else node.output,
          CallTypes(node.kind).0, CallTypes(node.kind).1,
          c.txId, parentId, pos, stores, stores, |node.children|, address,
          FrameError(node, frame, parentSuccess))
  }

  /** The extra trace of a self-destructing frame whose own trace is `parent`. */
  function SelfdestructNode(c: Context, f: nat, parent: Node, nextTrace: nat): Node
    requires f < |c.nodes| && c.nodes[f].selfdestruct.Some?
  {
    var sd := c.nodes[f].selfdestruct.value;
    var pos := |parent.children|;
    var error := if parent.frameSuccess && !parent.success then PARENT_CALL_FAILED else "";
    Node(Trace(TraceId(c, parent.trace.id, pos), sd.address, 0, [], sd.refundTarget, sd.value, 0, [], "suicide", "",
               c.txId, parent.trace.id, pos, false, false, 0, parent.trace.traceAddress + [nextTrace], error),
         [], parent.frameSuccess, parent.effectiveFrameSuccess, parent.success)
  }

  // ----- the tree -----

  datatype BuildError =
    | InvalidCapture(reason: ValidationError)
    | MissingNode(frame: nat)
    | MissingFrame(frame: nat)
    | SuccessMismatch(frame: nat)
    | MissingEvent(event: nat)
    | WrongFrame(event: nat, owner: nat, expected: nat)

  /** What appending members changes: the node's children and storage flag, and the two counters. */
  datatype Acc = Acc(children: seq<Child>, storageChange: bool, nextTrace: nat, logIndex: nat)

  function CountTraces(children: seq<Child>): nat {
    if children == [] then 0
    else CountTraces(children[..|children| - 1]) + if children[|children| - 1].SubTrace? then 1 else 0
  }

  /** Every call leads to a frame of lower rank. */
  ghost predicate Ranks(captured: Captured, rank: nat -> nat) {
    forall f, i :: 0 <= f < |captured.frames| && 0 <= i < |captured.frames[f].members| ==>
      (captured.frames[f].members[i].Call? ==> rank(captured.frames[f].members[i].frame) < rank(f))
  }

  /** No frame calls itself, directly or through others, which is what makes the recursion end. */
  ghost predicate Acyclic(captured: Captured) {
    exists rank :: Ranks(captured, rank)
  }

  ghost function RankOf(captured: Captured): (rank: nat -> nat)
    requires Acyclic(captured)
    ensures Ranks(captured, rank)
  {
    var rank :| Ranks(captured, rank);
    rank
  }

  ghost function Rank(c: Context, f: nat): nat
    requires Acyclic(c.captured)
  {
    RankOf(c.captured)(f)
  }

  function BuildNode(c: Context, parentId: string, pos: nat, f: nat, parentSuccess: bool, address: seq<nat>,
          logIndex: nat): Result<(Node, nat), BuildError>
    requires Acyclic(c.captured)
    decreases Rank(c, f), 1, 0
  {
    if f >= |c.nodes| then Err(MissingNode(f))
    else if f >= |c.captured.frames| then Err(MissingFrame(f))
    else if c.nodes[f].success != c.captured.frames[f].success then Err(SuccessMismatch(f))
    else
      var head := HeadTrace(c, parentId, pos, f, parentSuccess, address);
      match AppendMembers(c, Acc([], head.storageChange, 0, logIndex), f, |c.captured.frames[f].members|, head.id,
                          parentSuccess, address)
      case Err(e) => Err(e)
      case Ok(acc) => Ok((CloseNode(c, f, head, parentSuccess, acc), acc.logIndex))
  }

  function CloseNode(c: Context, f: nat, head: Trace, parentSuccess: bool, acc: Acc): Node
    requires f < |c.nodes| && f < |c.captured.frames|
  {
    var frame := c.captured.frames[f];
    var plain := Node(head.(storageChange := acc.storageChange, subtraces := CountTraces(acc.children)), acc.children,
                      frame.RawSuccess(), frame.EffectiveSuccess(), frame.EffectiveSuccess() && parentSuccess);
    if c.nodes[f].selfdestruct.None? then plain
    else
      plain.(trace := plain.trace.(subtraces := plain.trace.subtraces + 1),
             children := plain.children + [SubTrace(SelfdestructNode(c, f, plain, acc.nextTrace))])
  }

  /** The first `n` members of frame `f`, appended to the node that shows them. */
  function AppendMembers(c: Context, acc: Acc, f: nat, n: nat, parentId: string, parentSuccess: bool,
          address: seq<nat>): Result<Acc, BuildError>
    requires Acyclic(c.captured) && f < |c.captured.frames| && n <= |c.captured.frames[f].members|
    decreases Rank(c, f), 0, n
  {
    if n == 0 then Ok(acc)
    else
      match AppendMembers(c, acc, f, n - 1, parentId, parentSuccess, address)
      case Err(e) => Err(e)
      case Ok(acc) => AppendMember(c, acc, f, n - 1, parentId, parentSuccess, address)
  }

  function AppendMember(c: Context, acc: Acc, f: nat, i: nat, parentId: string, parentSuccess: bool,
          address: seq<nat>): Result<Acc, BuildError>
    requires Acyclic(c.captured) && f < |c.captured.frames| && i < |c.captured.frames[f].members|
    decreases Rank(c, f), 0, i
  {
    var frameSuccess := parentSuccess && c.captured.frames[f].EffectiveSuccess();
    match c.captured.frames[f].members[i]
    case Call(child) =>
      if IsVisible(c, child) then
        match BuildNode(c, parentId, |acc.children|, child, frameSuccess, address + [acc.nextTrace], acc.logIndex)
        case Err(e) => Err(e)
        case Ok((node, logIndex)) => Ok(WithTrace(acc, node, logIndex))
      else if child >= |c.captured.frames| then Err(MissingFrame(child))
      else AppendMembers(c, acc, child, |c.captured.frames[child].members|, parentId, frameSuccess, address)
    case Event(e) =>
      if e >= |c.captured.events| then Err(MissingEvent(e))
      else if c.captured.events[e].frame != f then Err(WrongFrame(e, c.captured.events[e].frame, f))
      else Ok(WithEvent(c, acc, c.captured.events[e].log, parentId, frameSuccess))
    case SubcallCompletion(_) => Ok(acc)
  }

  function WithTrace(acc: Acc, node: Node, logIndex: nat): Acc {
    Acc(acc.children + [SubTrace(node)],
        acc.storageChange || (node.trace.storageChange && node.effectiveFrameSuccess),
        acc.nextTrace + 1,
        logIndex)
  }

  function WithEvent(c: Context, acc: Acc, log: Log, parentId: string, success: bool): Acc {
    var pos := |acc.children|;
    var event := EventOf(log).(id := EventId(c, parentId, pos), parentTraceId := parentId, posInParent := pos,
                               idx := if success then acc.logIndex else 0);
    acc.(children := acc.children + [SubLog(event, success)],
         logIndex := if success then acc.logIndex + 1 else acc.logIndex)
  }

  // ----- the lists -----

  datatype Item = TraceItem(trace: Trace, success: bool) | EventItem(event: TraceEvent, success: bool)

  /** The node and everything below it, in the order the lists are filled. */
  function Items(node: Node): seq<Item> {
    [TraceItem(node.trace, node.success)] + ChildItems(node.children, node.trace.id)
  }

  /** Flattening makes every sub-trace name the node it hangs from. */
  function ChildItems(children: seq<Child>, parentId: string): seq<Item>
    decreases children, 0
  {
    if children == [] then []
    else ChildItems(children[..|children| - 1], parentId) + ItemsOfChild(children[|children| - 1], parentId)
  }

  function ItemsOfChild(child: Child, parentId: string): seq<Item>
    decreases child, 0
  {
    match child
    case SubTrace(node) =>
      [TraceItem(node.trace.(parentTraceId := parentId), node.success)] + ChildItems(node.children, node.trace.id)
    case SubLog(event, success) => [EventItem(event, success)]
  }

  lemma {:induction false} ChildItemsAppend(children: seq<Child>, child: Child, parentId: string)
    ensures ChildItems(children + [child], parentId) == ChildItems(children, parentId) + ItemsOfChild(child, parentId)
  {
    assert (children + [child])[..|children|] == children;
  }

  /** A closed node's entries: its own, its members', and the self-destruct's if there is one. */
  lemma {:induction false} ClosedItems(c: Context, f: nat, head: Trace, above: bool, acc: Acc, under: string)
    requires f < |c.captured.frames| && f < |c.nodes|
    ensures var node := CloseNode(c, f, head, above, acc);
            var first := TraceItem(node.trace.(parentTraceId := under), node.success);
            var items := ChildItems(acc.children, head.id);
            if c.nodes[f].selfdestruct.None? then
              ItemsOfChild(SubTrace(node), under) == [first] + items
            else
              && |node.children| == |acc.children| + 1 && node.children[|acc.children|].SubTrace?
              && var last := node.children[|acc.children|].node;
                 ItemsOfChild(SubTrace(node), under) ==
                   [first] + items + [TraceItem(last.trace.(parentTraceId := head.id), last.success)]
  {
    hide CountTraces, SelfdestructNode;
    var node := CloseNode(c, f, head, above, acc);
    if c.nodes[f].selfdestruct.Some? {
      var last := node.children[|acc.children|];
      SelfdestructLeaf(c, f, head, above, acc);
      ChildItemsAppend(acc.children, last, head.id);
      assert ChildItems([], last.node.trace.id) == [];
    }
  }

  lemma {:induction false} SelfdestructLeaf(c: Context, f: nat, head: Trace, above: bool, acc: Acc)
    requires f < |c.captured.frames| && f < |c.nodes| && c.nodes[f].selfdestruct.Some?
    ensures var node := CloseNode(c, f, head, above, acc);
            && |node.children| == |acc.children| + 1
            && node.children[|acc.children|].SubTrace? && node.children[|acc.children|].node.children == []
  {
  }

  datatype Lists = Lists(
    traces: seq<Trace>,
    errorTraces: seq<Trace>,
    events: seq<TraceEvent>,
    errorEvents: seq<TraceEvent>)

  const NO_LISTS := Lists([], [], [], [])

  function AddItem(lists: Lists, item: Item): Lists {
    match item
    case TraceItem(t, success) =>
      if success then lists.(traces := lists.traces + [t]) else lists.(errorTraces := lists.errorTraces + [t])
    case EventItem(e, success) =>
      if success then lists.(events := lists.events + [e]) else lists.(errorEvents := lists.errorEvents + [e])
  }

  function AddItems(lists: Lists, items: seq<Item>): Lists {
    if items == [] then lists
    else AddItem(AddItems(lists, items[..|items| - 1]), items[|items| - 1])
  }

  lemma {:induction false} AddItemsConcat(lists: Lists, a: seq<Item>, b: seq<Item>)
    ensures AddItems(lists, a + b) == AddItems(AddItems(lists, a), b)
    decreases |b|
  {
    if b == [] {
      assert a + b == a;
    } else {
      assert (a + b)[..|a + b| - 1] == a + b[..|b| - 1];
      AddItemsConcat(lists, a, b[..|b| - 1]);
    }
  }

  // ----- one transaction -----

  /** A frame is visible when it is the root or some node lists it as a child. */
  predicate VisibleNode(nodes: seq<CallNode>, f: nat) {
    f == 0 || exists g :: 0 <= g < |nodes| && f in nodes[g].children
  }

  function VisibleFlags(nodes: seq<CallNode>): seq<bool> {
    seq(|nodes|, f requires 0 <= f < |nodes| => VisibleNode(nodes, f))
  }

  function ContextOf(hash: string -> string, txId: string, nodes: seq<CallNode>, captured: Captured): Context {
    Context(hash, txId, nodes, captured, VisibleFlags(nodes))
  }

  /** The four lists of a transaction and the log index after it. */
  function BuildLists(c: Context, logIndex: nat): Result<(Lists, nat), BuildError>
    requires Acyclic(c.captured)
  {
    match BuildNode(c, "", 0, 0, true, [], logIndex)
    case Err(e) => Err(e)
    case Ok((top, next)) => Ok((AddItems(NO_LISTS, Items(top)), next))
  }
}
