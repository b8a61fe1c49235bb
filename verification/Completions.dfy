/** Restoring logical child results in the tracing inspector's nodes. */
module Completions {
  import opened Basics
  import opened Capture
  import opened Shape
  import opened TraceBuilder

  /** The status a completed subcall stands for: the first failing one of child and completion. */
  function LogicalStatus(done: Completion): Status {
    if !done.childStatus.IsOk() then done.childStatus
    else if !done.finalStatus.IsOk() then done.finalStatus
    else done.childStatus
  }

  function Restored(node: CallNode, frame: Frame): CallNode {
    match frame.SubcallCompletion()
    case None => node
    case Some(done) =>
      node.(output := done.childOutput, gasUsed := done.childGasUsed, gasLimit := done.childGasLimit,
            success := LogicalStatus(done).IsOk(), status := Some(LogicalStatus(done)))
  }

  /**
   With a completion the node takes over the child's output and gas, its status is the child's if
   that failed, else the completion's if that failed, else the child's, and it succeeds exactly when
   both did; everything else stays, and without a completion all of it.
   */
  predicate TakenOver(before: CallNode, after: CallNode, frame: Frame) {
    match frame.SubcallCompletion()
    case None => after == before
    case Some(done) =>
      && after.output == done.childOutput && after.gasUsed == done.childGasUsed && after.gasLimit == done.childGasLimit
      && (!done.childStatus.IsOk() ==> after.status == Some(done.childStatus))
      && (done.childStatus.IsOk() && !done.finalStatus.IsOk() ==> after.status == Some(done.finalStatus))
      && (done.childStatus.IsOk() && done.finalStatus.IsOk() ==> after.status == Some(done.childStatus))
      && (after.success <==> done.childStatus.IsOk() && done.finalStatus.IsOk())
      && after.idx == before.idx && after.children == before.children && after.kind == before.kind
      && after.caller == before.caller && after.address == before.address && after.value == before.value
      && after.data == before.data && after.steps == before.steps && after.selfdestruct == before.selfdestruct
  }

  lemma {:induction false} RestoredTakesOver(node: CallNode, frame: Frame)
    ensures TakenOver(node, Restored(node, frame), frame)
  {
    hide FirstCompletion;
  }

  datatype ApplyError = Invalid(reason: ValidationError) | Disagreement(frame: nat)

  /** The node's index and success flag are those of frame `f`. */
  predicate AgreesAt(nodes: seq<CallNode>, captured: Captured, f: nat)
    requires f < |nodes| && f < |captured.frames|
  {
    nodes[f].idx == f && nodes[f].success == captured.frames[f].success
  }

  ghost predicate Agrees(nodes: seq<CallNode>, captured: Captured) {
    forall f :: 0 <= f < |nodes| && f < |captured.frames| ==> AgreesAt(nodes, captured, f)
  }

  /**
   Rewrites the nodes in place. An invalid capture leaves them alone; a node that disagrees with
   its frame stops the pass, after the nodes before it have been rewritten.
   */
  method ApplySubcallCompletions(nodes: array<CallNode>, captured: Captured) returns (r: Result<(), ApplyError>)
    modifies nodes
    ensures r.Ok? <==> ValidCapture(captured, nodes.Length) && Agrees(old(nodes[..]), captured)
    ensures r.Err? && r.error.Invalid? ==> !ValidCapture(captured, nodes.Length) && nodes[..] == old(nodes[..])
    ensures r.Err? && r.error.Disagreement? ==>
              && r.error.frame < nodes.Length == |captured.frames|
              && !AgreesAt(old(nodes[..]), captured, r.error.frame)
              && forall f :: 0 <= f < r.error.frame ==> AgreesAt(old(nodes[..]), captured, f)
    ensures r.Ok? || r.error.Disagreement? ==>
              var done := if r.Ok? then nodes.Length else r.error.frame;
              && done <= nodes.Length == |captured.frames|
              && (forall f :: 0 <= f < done ==> nodes[f] == Restored(old(nodes[f]), captured.frames[f]))
              && (forall f :: 0 <= f < done ==> TakenOver(old(nodes[f]), nodes[f], captured.frames[f]))
              && (forall f :: done <= f < nodes.Length ==> nodes[f] == old(nodes[f]))
  {
    hide TakenOver, FirstCompletion;
    var checked := Validate(captured, nodes.Length);
    if checked.Err? {
      return Err(Invalid(checked.error));
    }
    for f := 0 to nodes.Length
      invariant forall g :: 0 <= g < f ==> AgreesAt(old(nodes[..]), captured, g)
      invariant forall g :: 0 <= g < f ==> nodes[g] == Restored(old(nodes[g]), captured.frames[g])
      invariant forall g :: 0 <= g < f ==> TakenOver(old(nodes[g]), nodes[g], captured.frames[g])
      invariant forall g :: f <= g < nodes.Length ==> nodes[g] == old(nodes[g])
    {
      RestoredTakesOver(nodes[f], captured.frames[f]);
      var node, frame := nodes[f], captured.frames[f];
      if node.idx != f || node.success != frame.success {
        assert !AgreesAt(old(nodes[..]), captured, f);
        return Err(Disagreement(f));
      }
      var completion := frame.SubcallCompletion();
      if completion.Some? {
        var done := completion.value;
        var status;
        if !done.childStatus.IsOk() {
          status := done.childStatus;
        } else if !done.finalStatus.IsOk() {
          status := done.finalStatus;
        } else {
          status := done.childStatus;
        }
        node := node.(output := done.childOutput);
        node := node.(gasUsed := done.childGasUsed);
        node := node.(gasLimit := done.childGasLimit);
        node := node.(success := status.IsOk());
        node := node.(status := Some(status));
        nodes[f] := node;
      }
    }
    return Ok(());
  }

  /** A restored node succeeds exactly when its frame does effectively, in both completion phases. */
  lemma {:induction false} RestoredVerdict(node: CallNode, frame: Frame)
    requires ConsistentFrame(frame) && node.success == frame.success
    ensures Restored(node, frame).success == frame.EffectiveSuccess()
    ensures frame.SubcallCompletion().Some? ==>
              Restored(node, frame).status.Some? &&
                Restored(node, frame).status.value.IsOk() == frame.EffectiveSuccess()
  {
    FirstOfCompletions(frame.members);
  }
}
