/**
 One transaction as the inspector sees it. `Evm` is the part of the machine that matters
 to logs: the journal's log list, the open frames with their journal checkpoints, and how
 many of the journal's logs the inspector has been handed. A run is a sequence of steps,
 each of which changes the machine and makes the callbacks that go with it.
 */
module Execution {
  import opened Basics
  import opened Capture
  import opened Callbacks

  /** `completion` is the final verdict of the frame's own subcall completion, once made. */
  datatype OpenFrame = OpenFrame(checkpoint: nat, completion: Option<bool>)

  /** The frame whose end callback was the last step. */
  datatype EndedFrame = EndedFrame(checkpoint: nat, success: bool, completed: bool)

  datatype Evm = Evm(
    journal: seq<Log>,
    seen: nat,
    delivering: bool,
    open: seq<OpenFrame>,
    ended: Option<EndedFrame>,
    started: bool,
    result: Option<bool>)

  datatype World = World(evm: Evm, inspector: State)

  const INITIAL: World := World(Evm([], 0, false, [], None, false, None), FRESH)

  /** What a subcall precompile reports about the child it ran. */
  datatype Report = Report(
    childStatus: Status,
    childOutput: seq<nat>,
    childGasUsed: nat,
    childGasLimit: nat,
    finalStatus: Status)
  {
    predicate RollsBack() {
      childStatus.IsOk() && !finalStatus.IsOk()
    }

    function Completion(phase: Phase, logCount: nat): Completion {
      Capture.Completion(childStatus, childOutput, childGasUsed, childGasLimit, finalStatus, RollsBack(), logCount,
                         phase)
    }
  }

  datatype Step =
    | Start                          // call or create callback
    | Append(log: Log)               // a log written to the journal without a callback
    | Poll                           // initialize_interp or step_end callback
    | Deliver                        // log callback for the next journal log not yet handed over
    | CompleteEarly(report: Report)  // subcall completion before the frame's end callback
    | End(success: bool)             // call_end or create_end callback
    | CompleteLate(report: Report)   // subcall completion right after the frame's end callback

  predicate Enabled(e: Evm, step: Step) {
    match step
    case Start => !e.delivering && if e.open == [] then !e.started else e.open[|e.open| - 1].completion.None?
    case Append(_) => !e.delivering && e.open != [] && e.open[|e.open| - 1].completion.None?
    case Poll => !e.delivering && e.open != []
    case Deliver => e.open != [] && e.seen < |e.journal|
    case CompleteEarly(_) => !e.delivering && e.open != [] && e.open[|e.open| - 1].completion.None?
    case End(success) =>
      && !e.delivering && e.open != []
      && (e.open[|e.open| - 1].completion.Some? ==> success == e.open[|e.open| - 1].completion.value)
    case CompleteLate(report) =>
      && e.ended.Some? && !e.ended.value.completed
      && report.childStatus.IsOk() == e.ended.value.success
  }

  /** A revert drops the logs written since the checkpoint. */
  function Truncate(journal: seq<Log>, checkpoint: nat): seq<Log> {
    journal[..Min(checkpoint, |journal|)]
  }

  function Next(w: World, step: Step): World
    requires Enabled(w.evm, step)
  {
    var e, s := w.evm.(ended := None), w.inspector;
    match step
    case Start =>
      World(e.(open := e.open + [OpenFrame(|e.journal|, None)], seen := |e.journal|, started := true),
            FrameStart(s, e.journal))
    case Append(log) =>
      World(e.(journal := e.journal + [log]), s)
    case Poll =>
      World(e.(seen := |e.journal|), SyncJournal(s, e.journal))
    case Deliver =>
      World(e.(seen := e.seen + 1, delivering := e.seen + 1 < |e.journal|),
            CaptureCallbackLog(s, e.journal, e.journal[e.seen]))
    case CompleteEarly(report) =>
      var top := e.open[|e.open| - 1];
      var kept := report.childStatus.IsOk() && report.finalStatus.IsOk();
      var journal := if kept then e.journal else Truncate(e.journal, top.checkpoint);
      var seen := Min(e.seen, |journal|);
      World(e.(journal := journal, seen := seen, delivering := seen < |journal|,
               open := e.open[|e.open| - 1 := top.(completion := Some(report.finalStatus.IsOk()))]),
            RecordCompletion(s, report.Completion(BeforeFrameEnd, |journal|)))
    case End(success) =>
      var top := e.open[|e.open| - 1];
      var journal := if success then e.journal else Truncate(e.journal, top.checkpoint);
      World(e.(journal := journal, seen := |journal|, open := e.open[..|e.open| - 1], result := Some(success),
               ended := Some(EndedFrame(top.checkpoint, success, top.completion.Some?))),
            FrameEnd(s, journal, success))
    case CompleteLate(report) =>
      var journal := if report.RollsBack() then Truncate(e.journal, w.evm.ended.value.checkpoint) else e.journal;
      World(e.(journal := journal, seen := |journal|, result := Some(report.finalStatus.IsOk())),
            RecordCompletion(s, report.Completion(AfterFrameEnd, |journal|)))
  }

  predicate Legal(w: World, steps: seq<Step>)
    decreases |steps|, 0
  {
    steps == [] ||
    (Legal(w, steps[..|steps| - 1]) && Enabled(Run(w, steps[..|steps| - 1]).evm, steps[|steps| - 1]))
  }

  function Run(w: World, steps: seq<Step>): World
    requires Legal(w, steps)
    decreases |steps|, 1
  {
    if steps == [] then w
    else Next(Run(w, steps[..|steps| - 1]), steps[|steps| - 1])
  }

  /** The transaction is over: its root frame has been entered and left. */
  predicate Complete(e: Evm) {
    e.started && e.open == []
  }
}
