/** What a complete run guarantees to the code that consumes the capture. */
module RunTheorems {
  import opened Basics
  import opened Capture
  import opened Callbacks
  import opened Traversal
  import opened Shape
  import opened Execution
  import opened Books
  import opened Runs

  /** At every point of every run the capture is one ordered tree. */
  lemma {:induction false} RunWellFormed(steps: seq<Step>)
    requires Legal(INITIAL, steps)
    ensures var s := Run(INITIAL, steps).inspector;
            s.valid && WellFormed(s.frames, s.events)
  {
    RunBalanced(steps);
  }

  /**
   The logs the inspector reports as successful are the journal's final logs, in order and
   with duplicates kept, however frames revert, completions roll back and logs are delivered.
   */
  lemma {:induction false} CompleteRunLogs(steps: seq<Step>)
    requires Legal(INITIAL, steps) && Complete(Run(INITIAL, steps).evm)
    ensures var w := Run(INITIAL, steps); var captured := IntoCaptured(w.inspector);
            SurvivingLogs(captured.frames, captured.events) == w.evm.journal
  {
    RunBalanced(steps);
    var w := Run(INITIAL, steps);
    hide LogsBefore, SurvivingLogs, WellFormed, OpenFramesAgree, EndedAgrees, Run, Legal;
    var frames := w.inspector.frames;
    assert Optimistic(frames, []) == frames;
    LogsBeforeAll(frames, w.inspector.events);
  }

  /** A complete run's capture passes the builder's validation. */
  lemma {:induction false} CompleteRunValid(steps: seq<Step>)
    requires Legal(INITIAL, steps) && Complete(Run(INITIAL, steps).evm)
    ensures var captured := IntoCaptured(Run(INITIAL, steps).inspector);
            captured.frames != [] && ValidCapture(captured, |captured.frames|)
  {
    RunBalanced(steps);
    hide LogsBefore, WellFormed, OpenFramesAgree, EndedAgrees, Run, Legal, ConsistentFrame;
  }

  /** The root ran as a subcall whose child failed while the precompile reported success. */
  predicate MaskedRootFailure(root: Frame) {
    match root.SubcallCompletion()
    case Some(c) => !c.childStatus.IsOk() && c.finalStatus.IsOk()
    case None => false
  }

  /**
   The status the transaction ends with is the root frame's effective verdict, except when
   the root's completion turned a failed child into a successful result.
   */
  lemma {:induction false} CompleteRunResult(steps: seq<Step>)
    requires Legal(INITIAL, steps) && Complete(Run(INITIAL, steps).evm)
    ensures var w := Run(INITIAL, steps);
            && w.inspector.frames != []
            && w.evm.result.Some?
            && (w.evm.result.value == w.inspector.frames[0].EffectiveSuccess() <==>
                !MaskedRootFailure(w.inspector.frames[0]))
  {
    RunBalanced(steps);
    var w := Run(INITIAL, steps);
    hide LogsBefore, WellFormed, OpenFramesAgree, EndedAgrees, Run, Legal, FirstCompletion, Completions;
    assert ConsistentFrame(w.inspector.frames[0]);
    FirstOfCompletions(w.inspector.frames[0].members);
  }

  /** A step appended to a run is a step taken from where the run ended. */
  lemma {:induction false} RunExtended(steps: seq<Step>, step: Step)
    requires Legal(INITIAL, steps) && Enabled(Run(INITIAL, steps).evm, step)
    ensures Legal(INITIAL, steps + [step]) && Run(INITIAL, steps + [step]) == Next(Run(INITIAL, steps), step)
  {
    assert (steps + [step])[..|steps|] == steps;
  }

  /**
   The environment allows such a run: the root frame is a subcall whose child reverts and whose
   completion then reports success. It takes a registry that lets a transaction's sender call a
   subcall precompile directly.
   */
  lemma {:induction false} MaskedRun() returns (steps: seq<Step>)
    ensures Legal(INITIAL, steps) && Complete(Run(INITIAL, steps).evm)
    ensures var w := Run(INITIAL, steps);
            w.inspector.frames != [] && MaskedRootFailure(w.inspector.frames[0]) && w.evm.result == Some(true)
  {
    hide Run, Legal, Next;
    var report := Report(Revert, [], 0, 0, Return);
    NoSteps();
    RunExtended([], Start);
    MaskedRunSteps(report);
    RunExtended([] + [Start], CompleteEarly(report));
    RunExtended([] + [Start] + [CompleteEarly(report)], End(true));
    steps := [] + [Start] + [CompleteEarly(report)] + [End(true)];
  }

  lemma {:induction false} NoSteps()
    ensures Legal(INITIAL, []) && Run(INITIAL, []) == INITIAL && Enabled(INITIAL.evm, Start)
  {
  }

  lemma {:induction false} MaskedRunSteps(report: Report)
    requires report == Report(Revert, [], 0, 0, Return)
    ensures Enabled(INITIAL.evm, Start)
    ensures var w := Next(INITIAL, Start);
            && Enabled(w.evm, CompleteEarly(report))
            && var w' := Next(w, CompleteEarly(report));
               && Enabled(w'.evm, End(true))
               && var w'' := Next(w', End(true));
                  && Complete(w''.evm) && w''.evm.result == Some(true)
                  && w''.inspector.frames != [] && MaskedRootFailure(w''.inspector.frames[0])
  {
    hide Next, MaskedRootFailure;
    RootStarts();
    RootCompletes(report);
    RootEnds(report);
    CompletedRoot(report);
  }

  const ROOT_OPEN := World(Evm([], 0, false, [OpenFrame(0, None)], None, true, None),
                          State([Frame(None, [], false)], [], true, [0], 0, None))

  function RootCompleted(report: Report): World {
    World(Evm([], 0, false, [OpenFrame(0, Some(true))], None, true, None),
          State([Frame(None, [SubcallCompletion(report.Completion(BeforeFrameEnd, 0))], false)],
                [], true, [0], 0, None))
  }

  lemma {:induction false} RootStarts()
    ensures Enabled(INITIAL.evm, Start) && Next(INITIAL, Start) == ROOT_OPEN
  {
  }

  lemma {:induction false} RootCompletes(report: Report)
    requires report == Report(Revert, [], 0, 0, Return)
    ensures Enabled(ROOT_OPEN.evm, CompleteEarly(report)) &&
            Next(ROOT_OPEN, CompleteEarly(report)) == RootCompleted(report)
  {
    var root := Frame(None, [], false);
    var m := SubcallCompletion(report.Completion(BeforeFrameEnd, 0));
    assert root.SubcallCompletion() == None;
    assert root.members + [m] == [m];
    assert AddMember([root], 0, m) == [Frame(None, [m], false)];
    hide AddMember, FirstCompletion;
  }

  lemma {:induction false} RootEnds(report: Report)
    ensures var w := RootCompleted(report);
            && Enabled(w.evm, End(true))
            && var w' := Next(w, End(true));
               && Complete(w'.evm) && w'.evm.result == Some(true)
               && w'.inspector.frames == [Frame(None, [SubcallCompletion(report.Completion(BeforeFrameEnd, 0))], true)]
  {
  }

  lemma {:induction false} CompletedRoot(report: Report)
    requires report == Report(Revert, [], 0, 0, Return)
    ensures MaskedRootFailure(Frame(None, [SubcallCompletion(report.Completion(BeforeFrameEnd, 0))], true))
  {
  }
}
