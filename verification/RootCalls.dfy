/**
 Runs in which the root frame is no subcall. A subcall precompile answers only callers on its
 list, and the only registered one lists two contracts; the caller of a root frame is the account
 that signed the transaction, so its frame never gets a completion of its own.
 */
module RootCalls {
  import opened Basics
  import opened Capture
  import opened Callbacks
  import opened Shape
  import opened Execution
  import opened Books
  import opened Runs
  import opened RunTheorems
  import opened TraceBuilder
  import opened ListTheorems
  import opened Ids
  import opened Classification
  import opened EndToEnd

  /** The step is a completion of the root frame. */
  predicate CompletesRoot(e: Evm, step: Step) {
    (step.CompleteEarly? && |e.open| == 1) || (step.CompleteLate? && e.open == [])
  }

  /** No step of the run completes the root frame. */
  predicate RootIsNoSubcall(steps: seq<Step>)
    requires Legal(INITIAL, steps)
  {
    steps == [] ||
    (RootIsNoSubcall(steps[..|steps| - 1]) &&
     !CompletesRoot(Run(INITIAL, steps[..|steps| - 1]).evm, steps[|steps| - 1]))
  }

  /** Frame 0, if there is one, has no completion. */
  ghost predicate RootUncompleted(s: State) {
    s.frames != [] ==> Completions(s.frames[0].members) == []
  }

  // ----- callbacks that leave the root without a completion -----

  lemma {:induction false} AddOther(frames: seq<Frame>, f: nat, m: Member)
    requires f < |frames| && (f == 0 ==> !m.SubcallCompletion?)
    ensures Completions(AddMember(frames, f, m)[0].members) == Completions(frames[0].members)
  {
    CompletionsAppend(frames[f].members, m);
    hide Completions;
  }

  lemma {:induction false} PushEventUncompleted(s: State, log: Log)
    requires RootUncompleted(s)
    ensures RootUncompleted(PushEvent(s, log))
  {
    hide Completions;
    if s.stack != [] && s.stack[|s.stack| - 1] < |s.frames| {
      AddOther(s.frames, s.stack[|s.stack| - 1], Event(|s.events|));
    }
  }

  lemma {:induction false} PushEventsUncompleted(s: State, logs: seq<Log>)
    requires RootUncompleted(s)
    ensures RootUncompleted(PushEvents(s, logs))
    decreases |logs|
  {
    hide RootUncompleted, PushEvent;
    if logs != [] {
      PushEventsUncompleted(s, logs[..|logs| - 1]);
      PushEventUncompleted(PushEvents(s, logs[..|logs| - 1]), logs[|logs| - 1]);
    }
  }

  lemma {:induction false} CursorUncompleted(s: State, cursor: nat)
    requires RootUncompleted(s)
    ensures RootUncompleted(s.(cursor := cursor))
  {
  }

  lemma {:induction false} SyncUncompleted(s: State, journal: seq<Log>)
    requires RootUncompleted(s)
    ensures RootUncompleted(SyncJournal(s, journal))
  {
    hide RootUncompleted, PushEvents;
    CursorUncompleted(s, |journal|);
    if |journal| >= s.cursor {
      PushEventsUncompleted(s.(cursor := |journal|), journal[s.cursor..]);
    }
  }

  lemma {:induction false} PushFrameUncompleted(s: State)
    requires RootUncompleted(s)
    ensures RootUncompleted(PushFrame(s))
  {
    if s.frames == [] {
      assert PushFrame(s).frames[0].members == [];
    } else if s.stack != [] && s.stack[|s.stack| - 1] < |s.frames| {
      AddOther(s.frames, s.stack[|s.stack| - 1], Call(|s.frames|));
    }
    hide Completions;
  }

  lemma {:induction false} FinishUncompleted(s: State, success: bool)
    requires RootUncompleted(s)
    ensures RootUncompleted(FinishFrame(s, success))
  {
    hide Completions;
  }

  lemma {:induction false} RecordUncompleted(s: State, c: Completion)
    requires RootUncompleted(s)
    requires (if c.phase.BeforeFrameEnd? then Top(s.stack) else s.lastFinished) != Some(0)
    ensures RootUncompleted(RecordCompletion(s, c))
  {
    hide Completions, FirstCompletion;
    var target := if c.phase.BeforeFrameEnd? then Top(s.stack) else s.lastFinished;
    if target.Some? && target.value < |s.frames| {
      AddOther(s.frames, target.value, SubcallCompletion(c));
    }
  }

  // ----- steps -----

  /** A completion that is not the root's goes to a later frame. */
  lemma {:induction false} CompletionElsewhere(w: World, step: Step)
    requires Balanced(w) && Enabled(w.evm, step) && !CompletesRoot(w.evm, step)
    ensures step.CompleteEarly? ==> Top(w.inspector.stack) != Some(0)
    ensures step.CompleteLate? ==> w.inspector.lastFinished != Some(0)
  {
    hide Shaped, Under, LogsBefore, Optimistic, Completions, ClosedConsistent, ResultAgrees, FailedTopSettled;
    hide CursorAgrees;
    var s := w.inspector;
    if s.stack != [] {
      StackBottom(s);
    }
  }

  lemma {:induction false} StackBottom(s: State)
    requires Shaped(s) && s.stack != []
    ensures s.stack[0] == 0 && (|s.stack| > 1 ==> s.stack[|s.stack| - 1] > 0)
  {
    hide Shaped;
    StackFacts(s);
  }

  lemma {:induction false} StepUncompleted(w: World, step: Step)
    requires Balanced(w) && Enabled(w.evm, step) && !CompletesRoot(w.evm, step) && RootUncompleted(w.inspector)
    ensures RootUncompleted(Next(w, step).inspector)
  {
    hide Balanced, RootUncompleted, RecordCompletion, PushEvent, PushFrame, FinishFrame, SyncJournal, CompletesRoot;
    var e, s := w.evm, w.inspector;
    match step {
      case Start =>
        SyncUncompleted(s, e.journal);
        PushFrameUncompleted(SyncJournal(s, e.journal));
      case Append(_) =>
      case Poll => SyncUncompleted(s, e.journal);
      case Deliver =>
        PushEventUncompleted(s, e.journal[e.seen]);
        CursorUncompleted(PushEvent(s, e.journal[e.seen]), |e.journal|);
      case CompleteEarly(report) =>
        CompletionElsewhere(w, step);
        RecordUncompleted(s, report.Completion(BeforeFrameEnd, |Next(w, step).evm.journal|));
      case End(success) =>
        var journal := Next(w, step).evm.journal;
        SyncUncompleted(s, journal);
        FinishUncompleted(SyncJournal(s, journal), success);
      case CompleteLate(report) =>
        CompletionElsewhere(w, step);
        RecordUncompleted(s, report.Completion(AfterFrameEnd, |Next(w, step).evm.journal|));
    }
  }

  /** At every point of such a run the root has no completion. */
  lemma {:induction false} RootStaysUncompleted(steps: seq<Step>)
    requires Legal(INITIAL, steps) && RootIsNoSubcall(steps)
    ensures RootUncompleted(Run(INITIAL, steps).inspector)
    decreases |steps|
  {
    hide RootUncompleted, Balanced, Next, Enabled, CompletesRoot;
    if steps == [] {
      NothingUncompleted();
    } else {
      var n := |steps| - 1;
      RootStaysUncompleted(steps[..n]);
      RunBalanced(steps[..n]);
      StepUncompleted(Run(INITIAL, steps[..n]), steps[n]);
    }
  }

  lemma {:induction false} NothingUncompleted()
    ensures RootUncompleted(INITIAL.inspector)
  {
  }

  // ----- what follows -----

  /** Such a run ends with the root's own verdict, and the root masks nothing. */
  lemma {:induction false} PlainRootResult(steps: seq<Step>)
    requires Legal(INITIAL, steps) && Complete(Run(INITIAL, steps).evm) && RootIsNoSubcall(steps)
    ensures var w := Run(INITIAL, steps);
            && w.inspector.frames != [] && !MaskedRootFailure(w.inspector.frames[0])
            && w.evm.result == Some(w.inspector.frames[0].success)
            && w.inspector.frames[0].EffectiveSuccess() == w.inspector.frames[0].success
  {
    hide Run, Legal, RootIsNoSubcall, Completions, FirstCompletion, Complete;
    CompleteRunResult(steps);
    RootStaysUncompleted(steps);
    FirstOfCompletions(Run(INITIAL, steps).inspector.frames[0].members);
  }

  /** Then the receipt check accepts the lists exactly when statuses and self-destructs are clean. */
  lemma {:induction false} ReceiptCheckOnPlainRuns(steps: seq<Step>, c: Context, logIndex: nat)
    requires Legal(INITIAL, steps) && Complete(Run(INITIAL, steps).evm) && RootIsNoSubcall(steps)
    requires c.captured == IntoCaptured(Run(INITIAL, steps).inspector)
    requires TracedTogether(c.nodes, c.captured) && c.visible == VisibleFlags(c.nodes) && HexDigest(c)
    ensures Acyclic(c.captured)
    ensures var result := Run(INITIAL, steps).evm.result; var r := BuildLists(c, logIndex);
            && result.Some? && r.Ok?
            && (ValidateClassification(result.value, r.value.0).Ok? <==> StatusClean(c) && SelfdestructClean(c))
  {
    hide Run, Legal, RootIsNoSubcall, Complete, Acyclic, HexDigest, StatusClean, SelfdestructClean, MaskedRootFailure;
    hide ValidateClassification, BuildLists, TracedTogether;
    PlainRootResult(steps);
    ReceiptCheckOnRuns(steps, c, logIndex);
  }

  /** With statuses that match the success flags, too, every such transaction passes the receipt check. */
  lemma {:induction false} PlainRunsPass(steps: seq<Step>, c: Context, logIndex: nat)
    requires Legal(INITIAL, steps) && Complete(Run(INITIAL, steps).evm) && RootIsNoSubcall(steps)
    requires c.captured == IntoCaptured(Run(INITIAL, steps).inspector)
    requires TracedTogether(c.nodes, c.captured) && c.visible == VisibleFlags(c.nodes) && HexDigest(c)
    requires StatusesMatch(c) && SelfdestructClean(c)
    ensures Acyclic(c.captured)
    ensures var result := Run(INITIAL, steps).evm.result; var r := BuildLists(c, logIndex);
            result.Some? && r.Ok? && ValidateClassification(result.value, r.value.0).Ok?
  {
    hide Run, Legal, RootIsNoSubcall, Complete, Acyclic, HexDigest, StatusesMatch, SelfdestructClean, MaskedRootFailure;
    hide ValidateClassification, BuildLists, TracedTogether, Consistent, FirstCompletion, Completions;
    PlainRootResult(steps);
    CompleteRunValid(steps);
    RunIsConsistent(steps, c);
    MatchingStatusesPass(c, logIndex);
  }
}
