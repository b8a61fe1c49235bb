/** From the machine's steps to the lists of one transaction. */
module EndToEnd {
  import opened Capture
  import opened Callbacks
  import opened Traversal
  import opened Execution
  import opened RunTheorems
  import opened TraceBuilder
  import opened Provenance
  import opened ListTheorems
  import opened Ids
  import opened Classification

  /** `nodes` is what the tracing inspector recorded during a run that left `captured` behind. */
  ghost predicate TracedTogether(nodes: seq<CallNode>, captured: Captured) {
    |nodes| == |captured.frames| && forall f :: 0 <= f < |nodes| ==> nodes[f].success == captured.frames[f].success
  }

  lemma {:induction false} RunIsConsistent(steps: seq<Step>, c: Context)
    requires Legal(INITIAL, steps) && Complete(Run(INITIAL, steps).evm)
    requires c.captured == IntoCaptured(Run(INITIAL, steps).inspector)
    requires TracedTogether(c.nodes, c.captured) && c.visible == VisibleFlags(c.nodes)
    ensures Consistent(c) && Acyclic(c.captured)
  {
    hide Run, Legal, Linked, SingleRoot, Ascending, AllListed, WalkInOrder, Acyclic;
    RunWellFormed(steps);
    CompleteRunValid(steps);
    FitsAcyclic(c);
  }

  /**
   For every complete run of a transaction the builder succeeds; the logs behind its events
   are the journal's logs, in order, numbered from the incoming index.
   */
  lemma {:induction false} EventsAreTheJournal(steps: seq<Step>, c: Context, logIndex: nat)
    requires Legal(INITIAL, steps) && Complete(Run(INITIAL, steps).evm)
    requires c.captured == IntoCaptured(Run(INITIAL, steps).inspector)
    requires TracedTogether(c.nodes, c.captured) && c.visible == VisibleFlags(c.nodes)
    ensures Acyclic(c.captured)
    ensures var journal := Run(INITIAL, steps).evm.journal; var r := BuildLists(c, logIndex);
            && r.Ok?
            && LogsOf(r.value.0.events) == journal
            && r.value.1 == logIndex + |journal|
            && |r.value.0.events| == |journal|
            && forall i :: 0 <= i < |journal| ==> r.value.0.events[i].idx == logIndex + i
  {
    hide Run, Legal, Consistent, Acyclic, SurvivingLogs, LogsOf, BuildLists;
    RunIsConsistent(steps, c);
    EventsAreSurvivingLogs(c, logIndex);
    CompleteRunLogs(steps);
    LogsOfLength(BuildLists(c, logIndex).value.0.events);
  }

  lemma {:induction false} LogsOfLength(events: seq<TraceEvent>)
    ensures |LogsOf(events)| == |events|
    decreases |events|
  {
    if events != [] {
      LogsOfLength(events[..|events| - 1]);
    }
  }

  /**
   For every complete run the receipt check accepts the lists exactly when statuses and
   self-destructs are clean and the root did not hide a failed child behind a successful
   completion.
   */
  lemma {:induction false} ReceiptCheckOnRuns(steps: seq<Step>, c: Context, logIndex: nat)
    requires Legal(INITIAL, steps) && Complete(Run(INITIAL, steps).evm)
    requires c.captured == IntoCaptured(Run(INITIAL, steps).inspector)
    requires TracedTogether(c.nodes, c.captured) && c.visible == VisibleFlags(c.nodes) && HexDigest(c)
    ensures Acyclic(c.captured) && c.captured.frames != []
    ensures var result := Run(INITIAL, steps).evm.result; var r := BuildLists(c, logIndex);
            && result.Some? && r.Ok?
            && (ValidateClassification(result.value, r.value.0).Ok? <==>
                StatusClean(c) && SelfdestructClean(c) && !MaskedRootFailure(c.captured.frames[0]))
  {
    hide Run, Legal, Consistent, Acyclic, HexDigest, StatusClean, SelfdestructClean, MaskedRootFailure;
    hide ValidateClassification, BuildLists;
    RunIsConsistent(steps, c);
    CompleteRunResult(steps);
    ReceiptCheckExact(c, logIndex, Run(INITIAL, steps).evm.result.value);
  }
}
