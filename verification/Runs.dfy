/** Every step keeps the books balanced, so every complete run ends with them settled. */
module Runs {
  import opened Basics
  import opened Capture
  import opened Callbacks
  import opened Traversal
  import opened Shape
  import opened Execution
  import opened Books

  /** Below `bound`, both captures give every frame the same parent and the same optimistic verdict. */
  ghost predicate SameOutlook(frames: seq<Frame>, stack: seq<nat>, frames': seq<Frame>, stack': seq<nat>, bound: nat) {
    && bound <= |frames| && bound <= |frames'|
    && forall f :: 0 <= f < bound ==>
         && frames'[f].parent == frames[f].parent
         && Completions(frames'[f].members) == Completions(frames[f].members)
         && (f in stack' || frames'[f].success) == (f in stack || frames[f].success)
  }

  lemma {:induction false} SameOutlookSameLogs(frames: seq<Frame>, stack: seq<nat>, frames': seq<Frame>,
          stack': seq<nat>, events: seq<CapturedEvent>, bound: nat)
    requires SameOutlook(frames, stack, frames', stack', bound)
    ensures LogsBefore(Optimistic(frames', stack'), events, bound) ==
            LogsBefore(Optimistic(frames, stack), events, bound)
  {
    forall f | 0 <= f < bound
      ensures Optimistic(frames', stack')[f].EffectiveSuccess() == Optimistic(frames, stack)[f].EffectiveSuccess()
    {
      FirstOfCompletions(frames[f].members);
      FirstOfCompletions(frames'[f].members);
    }
    LogsBeforeCongruence(Optimistic(frames, stack), Optimistic(frames', stack'), events, bound);
  }

  lemma {:induction false} SameVerdictsLength(frames: seq<Frame>, frames': seq<Frame>)
    requires SameVerdicts(frames, frames')
    ensures |frames| == |frames'|
  {
  }

  lemma {:induction false} PrefixExtends(journal: seq<Log>, seen: nat, logs: seq<Log>)
    requires seen + |logs| <= |journal| && logs == journal[seen..seen + |logs|]
    ensures journal[..seen + |logs|] == journal[..seen] + logs
  {
  }

  lemma {:induction false} NewLogsBound(s: State, s': State, logs: seq<Log>, bound: nat)
    requires s.stack != [] && bound <= |s.frames|
    requires s'.stack == s.stack && SameVerdicts(s.frames, s'.frames)
    requires s'.events == if logs == [] then s.events else s.events + Tagged(s.stack[|s.stack| - 1], logs)
    requires logs != [] ==> PathSuccess(Optimistic(s.frames, s.stack), s.stack[|s.stack| - 1])
    ensures LogsBefore(Optimistic(s'.frames, s.stack), s'.events, bound) ==
            LogsBefore(Optimistic(s.frames, s.stack), s.events, bound) +
            if s.stack[|s.stack| - 1] < bound then logs else []
  {
    hide PathSuccess;
    SameOutlookSameLogs(s.frames, s.stack, s'.frames, s.stack, s'.events, bound);
    if logs != [] {
      LogsBeforeTagged(Optimistic(s.frames, s.stack), s.events, s.stack[|s.stack| - 1], logs, bound);
    }
  }

  /** Handing over `logs` while the top frame is healthy adds them to the surviving logs and to no checkpoint. */
  lemma {:induction false} HandOver(journal: seq<Log>, seen: nat, open: seq<OpenFrame>, s: State, logs: seq<Log>,
          s': State)
    requires Shaped(s) && LogsAgree(journal, seen, open, s) && open != []
    requires seen + |logs| <= |journal| && logs == journal[seen..seen + |logs|]
    requires s'.stack == s.stack && SameVerdicts(s.frames, s'.frames)
    requires s'.events == if logs == [] then s.events else s.events + Tagged(s.stack[|s.stack| - 1], logs)
    requires logs != [] ==> PathSuccess(Optimistic(s.frames, s.stack), s.stack[|s.stack| - 1])
    ensures LogsAgree(journal, seen + |logs|, open, s')
  {
    hide Shaped, PathSuccess, LogsBefore, SameVerdicts, Tagged;
    SameVerdictsLength(s.frames, s'.frames);
    StackFacts(s);
    NewLogsBound(s, s', logs, |s.frames|);
    PrefixExtends(journal, seen, logs);
    forall k | 0 <= k < |open|
      ensures LogsBefore(Optimistic(s'.frames, s.stack), s'.events, s.stack[k]) == journal[..open[k].checkpoint]
    {
      assert s.stack[k] <= s.stack[|s.stack| - 1];
      NewLogsBound(s, s', logs, s.stack[k]);
    }
  }

  lemma {:induction false} Sizes(w: World)
    requires Balanced(w)
    ensures |w.evm.open| == |w.inspector.stack| && w.evm.seen <= |w.evm.journal|
    ensures w.evm.open != [] ==> w.inspector.frames != []
    ensures w.evm.open != [] ==> w.evm.started
    ensures w.inspector.cursor == (if w.evm.delivering then |w.evm.journal| else w.evm.seen)
  {
    hide WellFormed, LogsBefore, OpenAgrees, Under;
  }

  /** While logs are outstanding, the top open frame and its ancestors are healthy. */
  lemma {:induction false} Healthy(w: World)
    requires Balanced(w) && w.evm.open != [] && w.evm.seen < |w.evm.journal|
    ensures PathSuccess(Optimistic(w.inspector.frames, w.inspector.stack), w.inspector.stack[|w.inspector.stack| - 1])
  {
    hide LogsBefore, LogsAgree, EndedAgrees, ResultAgrees, ClosedConsistent, WellFormed, Under, Completions;
    hide PathSuccess, Spine;
    var e, s := w.evm, w.inspector;
    Sizes(w);
    var top := s.stack[|s.stack| - 1];
    OpenPath(e.open, s, |s.stack| - 1);
    if e.open[|e.open| - 1].completion.None? {
      OpenVerdict(e.open, s, |s.stack| - 1);
    } else {
      CompletedVerdict(s.frames[top]);
      CompletedVerdict(Optimistic(s.frames, s.stack)[top]);
    }
  }

  /** Changing only Call and Event members leaves every frame's standing alone. */
  lemma {:induction false} StandingKept(open: seq<OpenFrame>, s: State, s': State)
    requires SameVerdicts(s.frames, s'.frames) && s'.stack == s.stack
    requires OpenFramesAgree(open, s) && ClosedConsistent(s)
    ensures OpenFramesAgree(open, s') && ClosedConsistent(s')
  {
    hide Completions;
  }

  lemma {:induction false} ResultKept(e: Evm, s: State, e': Evm, s': State)
    requires SameVerdicts(s.frames, s'.frames) && ResultAgrees(e, s)
    requires e'.open == e.open && e'.started == e.started && e'.result == e.result
    ensures ResultAgrees(e', s')
  {
    hide Completions;
  }

  lemma {:induction false} SettledKept(journal: seq<Log>, seen: nat, seen': nat, open: seq<OpenFrame>, s: State,
          s': State)
    requires SameVerdicts(s.frames, s'.frames) && s'.stack == s.stack
    requires FailedTopSettled(journal, seen, open, s) && seen <= seen' <= |journal|
    ensures FailedTopSettled(journal, seen', open, s')
  {
    if open != [] && |s.stack| == |open| && s.stack[|s.stack| - 1] < |s.frames| {
      FirstOfCompletions(s.frames[s.stack[|s.stack| - 1]].members);
      FirstOfCompletions(s'.frames[s.stack[|s.stack| - 1]].members);
    }
    hide Completions, FirstCompletion;
  }

  lemma {:induction false} ShapedCursor(s: State, cursor: nat)
    requires Shaped(s)
    ensures Shaped(s.(cursor := cursor))
  {
    hide WellFormed, Under, Spine;
  }

  lemma {:induction false} NothingEnded(e: Evm, s: State)
    requires e.ended.None?
    ensures EndedAgrees(e, s)
  {
  }

  /** A callback that only hands over the next `logs` of the journal keeps the books. */
  lemma {:induction false} HandOverKeeps(w: World, logs: seq<Log>, w': World)
    requires Balanced(w) && w.evm.open != []
    requires w.evm.seen + |logs| <= |w.evm.journal| && logs == w.evm.journal[w.evm.seen..w.evm.seen + |logs|]
    requires w'.inspector == PushEvents(w.inspector, logs).(cursor := w'.inspector.cursor)
    requires w'.evm == w.evm.(seen := w.evm.seen + |logs|, ended := None, delivering := w'.evm.delivering)
    requires w'.inspector.cursor == (if w'.evm.delivering then |w.evm.journal| else w'.evm.seen)
    requires w'.evm.delivering ==> w'.evm.seen < |w.evm.journal|
    ensures Balanced(w')
  {
    hide Shaped, LogsAgree, OpenFramesAgree, EndedAgrees, ClosedConsistent, ResultAgrees, FailedTopSettled;
    hide SameVerdicts, Tagged, PushEvents, Optimistic, PathSuccess;
    var e, s, s' := w.evm, w.inspector, w'.inspector;
    Sizes(w);
    PushEventsKeeps(s, logs);
    ShapedCursor(PushEvents(s, logs), s'.cursor);
    SameVerdictsLength(s.frames, s'.frames);
    if logs != [] {
      Healthy(w);
    }
    HandOver(e.journal, e.seen, e.open, s, logs, s');
    StandingKept(e.open, s, s');
    ResultKept(e, s, w'.evm, s');
    SettledKept(e.journal, e.seen, w'.evm.seen, e.open, s, s');
    NothingEnded(w'.evm, s');
  }

  lemma {:induction false} PushEventsCursor(s: State, logs: seq<Log>, cursor: nat)
    ensures PushEvents(s.(cursor := cursor), logs) == PushEvents(s, logs).(cursor := cursor)
    decreases |logs|
  {
    if logs != [] {
      PushEventsCursor(s, logs[..|logs| - 1], cursor);
    }
  }

  lemma {:induction false} PollKeeps(w: World)
    requires Balanced(w) && !w.evm.delivering && w.evm.open != []
    ensures Balanced(World(w.evm.(seen := |w.evm.journal|, ended := None), SyncJournal(w.inspector, w.evm.journal)))
  {
    hide Balanced, PushEvents;
    Sizes(w);
    var e, s := w.evm, w.inspector;
    var logs := e.journal[e.seen..];
    assert logs == e.journal[e.seen..e.seen + |logs|];
    PushEventsCursor(s, logs, |e.journal|);
    HandOverKeeps(w, logs, World(e.(seen := |e.journal|, ended := None), SyncJournal(s, e.journal)));
  }

  lemma {:induction false} DeliverKeeps(w: World)
    requires Balanced(w) && Enabled(w.evm, Deliver)
    ensures Balanced(Next(w, Deliver))
  {
    hide Balanced;
    Sizes(w);
    var e, s := w.evm, w.inspector;
    var log := e.journal[e.seen];
    assert e.journal[e.seen..e.seen + 1] == [log];
    PushOne(s, log);
    hide PushEvents;
    HandOverKeeps(w, [log], Next(w, Deliver));
  }

  lemma {:induction false} PushOne(s: State, log: Log)
    ensures PushEvents(s, [log]) == PushEvent(s, log)
  {
    assert [log][..0] == [];
  }

  // ----- frame start -----

  lemma {:induction false} BoundBeyondEvents(frames: seq<Frame>, events: seq<CapturedEvent>, bound: nat, bound': nat)
    requires bound <= bound' && forall i :: 0 <= i < |events| ==> events[i].frame < bound
    ensures LogsBefore(frames, events, bound') == LogsBefore(frames, events, bound)
    decreases |events|
  {
    if events != [] {
      BoundBeyondEvents(frames, events[..|events| - 1], bound, bound');
    }
  }

  lemma {:induction false} EventFrames(s: State)
    requires Shaped(s)
    ensures forall i :: 0 <= i < |s.events| ==> s.events[i].frame < |s.frames|
  {
    hide Linked, Ascending, SingleRoot, WalkInOrder, Spine, Under;
  }

  /** Entering a frame changes the Call members of one frame and adds a fresh one. */
  lemma {:induction false} PushFrameForm(s: State)
    requires Shaped(s)
    ensures var s' := PushFrame(s);
            && |s'.frames| == |s.frames| + 1
            && SameVerdicts(s.frames, s'.frames[..|s.frames|])
            && s'.frames[|s.frames|].members == []
            && s'.stack == s.stack + [|s.frames|] && s'.events == s.events
  {
    hide Completions;
    var s' := PushFrame(s);
    if s.stack == [] {
      assert s'.frames[..|s.frames|] == s.frames;
    } else {
      StackFacts(s);
      var top := s.stack[|s.stack| - 1];
      AddMemberVerdicts(s.frames, top, Call(|s.frames|));
      assert s'.frames[..|s.frames|] == AddMember(s.frames, top, Call(|s.frames|));
    }
  }

  lemma {:induction false} PushFrameOutlook(s: State)
    requires Shaped(s)
    ensures SameOutlook(s.frames, s.stack, PushFrame(s).frames, PushFrame(s).stack, |s.frames|)
  {
    hide Completions, Shaped, PushFrame;
    PushFrameForm(s);
    var s' := PushFrame(s);
    assert forall f :: 0 <= f < |s.frames| ==> s'.frames[f] == s'.frames[..|s.frames|][f];
  }

  lemma {:induction false} StackBounded(s: State)
    requires Shaped(s)
    ensures forall k :: 0 <= k < |s.stack| ==> s.stack[k] < |s.frames|
  {
    hide WellFormed, Under;
  }

  lemma {:induction false} StartLogs(journal: seq<Log>, open: seq<OpenFrame>, s: State)
    requires Shaped(s) && LogsAgree(journal, |journal|, open, s)
    ensures LogsAgree(journal, |journal|, open + [OpenFrame(|journal|, None)], PushFrame(s))
  {
    hide Shaped, LogsBefore, SameOutlook, PushFrame, SameVerdicts, Optimistic;
    var s' := PushFrame(s);
    var n := |s.frames|;
    PushFrameForm(s);
    PushFrameOutlook(s);
    EventFrames(s);
    StackBounded(s);
    SameOutlookSameLogs(s.frames, s.stack, s'.frames, s'.stack, s.events, n);
    BoundBeyondEvents(Optimistic(s'.frames, s'.stack), s.events, n, n + 1);
    assert journal[..|journal|] == journal;
    forall k | 0 <= k < |open|
      ensures LogsBefore(Optimistic(s'.frames, s'.stack), s.events, s.stack[k]) == journal[..open[k].checkpoint]
    {
      SmallerOutlook(s.frames, s.stack, s'.frames, s'.stack, n, s.stack[k]);
      SameOutlookSameLogs(s.frames, s.stack, s'.frames, s'.stack, s.events, s.stack[k]);
    }
  }

  lemma {:induction false} SmallerOutlook(frames: seq<Frame>, stack: seq<nat>, frames': seq<Frame>, stack': seq<nat>,
          bound: nat, bound': nat)
    requires SameOutlook(frames, stack, frames', stack', bound) && bound' <= bound
    ensures SameOutlook(frames, stack, frames', stack', bound')
  {
  }

  lemma {:induction false} StartStanding(checkpoint: nat, open: seq<OpenFrame>, s: State)
    requires Shaped(s) && OpenFramesAgree(open, s) && ClosedConsistent(s)
    requires forall k :: 0 <= k < |open| ==> open[k].checkpoint <= checkpoint
    requires open != [] ==> open[|open| - 1].completion.None?
    ensures OpenFramesAgree(open + [OpenFrame(checkpoint, None)], PushFrame(s)) && ClosedConsistent(PushFrame(s))
  {
    hide Shaped, Completions, PushFrame;
    PushFrameForm(s);
    EmptyCompletions();
    var s' := PushFrame(s);
    assert forall f :: 0 <= f < |s.frames| ==> s'.frames[f] == s'.frames[..|s.frames|][f];
  }

  lemma {:induction false} EmptyCompletions()
    ensures Completions([]) == []
  {
  }

  lemma {:induction false} CheckpointsSeen(journal: seq<Log>, seen: nat, open: seq<OpenFrame>, s: State)
    requires LogsAgree(journal, seen, open, s)
    ensures forall k :: 0 <= k < |open| ==> open[k].checkpoint <= seen
  {
    hide LogsBefore;
  }

  /** Entering a frame once everything written so far has been handed over. */
  lemma {:induction false} OpenKeeps(w: World)
    requires Balanced(w) && !w.evm.delivering && w.evm.ended.None? && w.evm.seen == |w.evm.journal|
    requires if w.evm.open == [] then !w.evm.started else w.evm.open[|w.evm.open| - 1].completion.None?
    ensures var e := w.evm;
            Balanced(World(e.(open := e.open + [OpenFrame(|e.journal|, None)], started := true),
                           PushFrame(w.inspector)))
  {
    hide Shaped, LogsAgree, OpenFramesAgree, EndedAgrees, ClosedConsistent;
    var e, s := w.evm, w.inspector;
    Sizes(w);
    PushFrameKeeps(s);
    StartLogs(e.journal, e.open, s);
    CheckpointsSeen(e.journal, e.seen, e.open, s);
    StartStanding(|e.journal|, e.open, s);
    NothingEnded(e.(open := e.open + [OpenFrame(|e.journal|, None)], started := true), PushFrame(s));
  }

  lemma {:induction false} StartKeeps(w: World)
    requires Balanced(w) && Enabled(w.evm, Start)
    ensures Balanced(Next(w, Start))
  {
    var e, s := w.evm, w.inspector;
    Sizes(w);
    if e.open == [] {
      assert e.journal == [] && SyncJournal(s, []) == s;
      ForgetEnded(w);
      hide Balanced;
      OpenKeeps(World(e.(ended := None), s));
    } else {
      PollKeeps(w);
      hide Balanced;
      OpenKeeps(World(e.(seen := |e.journal|, ended := None), SyncJournal(s, e.journal)));
    }
  }

  lemma {:induction false} ForgetEnded(w: World)
    requires Balanced(w)
    ensures Balanced(w.(evm := w.evm.(ended := None)))
  {
    hide Shaped, LogsAgree, OpenFramesAgree, ClosedConsistent;
  }

  // ----- direct append -----

  lemma {:induction false} AppendKeeps(w: World, log: Log)
    requires Balanced(w) && Enabled(w.evm, Append(log))
    ensures Balanced(Next(w, Append(log)))
  {
    hide Shaped, OpenFramesAgree, ClosedConsistent, LogsBefore;
    Sizes(w);
    NothingEnded(Next(w, Append(log)).evm, w.inspector);
    hide EndedAgrees;
  }

  // ----- frame end -----

  /** Leaving the top frame sets its success flag and nothing else. */
  lemma {:induction false} FinishForm(s: State, success: bool)
    requires Shaped(s) && s.stack != []
    ensures var s' := FinishFrame(s, success); var top := s.stack[|s.stack| - 1];
            && top < |s.frames| && |s'.frames| == |s.frames|
            && s'.frames[top] == s.frames[top].(success := success)
            && (forall f :: 0 <= f < |s.frames| && f != top ==> s'.frames[f] == s.frames[f])
            && s'.stack == s.stack[..|s.stack| - 1] && top !in s'.stack
            && s'.events == s.events && s'.cursor == s.cursor && s'.lastFinished == Some(top)
            && (forall k :: 0 <= k < |s'.stack| ==> s'.stack[k] < top)
            && (s'.stack == [] ==> top == 0)
            && Under(s'.frames, top) && SingleRoot(s'.frames)
  {
    StackFacts(s);
    assert Under(s.frames, s.stack[|s.stack| - 1]);
    hide Linked, Ascending, AllListed, WalkInOrder, Spine;
  }

  /** The frames still open, and all frames entered before the one that ends, look the same. */
  lemma {:induction false} FinishOutlook(s: State, success: bool)
    requires Shaped(s) && s.stack != []
    ensures var s' := FinishFrame(s, success);
            SameOutlook(s.frames, s.stack, s'.frames, s'.stack, if success then |s.frames| else s.stack[|s.stack| - 1])
  {
    hide Shaped, FinishFrame, Completions;
    FinishForm(s, success);
    var n := |s.stack| - 1;
    assert forall f :: f in s.stack ==> f in s.stack[..n] || f == s.stack[n];
  }

  lemma {:induction false} FinishStanding(open: seq<OpenFrame>, s: State, success: bool)
    requires Shaped(s) && s.stack != [] && OpenFramesAgree(open, s) && ClosedConsistent(s)
    requires open[|open| - 1].completion.Some? ==> open[|open| - 1].completion.value == success
    ensures var s' := FinishFrame(s, success); var n := |open| - 1; var top := s.stack[n];
            && OpenFramesAgree(open[..n], s') && ClosedConsistent(s')
            && (Completions(s'.frames[top].members) == [] <==> open[n].completion.None?)
            && (Completions(s'.frames[top].members) != [] ==>
                Completions(s'.frames[top].members)[0].finalStatus.IsOk() == success)
            && (!success ==> !s'.frames[top].EffectiveSuccess())
  {
    hide Shaped, FinishFrame, Completions, FirstCompletion;
    FinishForm(s, success);
    var s' := FinishFrame(s, success);
    var n := |s.stack| - 1;
    var top := s.stack[n];
    assert OpenAgrees(s.frames[top], open[n]);
    if open[n].completion.Some? {
      CompletedVerdict(s'.frames[top]);
    } else {
      PlainVerdict(s'.frames[top]);
    }
    assert s.stack == s.stack[..n] + [top];
  }

  /** Once frame `f` has failed, the surviving logs are those before it. */
  lemma {:induction false} DroppedLogs(frames: seq<Frame>, stack: seq<nat>, events: seq<CapturedEvent>, f: nat)
    requires Under(frames, f) && SingleRoot(frames) && f < |frames|
    requires !Optimistic(frames, stack)[f].EffectiveSuccess()
    ensures LogsBefore(Optimistic(frames, stack), events, |frames|) == LogsBefore(Optimistic(frames, stack), events, f)
  {
    var now := Optimistic(frames, stack);
    assert Under(now, f) && SingleRoot(now);
    FailedFrameDropsLogs(now, events, f);
  }

  lemma {:induction false} FinishLogs(journal: seq<Log>, seen: nat, open: seq<OpenFrame>, s: State, success: bool)
    requires Shaped(s) && s.stack != [] && OpenFramesAgree(open, s) && ClosedConsistent(s)
    requires LogsAgree(journal, seen, open, s)
    requires open[|open| - 1].completion.Some? ==> open[|open| - 1].completion.value == success
    ensures var s' := FinishFrame(s, success); var n := |open| - 1; var cp := open[n].checkpoint;
            && cp <= seen
            && (if success then LogsAgree(journal, seen, open[..n], s')
                else LogsAgree(journal[..cp], cp, open[..n], s'))
            && LogsBefore(Optimistic(s'.frames, s'.stack), s.events, s.stack[n]) == journal[..cp]
            && forall k :: 0 <= k < n ==> open[k].checkpoint <= cp
  {
    hide Shaped, FinishFrame, LogsBefore, SameOutlook, Optimistic, OpenAgrees, ClosedConsistent;
    var s' := FinishFrame(s, success);
    var n := |open| - 1;
    var top := s.stack[n];
    FinishForm(s, success);
    FinishOutlook(s, success);
    FinishStanding(open, s, success);
    var bound := if success then |s.frames| else top;
    SameOutlookSameLogs(s.frames, s.stack, s'.frames, s'.stack, s.events, bound);
    forall k | 0 <= k <= n
      ensures LogsBefore(Optimistic(s'.frames, s'.stack), s.events, s.stack[k]) == journal[..open[k].checkpoint]
    {
      assert k < n ==> s.stack[k] == s'.stack[k];
      SmallerOutlook(s.frames, s.stack, s'.frames, s'.stack, bound, s.stack[k]);
      SameOutlookSameLogs(s.frames, s.stack, s'.frames, s'.stack, s.events, s.stack[k]);
    }
    if !success {
      assert Optimistic(s'.frames, s'.stack)[top] == s'.frames[top];
      DroppedLogs(s'.frames, s'.stack, s.events, top);
    }
  }

  /** `e'` is what the machine looks like after the top frame of `e` ended. */
  ghost predicate Left(e: Evm, success: bool, e': Evm) {
    && e.open != []
    && var n := |e.open| - 1; var top := e.open[n];
    && (top.completion.Some? ==> top.completion.value == success)
    && (success ==> e.seen == |e.journal|)
    && e'.journal == (if success then e.journal else Truncate(e.journal, top.checkpoint))
    && e'.seen == |e'.journal| && !e'.delivering && e'.started
    && e'.open == e.open[..n] && e'.result == Some(success)
    && e'.ended == Some(EndedFrame(top.checkpoint, success, top.completion.Some?))
  }

  lemma {:induction false} CloseLogs(e: Evm, s: State, success: bool, e': Evm)
    requires Shaped(s) && LogsAgree(e.journal, e.seen, e.open, s) && OpenFramesAgree(e.open, s) && ClosedConsistent(s)
    requires Left(e, success, e')
    ensures LogsAgree(e'.journal, e'.seen, e'.open, FinishFrame(s, success))
    ensures EndedAgrees(e', FinishFrame(s, success))
  {
    hide Shaped, FinishFrame, LogsBefore, Optimistic, OpenAgrees, Completions, Under, ClosedConsistent;
    FinishForm(s, success);
    FinishStanding(e.open, s, success);
    FinishLogs(e.journal, e.seen, e.open, s, success);
  }

  lemma {:induction false} CloseResult(e: Evm, s: State, success: bool, e': Evm)
    requires Shaped(s) && OpenFramesAgree(e.open, s) && ClosedConsistent(s)
    requires Left(e, success, e')
    ensures ResultAgrees(e', FinishFrame(s, success))
    ensures FailedTopSettled(e'.journal, e'.seen, e'.open, FinishFrame(s, success))
  {
    hide Shaped, FinishFrame, OpenAgrees, Completions, Under, ClosedConsistent;
    FinishForm(s, success);
    FinishStanding(e.open, s, success);
  }

  /** Leaving the top frame, with the journal put back to its checkpoint if it failed. */
  lemma {:induction false} CloseKeeps(e: Evm, s: State, success: bool, e': Evm)
    requires Shaped(s) && LogsAgree(e.journal, e.seen, e.open, s) && OpenFramesAgree(e.open, s) && ClosedConsistent(s)
    requires s.frames != [] && Left(e, success, e') && s.cursor == e'.seen
    ensures Balanced(World(e', FinishFrame(s, success)))
  {
    CloseLogs(e, s, success, e');
    CloseResult(e, s, success, e');
    FinishKeepsAll(e.open, s, success);
    hide Shaped, FinishFrame, LogsAgree, OpenFramesAgree, EndedAgrees, ClosedConsistent, ResultAgrees, FailedTopSettled;
  }

  lemma {:induction false} FinishKeepsAll(open: seq<OpenFrame>, s: State, success: bool)
    requires Shaped(s) && s.stack != [] && OpenFramesAgree(open, s) && ClosedConsistent(s)
    requires open[|open| - 1].completion.Some? ==> open[|open| - 1].completion.value == success
    ensures var s' := FinishFrame(s, success);
            && Shaped(s') && OpenFramesAgree(open[..|open| - 1], s') && ClosedConsistent(s')
            && |s'.frames| == |s.frames| && s'.cursor == s.cursor
  {
    FinishFrameKeeps(s, success);
    FinishStanding(open, s, success);
    FinishForm(s, success);
    hide Shaped, FinishFrame, OpenFramesAgree, ClosedConsistent;
  }

  lemma {:induction false} EndKeeps(w: World, success: bool)
    requires Balanced(w) && Enabled(w.evm, End(success))
    ensures Balanced(Next(w, End(success)))
  {
    hide Shaped, LogsAgree, OpenFramesAgree, EndedAgrees, ClosedConsistent, ResultAgrees, FailedTopSettled, FinishFrame;
    hide PushEvents;
    var e, s := w.evm, w.inspector;
    Sizes(w);
    var w' := Next(w, End(success));
    if success {
      PollKeeps(w);
      var polled := SyncJournal(s, e.journal);
      Sizes(World(e.(seen := |e.journal|, ended := None), polled));
      CloseKeeps(e.(seen := |e.journal|, ended := None), polled, true, w'.evm);
    } else {
      var cp := e.open[|e.open| - 1].checkpoint;
      CheckpointsSeen(e.journal, e.seen, e.open, s);
      SyncBack(s, Truncate(e.journal, cp));
      MovedCursor(e, s, cp);
      CloseKeeps(e, s.(cursor := cp), false, w'.evm);
    }
  }

  lemma {:induction false} SyncBack(s: State, journal: seq<Log>)
    requires |journal| <= s.cursor
    ensures SyncJournal(s, journal) == s.(cursor := |journal|)
  {
    assert |journal| == s.cursor ==> journal[s.cursor..] == [];
  }

  lemma {:induction false} MovedCursor(e: Evm, s: State, cursor: nat)
    requires Shaped(s) && LogsAgree(e.journal, e.seen, e.open, s) && OpenFramesAgree(e.open, s) && ClosedConsistent(s)
    ensures var s' := s.(cursor := cursor);
            Shaped(s') && LogsAgree(e.journal, e.seen, e.open, s') && OpenFramesAgree(e.open, s') &&
            ClosedConsistent(s')
  {
    ShapedCursor(s, cursor);
    hide Shaped, LogsBefore, OpenAgrees, ConsistentFrame;
  }

  // ----- subcall completion -----

  /** A completion recorded for frame `f` decides `f` and leaves the logs before `f` alone. */
  lemma {:induction false} RecordedLogs(frames: seq<Frame>, stack: seq<nat>, events: seq<CapturedEvent>, f: nat,
          c: Completion, bound: nat)
    requires f < |frames| && Completions(frames[f].members) == [] && Under(frames, f) && SingleRoot(frames)
    requires bound <= f || bound == |frames|
    ensures var frames' := AddMember(frames, f, SubcallCompletion(c));
            var now, now' := Optimistic(frames, stack), Optimistic(frames', stack);
            var survives := c.childStatus.IsOk() && !c.rolledBack;
            && (bound <= f || survives == (f in stack || frames[f].success) ==>
                  LogsBefore(now', events, bound) == LogsBefore(now, events, bound))
            && (!survives ==> LogsBefore(now', events, |frames|) == LogsBefore(now, events, f))
  {
    hide Completions, FirstCompletion;
    var frames' := AddMember(frames, f, SubcallCompletion(c));
    var now, now' := Optimistic(frames, stack), Optimistic(frames', stack);
    CompletionsAppend(frames[f].members, SubcallCompletion(c));
    CompletedVerdict(now'[f]);
    PlainVerdict(now[f]);
    assert forall g :: 0 <= g < |frames| && g != f ==> now'[g] == now[g];
    if bound <= f || now'[f].EffectiveSuccess() == now[f].EffectiveSuccess() {
      LogsBeforeCongruence(now, now', events, bound);
    }
    if !now'[f].EffectiveSuccess() {
      assert Under(frames', f) && SingleRoot(frames');
      DroppedLogs(frames', stack, events, f);
      LogsBeforeCongruence(now, now', events, f);
    }
  }

  /** The journal after a completion of frame `f`, whose checkpoint is `cp`. */
  lemma {:induction false} CompletionLogs(journal: seq<Log>, seen: nat, open: seq<OpenFrame>, open': seq<OpenFrame>,
          s: State, f: nat, c: Completion, cp: nat, s': State)
    requires LogsAgree(journal, seen, open, s) && f < |s.frames|
    requires s'.frames == AddMember(s.frames, f, SubcallCompletion(c)) && s'.stack == s.stack && s'.events == s.events
    requires Completions(s.frames[f].members) == [] && Under(s.frames, f) && SingleRoot(s.frames)
    requires forall k :: 0 <= k < |s.stack| ==> s.stack[k] <= f
    requires cp <= seen && LogsBefore(Optimistic(s.frames, s.stack), s.events, f) == journal[..cp]
    requires |open'| == |open| && forall k :: 0 <= k < |open| ==> open'[k].checkpoint == open[k].checkpoint <= cp
    ensures var survives := c.childStatus.IsOk() && !c.rolledBack;
            var same := survives == (f in s.stack || s.frames[f].success);
            && (same ==> LogsAgree(journal, seen, open', s'))
            && (!survives ==> LogsAgree(journal[..cp], cp, open', s'))
  {
    hide LogsBefore, Optimistic, Completions, Under, SingleRoot, AddMember;
    var survives := c.childStatus.IsOk() && !c.rolledBack;
    RecordedLogs(s.frames, s.stack, s.events, f, c, |s.frames|);
    AddMemberLength(s.frames, f, SubcallCompletion(c));
    forall k | 0 <= k < |open|
      ensures LogsBefore(Optimistic(s'.frames, s.stack), s.events, s.stack[k]) == journal[..open[k].checkpoint]
    {
      RecordedLogs(s.frames, s.stack, s.events, f, c, s.stack[k]);
    }
  }

  lemma {:induction false} AddMemberLength(frames: seq<Frame>, f: nat, m: Member)
    requires f < |frames|
    ensures |AddMember(frames, f, m)| == |frames|
  {
  }

  lemma {:induction false} EarlyStanding(open: seq<OpenFrame>, s: State, report: Report, logCount: nat, s': State)
    requires Shaped(s) && OpenFramesAgree(open, s) && ClosedConsistent(s) && open != []
    requires open[|open| - 1].completion.None?
    requires s' == RecordCompletion(s, report.Completion(BeforeFrameEnd, logCount))
    ensures var n := |open| - 1; var top := s.stack[n]; var c := report.Completion(BeforeFrameEnd, logCount);
            && Shaped(s') && s'.stack == s.stack && s'.events == s.events && s'.cursor == logCount
            && top < |s.frames| && s'.frames == AddMember(s.frames, top, SubcallCompletion(c))
            && Completions(s.frames[top].members) == [] && Under(s.frames, top) && SingleRoot(s.frames)
            && (forall k :: 0 <= k < |s.stack| ==> s.stack[k] <= top)
            && OpenFramesAgree(open[n := open[n].(completion := Some(report.finalStatus.IsOk()))], s')
            && ClosedConsistent(s')
            && s'.frames[top].EffectiveSuccess() == (report.childStatus.IsOk() && report.finalStatus.IsOk())
  {
    hide WellFormed, Spine, Completions, FirstCompletion, RecordCompletion;
    var n := |open| - 1;
    var top := s.stack[n];
    var c := report.Completion(BeforeFrameEnd, logCount);
    StackFacts(s);
    assert OpenAgrees(s.frames[top], open[n]);
    assert Under(s.frames, top);
    RecordCompletionKeeps(s, c, top);
    RootOf(s);
    hide Shaped, Under, SingleRoot;
    CompletedVerdict(s'.frames[top]);
  }

  lemma {:induction false} RootOf(s: State)
    requires Shaped(s)
    ensures SingleRoot(s.frames)
  {
  }

  lemma {:induction false} EarlyLogs(e: Evm, s: State, report: Report, e': Evm, s': State)
    requires Shaped(s) && OpenFramesAgree(e.open, s) && ClosedConsistent(s) && LogsAgree(e.journal, e.seen, e.open, s)
    requires Enabled(e, CompleteEarly(report))
    requires World(e', s') == Next(World(e, s), CompleteEarly(report))
    ensures LogsAgree(e'.journal, e'.seen, e'.open, s')
    ensures FailedTopSettled(e'.journal, e'.seen, e'.open, s')
  {
    hide Shaped, OpenFramesAgree, ClosedConsistent, LogsBefore, LogsAgree, Under, SingleRoot, Completions;
    hide RecordCompletion, AddMember, Optimistic;
    var n := |e.open| - 1;
    var cp := e.open[n].checkpoint;
    OpenSizes(e.journal, e.seen, e.open, s);
    TopCheckpoint(e.journal, e.seen, e.open, s);
    EarlyStanding(e.open, s, report, |e'.journal|, s');
    CompletionLogs(e.journal, e.seen, e.open, e'.open, s, s.stack[n], report.Completion(BeforeFrameEnd, |e'.journal|),
                   cp, s');
  }

  lemma {:induction false} OpenSizes(journal: seq<Log>, seen: nat, open: seq<OpenFrame>, s: State)
    requires LogsAgree(journal, seen, open, s)
    ensures |open| == |s.stack| && seen <= |journal|
  {
  }

  lemma {:induction false} CompleteEarlyKeeps(w: World, report: Report)
    requires Balanced(w) && Enabled(w.evm, CompleteEarly(report))
    ensures Balanced(Next(w, CompleteEarly(report)))
  {
    hide Shaped, OpenFramesAgree, ClosedConsistent, LogsAgree, Under, SingleRoot, Completions, RecordCompletion;
    hide EndedAgrees, FailedTopSettled;
    var w' := Next(w, CompleteEarly(report));
    Sizes(w);
    NothingEnded(w'.evm, w'.inspector);
    EarlyStanding(w.evm.open, w.inspector, report, |w'.evm.journal|, w'.inspector);
    EarlyLogs(w.evm, w.inspector, report, w'.evm, w'.inspector);
  }

  lemma {:induction false} TopCheckpoint(journal: seq<Log>, seen: nat, open: seq<OpenFrame>, s: State)
    requires LogsAgree(journal, seen, open, s) && OpenFramesAgree(open, s) && open != []
    ensures var n := |open| - 1;
            && open[n].checkpoint <= seen
            && LogsBefore(Optimistic(s.frames, s.stack), s.events, s.stack[n]) == journal[..open[n].checkpoint]
            && forall k :: 0 <= k <= n ==> open[k].checkpoint <= open[n].checkpoint
  {
    hide LogsBefore, Optimistic, OpenAgrees;
  }

  lemma {:induction false} LateStanding(e: Evm, s: State, report: Report, logCount: nat, s': State)
    requires Shaped(s) && OpenFramesAgree(e.open, s) && ClosedConsistent(s) && EndedAgrees(e, s)
    requires Enabled(e, CompleteLate(report))
    requires s' == RecordCompletion(s, report.Completion(AfterFrameEnd, logCount))
    ensures var f := s.lastFinished.value; var c := report.Completion(AfterFrameEnd, logCount);
            && Shaped(s') && s'.stack == s.stack && s'.events == s.events && s'.cursor == logCount
            && s'.frames == AddMember(s.frames, f, SubcallCompletion(c))
            && Completions(s.frames[f].members) == [] && SingleRoot(s.frames)
            && Completions(s'.frames[f].members) == [c]
            && OpenFramesAgree(e.open, s') && ClosedConsistent(s')
            && (forall k :: 0 <= k < |s.stack| ==> s'.frames[s.stack[k]] == s.frames[s.stack[k]])
  {
    hide WellFormed, Spine, Completions, FirstCompletion, LogsBefore, RecordCompletion;
    var f := s.lastFinished.value;
    var c := report.Completion(AfterFrameEnd, logCount);
    RecordCompletionKeeps(s, c, f);
    RootOf(s);
    hide Shaped, Under, SingleRoot;
  }

  lemma {:induction false} LateResult(e: Evm, s: State, report: Report, logCount: nat, e': Evm, s': State)
    requires Shaped(s) && OpenFramesAgree(e.open, s) && ClosedConsistent(s) && EndedAgrees(e, s)
    requires FailedTopSettled(e.journal, e.seen, e.open, s)
    requires Enabled(e, CompleteLate(report))
    requires s' == RecordCompletion(s, report.Completion(AfterFrameEnd, logCount))
    requires e'.open == e.open && e'.result == Some(report.finalStatus.IsOk()) && e'.seen == |e'.journal|
    requires e'.journal == if report.RollsBack() then Truncate(e.journal, e.ended.value.checkpoint) else e.journal
    ensures ResultAgrees(e', s') && FailedTopSettled(e'.journal, e'.seen, e'.open, s')
  {
    hide Shaped, Completions, FirstCompletion, LogsBefore, RecordCompletion, Under, SingleRoot, OpenAgrees;
    hide ClosedConsistent, Optimistic;
    LateStanding(e, s, report, logCount, s');
  }

  lemma {:induction false} LateLogs(e: Evm, s: State, report: Report, e': Evm, s': State)
    requires Shaped(s) && OpenFramesAgree(e.open, s) && ClosedConsistent(s) && LogsAgree(e.journal, e.seen, e.open, s)
    requires EndedAgrees(e, s) && Enabled(e, CompleteLate(report))
    requires World(e', s') == Next(World(e, s), CompleteLate(report))
    ensures LogsAgree(e'.journal, e'.seen, e'.open, s')
  {
    hide Shaped, OpenFramesAgree, ClosedConsistent, LogsBefore, LogsAgree, Under, SingleRoot, Completions;
    hide RecordCompletion, AddMember, Optimistic;
    OpenSizes(e.journal, e.seen, e.open, s);
    LateStanding(e, s, report, |e'.journal|, s');
    CompletionLogs(e.journal, e.seen, e.open, e.open, s, s.lastFinished.value,
                   report.Completion(AfterFrameEnd, |e'.journal|),
                   e.ended.value.checkpoint, s');
  }

  lemma {:induction false} CompleteLateKeeps(w: World, report: Report)
    requires Balanced(w) && Enabled(w.evm, CompleteLate(report))
    ensures Balanced(Next(w, CompleteLate(report)))
  {
    hide Shaped, OpenFramesAgree, ClosedConsistent, LogsAgree, RecordCompletion, EndedAgrees, ResultAgrees;
    hide FailedTopSettled;
    var w' := Next(w, CompleteLate(report));
    LateParts(w.evm, w.inspector, report, |w'.evm.journal|, w'.inspector);
    NothingEnded(w'.evm, w'.inspector);
    LateResult(w.evm, w.inspector, report, |w'.evm.journal|, w'.evm, w'.inspector);
    LateLogs(w.evm, w.inspector, report, w'.evm, w'.inspector);
  }

  lemma {:induction false} LateParts(e: Evm, s: State, report: Report, logCount: nat, s': State)
    requires Shaped(s) && OpenFramesAgree(e.open, s) && ClosedConsistent(s) && EndedAgrees(e, s)
    requires Enabled(e, CompleteLate(report))
    requires s' == RecordCompletion(s, report.Completion(AfterFrameEnd, logCount))
    ensures Shaped(s') && OpenFramesAgree(e.open, s') && ClosedConsistent(s')
    ensures s'.cursor == logCount && s.frames != [] && s'.frames != [] && !e.delivering
  {
    hide Shaped, OpenFramesAgree, ClosedConsistent, LogsBefore, Under, SingleRoot, Completions, RecordCompletion;
    hide Optimistic;
    LateStanding(e, s, report, logCount, s');
  }

  // ----- whole runs -----

  lemma {:induction false} StepKeeps(w: World, step: Step)
    requires Balanced(w) && Enabled(w.evm, step)
    ensures Balanced(Next(w, step))
  {
    hide Balanced;
    match step {
      case Start => StartKeeps(w);
      case Append(log) => AppendKeeps(w, log);
      case Poll => PollKeeps(w);
      case Deliver => DeliverKeeps(w);
      case CompleteEarly(report) => CompleteEarlyKeeps(w, report);
      case End(success) => EndKeeps(w, success);
      case CompleteLate(report) => CompleteLateKeeps(w, report);
    }
  }

  /** The books balance after every legal run, complete or not. */
  lemma {:induction false} RunBalanced(steps: seq<Step>)
    requires Legal(INITIAL, steps)
    ensures Balanced(Run(INITIAL, steps))
    decreases |steps|
  {
    hide Balanced;
    if steps == [] {
      InitiallyBalanced();
    } else {
      RunBalanced(steps[..|steps| - 1]);
      StepKeeps(Run(INITIAL, steps[..|steps| - 1]), steps[|steps| - 1]);
    }
  }
}
