/**
 The book-keeping invariant that ties the inspector's capture to the journal: if every
 open frame were to succeed from here on, the surviving logs would be exactly the journal
 logs handed over so far; and the logs captured before an open frame was entered are
 exactly the journal up to that frame's checkpoint.
 */
module Books {
  import opened Basics
  import opened Capture
  import opened Callbacks
  import opened Traversal
  import opened Shape
  import opened Execution

  /** The capture as it would stand if every open frame succeeded. */
  ghost function Optimistic(frames: seq<Frame>, stack: seq<nat>): (r: seq<Frame>)
    ensures |r| == |frames|
    ensures forall f :: 0 <= f < |frames| ==>
              r[f].parent == frames[f].parent && r[f].members == frames[f].members &&
              r[f].success == (f in stack || frames[f].success)
  {
    seq(|frames|, f requires 0 <= f < |frames| => frames[f].(success := f in stack || frames[f].success))
  }

  /** Surviving logs of the events in frames numbered below `bound`. */
  ghost function LogsBefore(frames: seq<Frame>, events: seq<CapturedEvent>, bound: nat): seq<Log> {
    if events == [] then []
    else
      var last := events[|events| - 1];
      LogsBefore(frames, events[..|events| - 1], bound) +
      if last.frame < bound && PathSuccess(frames, last.frame) then [last.log] else []
  }

  ghost predicate SameBelow(frames: seq<Frame>, frames': seq<Frame>, bound: nat) {
    && bound <= |frames| && bound <= |frames'|
    && forall f :: 0 <= f < bound ==>
         frames[f].parent == frames'[f].parent && frames[f].EffectiveSuccess() == frames'[f].EffectiveSuccess()
  }

  /** Logs before a frame depend only on earlier frames. */
  lemma {:induction false} LogsBeforeCongruence(frames: seq<Frame>, frames': seq<Frame>, events: seq<CapturedEvent>,
          bound: nat)
    requires SameBelow(frames, frames', bound)
    ensures LogsBefore(frames, events, bound) == LogsBefore(frames', events, bound)
    decreases |events|
  {
    if events != [] {
      var last := events[|events| - 1];
      LogsBeforeCongruence(frames, frames', events[..|events| - 1], bound);
      if last.frame < bound {
        PathSuccessCongruence(frames, frames', last.frame);
      }
    }
  }

  lemma {:induction false} LogsBeforeAll(frames: seq<Frame>, events: seq<CapturedEvent>)
    ensures LogsBefore(frames, events, |frames|) == SurvivingLogs(frames, events)
    decreases |events|
  {
    if events != [] {
      LogsBeforeAll(frames, events[..|events| - 1]);
    }
  }

  lemma {:induction false} LogsBeforeTagged(frames: seq<Frame>, events: seq<CapturedEvent>, f: nat, logs: seq<Log>,
          bound: nat)
    ensures LogsBefore(frames, events + Tagged(f, logs), bound) ==
            LogsBefore(frames, events, bound) + if f < bound && PathSuccess(frames, f) then logs else []
    decreases |logs|
  {
    if logs == [] {
      assert events + Tagged(f, logs) == events;
    } else {
      var all := events + Tagged(f, logs);
      var n := |logs| - 1;
      assert all[..|all| - 1] == events + Tagged(f, logs[..n]);
      LogsBeforeTagged(frames, events, f, logs[..n], bound);
      assert logs == logs[..n] + [logs[n]];
    }
  }

  /** Once frame `f` fails, nothing at or below it survives. */
  lemma {:induction false} FailedSubtree(frames: seq<Frame>, f: nat, g: nat)
    requires Under(frames, f) && f <= g < |frames| && SingleRoot(frames)
    requires !PathSuccess(frames, f)
    ensures !PathSuccess(frames, g)
    decreases g
  {
    if g > f {
      FailedSubtree(frames, f, frames[g].parent.value);
    }
  }

  lemma {:induction false} FailedFrameDropsLogs(frames: seq<Frame>, events: seq<CapturedEvent>, f: nat)
    requires Under(frames, f) && SingleRoot(frames) && f < |frames|
    requires !PathSuccess(frames, f)
    ensures LogsBefore(frames, events, |frames|) == LogsBefore(frames, events, f)
    decreases |events|
  {
    if events != [] {
      FailedFrameDropsLogs(frames, events[..|events| - 1], f);
      var last := events[|events| - 1];
      if f <= last.frame < |frames| {
        FailedSubtree(frames, f, last.frame);
      }
    }
  }

  // ----- the invariant -----

  /** What an open frame's own completion, if it has been made, looks like in the capture. */
  ghost predicate OpenAgrees(frame: Frame, o: OpenFrame) {
    var cs := Completions(frame.members);
    match o.completion
    case None => cs == []
    case Some(final) =>
      && |cs| == 1 && cs[0].phase == BeforeFrameEnd
      && cs[0].finalStatus.IsOk() == final
      && cs[0].rolledBack == (cs[0].childStatus.IsOk() && !final)
  }

  ghost predicate LogsAgree(journal: seq<Log>, seen: nat, open: seq<OpenFrame>, s: State) {
    var now := Optimistic(s.frames, s.stack);
    && |open| == |s.stack|
    && seen <= |journal|
    && LogsBefore(now, s.events, |s.frames|) == journal[..seen]
    && (forall k :: 0 <= k < |open| ==>
          open[k].checkpoint <= seen &&
          LogsBefore(now, s.events, s.stack[k]) == journal[..open[k].checkpoint])
  }

  ghost predicate OpenFramesAgree(open: seq<OpenFrame>, s: State) {
    && |open| == |s.stack|
    && (forall k :: 0 <= k < |open| ==>
          s.stack[k] < |s.frames| && OpenAgrees(s.frames[s.stack[k]], open[k]))
    && (forall k :: 0 <= k < |open| - 1 ==> open[k].completion.None?)
    && (forall j, k :: 0 <= j < k < |open| ==> open[j].checkpoint <= open[k].checkpoint)
  }

  ghost predicate EndedAgrees(e: Evm, s: State) {
    e.ended.Some? ==>
      && s.lastFinished.Some? && s.lastFinished.value < |s.frames|
      && var f := s.lastFinished.value; var ended := e.ended.value;
      && f !in s.stack && Under(s.frames, f)
      && (forall k :: 0 <= k < |s.stack| ==> s.stack[k] < f)
      && (s.stack == [] ==> f == 0)
      && s.frames[f].success == ended.success
      && (Completions(s.frames[f].members) == [] <==> !ended.completed)
      && ended.checkpoint <= |e.journal| && e.seen == |e.journal| && !e.delivering
      && (forall k :: 0 <= k < |e.open| ==> e.open[k].checkpoint <= ended.checkpoint)
      && LogsBefore(Optimistic(s.frames, s.stack), s.events, f) == e.journal[..ended.checkpoint]
  }

  /** After the root frame's end, the result is the root's, or its completion's, verdict. */
  ghost predicate ResultAgrees(e: Evm, s: State) {
    e.started && e.open == [] ==>
      && s.frames != []
      && var cs := Completions(s.frames[0].members);
         e.result == Some(if cs == [] then s.frames[0].success else cs[0].finalStatus.IsOk())
  }

  ghost predicate ClosedConsistent(s: State) {
    forall f :: 0 <= f < |s.frames| && f !in s.stack ==> ConsistentFrame(s.frames[f])
  }

  /** A failed early completion has already put the journal back to the checkpoint. */
  ghost predicate FailedTopSettled(journal: seq<Log>, seen: nat, open: seq<OpenFrame>, s: State) {
    open != [] && |s.stack| == |open| && s.stack[|s.stack| - 1] < |s.frames| &&
    open[|open| - 1].completion.Some? && !s.frames[s.stack[|s.stack| - 1]].EffectiveSuccess() ==>
      seen == |journal| == open[|open| - 1].checkpoint
  }

  /** The journal cursor and the step flags. */
  ghost predicate CursorAgrees(e: Evm, s: State) {
    && s.cursor == (if e.delivering then |e.journal| else e.seen)
    && (e.delivering ==> e.open != [] && e.seen < |e.journal|)
    && (e.started <==> s.frames != [])
    && (!e.started ==> e.journal == [])
    && (e.open == [] ==> e.seen == |e.journal|)
  }

  ghost predicate Balanced(w: World) {
    var e, s := w.evm, w.inspector;
    && Shaped(s)
    && LogsAgree(e.journal, e.seen, e.open, s)
    && OpenFramesAgree(e.open, s)
    && EndedAgrees(e, s)
    && ClosedConsistent(s)
    && ResultAgrees(e, s)
    && FailedTopSettled(e.journal, e.seen, e.open, s)
    && CursorAgrees(e, s)
  }

  lemma {:induction false} InitiallyBalanced()
    ensures Balanced(INITIAL)
  {
    assert Optimistic([], []) == [];
  }

  /** An open frame without a completion counts as successful. */
  lemma {:induction false} OpenVerdict(open: seq<OpenFrame>, s: State, k: nat)
    requires OpenFramesAgree(open, s) && k < |open| && open[k].completion.None?
    ensures Optimistic(s.frames, s.stack)[s.stack[k]].EffectiveSuccess()
  {
    FirstOfCompletions(s.frames[s.stack[k]].members);
  }

  /** A completion fixes a frame's verdict, whatever its success flag says. */
  lemma {:induction false} CompletedVerdict(frame: Frame)
    requires Completions(frame.members) != []
    ensures var c := Completions(frame.members)[0];
            frame.EffectiveSuccess() == (c.childStatus.IsOk() && !c.rolledBack)
  {
    FirstOfCompletions(frame.members);
  }

  lemma {:induction false} PlainVerdict(frame: Frame)
    requires Completions(frame.members) == []
    ensures frame.EffectiveSuccess() == frame.success
  {
    FirstOfCompletions(frame.members);
  }

  /** Paths of open frames succeed, up to the first completed one. */
  lemma {:induction false} OpenPath(open: seq<OpenFrame>, s: State, k: nat)
    requires OpenFramesAgree(open, s) && Spine(s.frames, s.stack) && k < |open|
    ensures var now := Optimistic(s.frames, s.stack);
            PathSuccess(now, s.stack[k]) <==> now[s.stack[k]].EffectiveSuccess()
    decreases k
  {
    if k > 0 {
      assert SpineLink(s.frames, s.stack[k - 1], s.stack[k]);
      OpenPath(open, s, k - 1);
      OpenVerdict(open, s, k - 1);
    }
  }
}
