/** The event inspector object; every method is proved to do what `Callbacks` says. */
module Inspector {
  import opened Basics
  import opened Capture
  import Callbacks
  import opened Shape

  /** The frame on top of the stack lists one more member, at its end; no other of the frames changes. */
  ghost predicate GainsMember(before: seq<Frame>, after: seq<Frame>, stack: seq<nat>, m: Member)
    requires stack != []
  {
    var top := stack[|stack| - 1];
    && |before| <= |after| && top < |before|
    && after[top].members == before[top].members + [m]
    && after[top].success == before[top].success && after[top].parent == before[top].parent
    && forall f :: 0 <= f < |before| && f != top ==> after[f] == before[f]
  }

  lemma {:induction false} TaggedAppend(f: nat, logs: seq<Log>, i: nat)
    requires i < |logs|
    ensures Tagged(f, logs[..i + 1]) == Tagged(f, logs[..i]) + [CapturedEvent(f, logs[i])]
  {
  }

  lemma {:induction false} TaggedNothing(f: nat, logs: seq<Log>)
    ensures Tagged(f, logs[..0]) == []
  {
  }

  class ArcEventInspector {
    var frames: seq<Frame>
    var events: seq<CapturedEvent>
    var valid: bool
    var frameStack: seq<nat>
    var journalLogCount: nat
    var lastFinishedFrame: Option<nat>

    ghost function View(): Callbacks.State
      reads this
    {
      Callbacks.State(frames, events, valid, frameStack, journalLogCount, lastFinishedFrame)
    }

    /** The frame on top of the stack exists. */
    ghost predicate TopKnown()
      reads this
    {
      frameStack != [] && frameStack[|frameStack| - 1] < |frames|
    }

    constructor ()
      ensures View() == Callbacks.FRESH
    {
      frames, events, valid, frameStack, journalLogCount, lastFinishedFrame := [], [], true, [], 0, None;
    }

    method PushFrame()
      modifies this
      ensures View() == Callbacks.PushFrame(old(View()))
      ensures |frames| == |old(frames)| + 1 && frameStack == old(frameStack) + [|old(frames)|]
      ensures frames[|old(frames)|].members == [] && !frames[|old(frames)|].success
      ensures frames[|old(frames)|].parent ==
              if old(frameStack) == [] then None else Some(old(frameStack)[|old(frameStack)| - 1])
      ensures old(TopKnown()) ==> GainsMember(old(frames), frames, old(frameStack), Call(|old(frames)|))
      ensures !old(TopKnown()) ==> frames[..|old(frames)|] == old(frames)
      ensures valid <==> old(valid) && (old(frameStack) == [] || old(TopKnown()))
      ensures events == old(events) && journalLogCount == old(journalLogCount)
      ensures lastFinishedFrame == old(lastFinishedFrame)
    {
      var parent := Callbacks.Top(frameStack);
      var frameId := |frames|;
      if parent.Some? {
        if parent.value < |frames| {
          frames := Callbacks.AddMember(frames, parent.value, Call(frameId));
        } else {
          valid := false;
        }
      }
      frames := frames + [Frame(parent, [], false)];
      frameStack := frameStack + [frameId];
    }

    method FinishFrame(success: bool)
      modifies this
      ensures View() == Callbacks.FinishFrame(old(View()), success)
      ensures valid <==> old(valid) && old(TopKnown())
      ensures old(frameStack) == [] ==> frameStack == []
      ensures old(frameStack) != [] ==> frameStack == old(frameStack)[..|old(frameStack)| - 1]
      ensures old(TopKnown()) ==>
                var top := old(frameStack)[|old(frameStack)| - 1];
                && lastFinishedFrame == Some(top) && |frames| == |old(frames)|
                && frames[top].success == success
                && frames[top].members == old(frames)[top].members && frames[top].parent == old(frames)[top].parent
                && forall f :: 0 <= f < |frames| && f != top ==> frames[f] == old(frames)[f]
      ensures !old(TopKnown()) ==> frames == old(frames) && lastFinishedFrame == old(lastFinishedFrame)
      ensures events == old(events) && journalLogCount == old(journalLogCount)
    {
      if frameStack == [] {
        valid := false;
        return;
      }
      var frameId := frameStack[|frameStack| - 1];
      frameStack := frameStack[..|frameStack| - 1];
      if frameId < |frames| {
        frames := frames[frameId := frames[frameId].(success := success)];
        lastFinishedFrame := Some(frameId);
      } else {
        valid := false;
      }
    }

    /** The frame a completion belongs to: the open top one, or the one that ended last. */
    ghost function CompletionTarget(phase: Phase): Option<nat>
      reads this
    {
      if phase == AfterFrameEnd then lastFinishedFrame
      else if frameStack == [] then None
      else Some(frameStack[|frameStack| - 1])
    }

    method RecordSubcallCompletion(completion: Completion)
      modifies this
      ensures View() == Callbacks.RecordCompletion(old(View()), completion)
      ensures var target := old(CompletionTarget(completion.phase));
              var accepted := target.Some? && target.value < |old(frames)| &&
                              forall m :: m in old(frames)[target.value].members ==> !m.SubcallCompletion?;
              && (valid <==> old(valid) && accepted)
              && (accepted ==>
                    && journalLogCount == completion.postLogCount && |frames| == |old(frames)|
                    && frames[target.value].members ==
                       old(frames)[target.value].members + [Member.SubcallCompletion(completion)]
                    && frames[target.value].success == old(frames)[target.value].success
                    && frames[target.value].parent == old(frames)[target.value].parent
                    && forall f :: 0 <= f < |frames| && f != target.value ==> frames[f] == old(frames)[f])
              && (!accepted ==> frames == old(frames) && journalLogCount == old(journalLogCount))
      ensures lastFinishedFrame == if completion.phase == AfterFrameEnd then None else old(lastFinishedFrame)
      ensures events == old(events) && frameStack == old(frameStack)
    {
      var target;
      if completion.phase.BeforeFrameEnd? {
        target := Callbacks.Top(frameStack);
      } else {
        target := lastFinishedFrame;
        lastFinishedFrame := None;
      }
      if target.None? || target.value >= |frames| {
        valid := false;
        return;
      }
      var members := frames[target.value].members;
      FirstCompletionNone(members);
      for i := 0 to |members|
        invariant forall j :: 0 <= j < i ==> !members[j].SubcallCompletion?
      {
        if members[i].SubcallCompletion? {
          valid := false;
          return;
        }
      }
      journalLogCount := completion.postLogCount;
      frames := Callbacks.AddMember(frames, target.value, Member.SubcallCompletion(completion));
    }

    method PushEvent(log: Log)
      modifies this
      ensures View() == Callbacks.PushEvent(old(View()), log)
      ensures valid <==> old(valid) && old(TopKnown())
      ensures old(frameStack) == [] ==> events == old(events)
      ensures old(frameStack) != [] ==>
                events == old(events) + [CapturedEvent(old(frameStack)[|old(frameStack)| - 1], log)]
      ensures old(TopKnown()) ==>
                |frames| == |old(frames)| && GainsMember(old(frames), frames, old(frameStack), Event(|old(events)|))
      ensures !old(TopKnown()) ==> frames == old(frames)
      ensures frameStack == old(frameStack) && journalLogCount == old(journalLogCount)
      ensures lastFinishedFrame == old(lastFinishedFrame)
    {
      if frameStack == [] {
        valid := false;
        return;
      }
      var frameId := frameStack[|frameStack| - 1];
      var eventId := |events|;
      events := events + [CapturedEvent(frameId, log)];
      if frameId < |frames| {
        frames := Callbacks.AddMember(frames, frameId, Event(eventId));
      } else {
        valid := false;
      }
    }

    method SyncJournal(journal: seq<Log>)
      modifies this
      ensures View() == Callbacks.SyncJournal(old(View()), journal)
      ensures journalLogCount == |journal|
      ensures |journal| <= old(journalLogCount) ==>
                events == old(events) && frames == old(frames) && valid == old(valid)
      ensures |journal| > old(journalLogCount) && old(frameStack) != [] ==>
                events == old(events) + Tagged(old(frameStack)[|old(frameStack)| - 1], journal[old(journalLogCount)..])
      ensures |journal| > old(journalLogCount) ==> (valid <==> old(valid) && old(TopKnown()))
      ensures frameStack == old(frameStack) && lastFinishedFrame == old(lastFinishedFrame)
    {
      hide GainsMember, Callbacks.PushEvent, Tagged;
      if |journal| < journalLogCount {
        journalLogCount := |journal|;
        return;
      }
      var newLogs := journal[journalLogCount..];
      journalLogCount := |journal|;
      ghost var start := View();
      if frameStack != [] {
        TaggedNothing(frameStack[|frameStack| - 1], newLogs);
      }
      for i := 0 to |newLogs|
        invariant View() == Callbacks.PushEvents(start, newLogs[..i])
        invariant frameStack == old(frameStack) && lastFinishedFrame == old(lastFinishedFrame)
        invariant journalLogCount == |journal| && |frames| == |old(frames)|
        invariant i == 0 ==> events == old(events) && frames == old(frames)
        invariant frameStack != [] ==> events == old(events) + Tagged(frameStack[|frameStack| - 1], newLogs[..i])
        invariant valid == if i == 0 then old(valid) else old(valid) && old(TopKnown())
      {
        assert newLogs[..i + 1][..i] == newLogs[..i];
        if frameStack != [] {
          TaggedAppend(frameStack[|frameStack| - 1], newLogs, i);
        }
        PushEvent(newLogs[i]);
      }
      assert newLogs[..|newLogs|] == newLogs;
    }

    /** The log callback: the journal may already hold logs that later callbacks deliver. */
    method CaptureCallbackLog(journal: seq<Log>, log: Log)
      modifies this
      ensures View() == Callbacks.CaptureCallbackLog(old(View()), journal, log)
      ensures journalLogCount == |journal| && (valid <==> old(valid) && old(TopKnown()))
      ensures old(frameStack) != [] ==>
                events == old(events) + [CapturedEvent(old(frameStack)[|old(frameStack)| - 1], log)]
    {
      PushEvent(log);
      journalLogCount := |journal|;
    }

    /** The `call` and `create` callbacks. */
    method FrameStart(journal: seq<Log>)
      modifies this
      ensures View() == Callbacks.FrameStart(old(View()), journal)
    {
      SyncJournal(journal);
      PushFrame();
    }

    /** The `call_end` and `create_end` callbacks. */
    method FrameEnd(journal: seq<Log>, success: bool)
      modifies this
      ensures View() == Callbacks.FrameEnd(old(View()), journal, success)
    {
      SyncJournal(journal);
      FinishFrame(success);
    }

    method IntoCaptured() returns (captured: Captured)
      modifies this
      ensures captured == Callbacks.IntoCaptured(old(View()))
      ensures captured.frames == old(frames) && captured.events == old(events)
      ensures captured.valid <==> old(valid) && old(frameStack) == []
    {
      if frameStack != [] {
        valid := false;
      }
      captured := Captured(frames, events, valid);
    }
  }
}
