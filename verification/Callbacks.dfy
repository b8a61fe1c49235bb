/** What each inspector callback does to the inspector's state, as functions on values. */
module Callbacks {
  import opened Basics
  import opened Capture

  datatype State = State(
    frames: seq<Frame>,
    events: seq<CapturedEvent>,
    valid: bool,
    stack: seq<nat>,
    cursor: nat,
    lastFinished: Option<nat>)

  const FRESH: State := State([], [], true, [], 0, None)

  function Top(stack: seq<nat>): Option<nat> {
    if stack == [] then None else Some(stack[|stack| - 1])
  }

  function AddMember(frames: seq<Frame>, f: nat, m: Member): (r: seq<Frame>)
    requires f < |frames|
  {
    frames[f := frames[f].(members := frames[f].members + [m])]
  }

  function PushFrame(s: State): State {
    var parent := Top(s.stack);
    var id := |s.frames|;
    var linked := parent.Some? && parent.value < |s.frames|;
    var frames := if linked then AddMember(s.frames, parent.value, Call(id)) else s.frames;
    s.(frames := frames + [Frame(parent, [], false)],
       valid := s.valid && (parent.Some? ==> linked),
       stack := s.stack + [id])
  }

  function FinishFrame(s: State, success: bool): State {
    if s.stack == [] then s.(valid := false)
    else
      var id := s.stack[|s.stack| - 1];
      var popped := s.(stack := s.stack[..|s.stack| - 1]);
      if id < |s.frames| then
        popped.(frames := s.frames[id := s.frames[id].(success := success)], lastFinished := Some(id))
      else
        popped.(valid := false)
  }

  function RecordCompletion(s: State, c: Completion): State {
    var target := match c.phase
      case BeforeFrameEnd => Top(s.stack)
      case AfterFrameEnd => s.lastFinished;
    var taken := if c.phase.AfterFrameEnd? then s.(lastFinished := None) else s;
    if target.None? || target.value >= |s.frames| || s.frames[target.value].SubcallCompletion().Some? then
      taken.(valid := false)
    else
      taken.(cursor := c.postLogCount,
             frames := AddMember(s.frames, target.value, SubcallCompletion(c)))
  }

  function PushEvent(s: State, log: Log): State {
    if s.stack == [] then s.(valid := false)
    else
      var f := s.stack[|s.stack| - 1];
      var captured := s.(events := s.events + [CapturedEvent(f, log)]);
      if f < |s.frames| then captured.(frames := AddMember(s.frames, f, Event(|s.events|)))
      else captured.(valid := false)
  }

  function PushEvents(s: State, logs: seq<Log>): State {
    if logs == [] then s
    else PushEvent(PushEvents(s, logs[..|logs| - 1]), logs[|logs| - 1])
  }

  function SyncJournal(s: State, journal: seq<Log>): State {
    if |journal| < s.cursor then s.(cursor := |journal|)
    else PushEvents(s.(cursor := |journal|), journal[s.cursor..])
  }

  function CaptureCallbackLog(s: State, journal: seq<Log>, log: Log): State {
    PushEvent(s, log).(cursor := |journal|)
  }

  function FrameStart(s: State, journal: seq<Log>): State {
    PushFrame(SyncJournal(s, journal))
  }

  function FrameEnd(s: State, journal: seq<Log>, success: bool): State {
    FinishFrame(SyncJournal(s, journal), success)
  }

  function IntoCaptured(s: State): Captured {
    Captured(s.frames, s.events, s.valid && s.stack == [])
  }
}
