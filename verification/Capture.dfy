/**
 The data an event inspector hands to the trace builder: one `Frame` per call or
 create, in the order the frames were entered, and one `CapturedEvent` per log, in
 the order the logs were emitted.
 */
module Capture {
  import opened Basics

  /** Debug rendering of a status the error formatter has no own text for. */
  type StatusName = s: string | |s| > 0 witness "CallTooDeep"

  datatype Status =
    | Stop | Return | SelfDestruct
    | Revert
    | OutOfGas | PrecompileOOG | MemoryOOG | MemoryLimitOOG | InvalidOperandOOG | ReentrancySentryOOG
    | OutOfFunds
    | OpcodeNotFound | InvalidFEOpcode
    | StackOverflow
    | InvalidJump
    | PrecompileError
    | OtherFailure(name: StatusName)
  {
    predicate IsOk() {
      Stop? || Return? || SelfDestruct?
    }
  }

  datatype Log = Log(address: nat, topics: seq<nat>, data: seq<nat>)

  datatype Phase = BeforeFrameEnd | AfterFrameEnd

  datatype Completion = Completion(
    childStatus: Status,
    childOutput: seq<nat>,
    childGasUsed: nat,
    childGasLimit: nat,
    finalStatus: Status,
    rolledBack: bool,
    postLogCount: nat,
    phase: Phase)

  datatype Member = Call(frame: nat) | Event(event: nat) | SubcallCompletion(completion: Completion)

  datatype Frame = Frame(parent: Option<nat>, members: seq<Member>, success: bool) {
    function SubcallCompletion(): Option<Completion> {
      FirstCompletion(members)
    }

    predicate RawSuccess() {
      match SubcallCompletion()
      case Some(c) => c.childStatus.IsOk()
      case None => success
    }

    predicate EffectiveSuccess() {
      RawSuccess() && !CompletionRolledBack()
    }

    function RawFailureStatus(): Option<Status> {
      match SubcallCompletion()
      case Some(c) => if c.childStatus.IsOk() then None else Some(c.childStatus)
      case None => None
    }

    predicate CompletionRolledBack() {
      match SubcallCompletion()
      case Some(c) => c.rolledBack
      case None => false
    }
  }

  datatype CapturedEvent = CapturedEvent(frame: nat, log: Log)

  datatype Captured = Captured(frames: seq<Frame>, events: seq<CapturedEvent>, valid: bool)

  function FirstCompletion(members: seq<Member>): Option<Completion> {
    if members == [] then None
    else if members[0].SubcallCompletion? then Some(members[0].completion)
    else FirstCompletion(members[1..])
  }

  /** A completion already present hides every later one. */
  lemma {:induction false} FirstCompletionAppend(members: seq<Member>, m: Member)
    ensures FirstCompletion(members + [m]) ==
            if FirstCompletion(members).Some? then FirstCompletion(members)
            else if m.SubcallCompletion? then Some(m.completion)
            else None
  {
    if members != [] {
      assert (members + [m])[1..] == members[1..] + [m];
      FirstCompletionAppend(members[1..], m);
    }
  }

  lemma {:induction false} FirstCompletionNone(members: seq<Member>)
    ensures FirstCompletion(members).None? <==> forall i :: 0 <= i < |members| ==> !members[i].SubcallCompletion?
  {
    if members != [] {
      FirstCompletionNone(members[1..]);
      assert forall i :: 1 <= i < |members| ==> members[i] == members[1..][i - 1];
    }
  }

  // ----- what survives -----

  /**
   Frame `f` and all its ancestors are effectively successful. A parent link that does
   not point to an earlier frame counts as absent, and an unknown frame as failed.
   */
  predicate PathSuccess(frames: seq<Frame>, f: nat)
    decreases f
  {
    f < |frames| &&
    frames[f].EffectiveSuccess() &&
    (frames[f].parent.Some? && frames[f].parent.value < f ==> PathSuccess(frames, frames[f].parent.value))
  }

  /** Logs of the events whose whole frame path succeeded, in emission order. */
  function SurvivingLogs(frames: seq<Frame>, events: seq<CapturedEvent>): seq<Log> {
    if events == [] then []
    else
      var last := events[|events| - 1];
      SurvivingLogs(frames, events[..|events| - 1]) +
      if PathSuccess(frames, last.frame) then [last.log] else []
  }

  /** Only the parents and the effective verdicts of earlier frames matter to a path. */
  lemma {:induction false} PathSuccessCongruence(frames: seq<Frame>, frames': seq<Frame>, f: nat)
    requires f < |frames| && f < |frames'|
    requires forall g :: 0 <= g <= f ==> frames[g].parent == frames'[g].parent
    requires forall g :: 0 <= g <= f ==> frames[g].EffectiveSuccess() == frames'[g].EffectiveSuccess()
    ensures PathSuccess(frames, f) == PathSuccess(frames', f)
    decreases f
  {
    var p := frames[f].parent;
    if p.Some? && p.value < f {
      PathSuccessCongruence(frames, frames', p.value);
    }
  }

  /** The one-pass computation: verdicts of all frames first, then a filter over the events. */
  method SuccessfulLogs(captured: Captured) returns (logs: seq<Log>)
    ensures logs == SurvivingLogs(captured.frames, captured.events)
  {
    var frames := captured.frames;
    var frameSuccess: seq<bool> := [];
    for i := 0 to |frames|
      invariant |frameSuccess| == i
      invariant forall g :: 0 <= g < i ==> frameSuccess[g] == PathSuccess(frames, g)
    {
      var p := frames[i].parent;
      var parentSuccess := if p.Some? && p.value < |frameSuccess| then frameSuccess[p.value] else true;
      frameSuccess := frameSuccess + [parentSuccess && frames[i].EffectiveSuccess()];
    }
    logs := [];
    for i := 0 to |captured.events|
      invariant logs == SurvivingLogs(frames, captured.events[..i])
    {
      var event := captured.events[i];
      assert captured.events[..i + 1][..i] == captured.events[..i];
      if event.frame < |frameSuccess| && frameSuccess[event.frame] {
        logs := logs + [event.log];
      }
    }
    assert captured.events[..|captured.events|] == captured.events;
  }

  // ----- validation -----

  function Completions(members: seq<Member>): seq<Completion> {
    if members == [] then []
    else
      var last := members[|members| - 1];
      Completions(members[..|members| - 1]) + if last.SubcallCompletion? then [last.completion] else []
  }

  predicate ConsistentCompletion(frame: Frame, c: Completion) {
    && c.rolledBack == (c.childStatus.IsOk() && !c.finalStatus.IsOk())
    && frame.success == (match c.phase
                         case BeforeFrameEnd => c.finalStatus.IsOk()
                         case AfterFrameEnd => c.childStatus.IsOk())
  }

  predicate ConsistentFrame(frame: Frame) {
    var cs := Completions(frame.members);
    |cs| == 0 || (|cs| == 1 && ConsistentCompletion(frame, cs[0]))
  }

  predicate ValidCapture(captured: Captured, expectedFrames: nat) {
    && captured.valid
    && |captured.frames| == expectedFrames
    && forall f :: 0 <= f < |captured.frames| ==> ConsistentFrame(captured.frames[f])
  }

  datatype ValidationError =
    | InvalidFrameStack
    | FrameCountMismatch(captured: nat, expected: nat)
    | MultipleCompletions(frame: nat)
    | InconsistentCompletion(frame: nat)
    | CompletionSuccessMismatch(frame: nat)

  /** At most one member is a completion. */
  ghost predicate OneCompletionAtMost(members: seq<Member>) {
    forall i, j :: 0 <= i < j < |members| ==> !(members[i].SubcallCompletion? && members[j].SubcallCompletion?)
  }

  /** A completion rolls back exactly a successful child with a failing result, and the flag is the one of its phase. */
  predicate Settled(frame: Frame, c: Completion) {
    && (c.rolledBack <==> c.childStatus.IsOk() && !c.finalStatus.IsOk())
    && (c.phase == BeforeFrameEnd ==> (frame.success <==> c.finalStatus.IsOk()))
    && (c.phase == AfterFrameEnd ==> (frame.success <==> c.childStatus.IsOk()))
  }

  /** What consistency of a frame says about its members. */
  ghost predicate MembersSettled(frame: Frame) {
    OneCompletionAtMost(frame.members) &&
    forall i :: 0 <= i < |frame.members| && frame.members[i].SubcallCompletion? ==>
      Settled(frame, frame.members[i].completion)
  }

  lemma {:induction false} CompletionsListed(members: seq<Member>)
    ensures |Completions(members)| <= 1 <==> OneCompletionAtMost(members)
    ensures forall c :: c in Completions(members) <==> SubcallCompletion(c) in members
    decreases |members|
  {
    if members != [] {
      var n := |members| - 1;
      CompletionsListed(members[..n]);
      assert members == members[..n] + [members[n]];
      if members[n].SubcallCompletion? && Completions(members[..n]) != [] {
        var c := Completions(members[..n])[0];
        assert SubcallCompletion(c) in members[..n];
        var i :| 0 <= i < n && members[i] == SubcallCompletion(c);
        assert !OneCompletionAtMost(members);
      } else if members[n].SubcallCompletion? {
        forall i | 0 <= i < n
          ensures !members[i].SubcallCompletion?
        {
          assert members[..n][i] == members[i] && members[i] in members[..n];
        }
      }
    }
  }

  lemma {:induction false} ConsistencyMeans(frame: Frame)
    ensures ConsistentFrame(frame) <==> MembersSettled(frame)
  {
    hide Completions;
    var cs := Completions(frame.members);
    CompletionsListed(frame.members);
    if ConsistentFrame(frame) {
      forall i | 0 <= i < |frame.members| && frame.members[i].SubcallCompletion?
        ensures Settled(frame, frame.members[i].completion)
      {
        assert frame.members[i].completion in cs;
      }
    } else if |cs| == 1 {
      assert cs[0] in cs;
      var i :| 0 <= i < |frame.members| && frame.members[i] == SubcallCompletion(cs[0]);
    }
  }

  /** Accepts exactly the valid captures; an error about a frame names the first offending one. */
  method Validate(captured: Captured, expectedFrames: nat) returns (r: Result<(), ValidationError>)
    ensures r.Ok? <==> ValidCapture(captured, expectedFrames)
    ensures r.Ok? <==> captured.valid && |captured.frames| == expectedFrames &&
                       forall f :: 0 <= f < |captured.frames| ==> MembersSettled(captured.frames[f])
    ensures r == Err(InvalidFrameStack) <==> !captured.valid
    ensures r.Err? && r.error.FrameCountMismatch? ==>
              r.error.captured == |captured.frames| != expectedFrames == r.error.expected
    ensures r.Err? && r.error.MultipleCompletions? ==>
              r.error.frame < |captured.frames| && !OneCompletionAtMost(captured.frames[r.error.frame].members)
    ensures r.Err? &&
            (r.error.MultipleCompletions? || r.error.InconsistentCompletion? || r.error.CompletionSuccessMismatch?) ==>
              && r.error.frame < |captured.frames|
              && !ConsistentFrame(captured.frames[r.error.frame])
              && forall g :: 0 <= g < r.error.frame ==> ConsistentFrame(captured.frames[g])
  {
    forall f | 0 <= f < |captured.frames|
      ensures ConsistentFrame(captured.frames[f]) <==> MembersSettled(captured.frames[f])
    {
      ConsistencyMeans(captured.frames[f]);
    }
    if !captured.valid {
      return Err(InvalidFrameStack);
    }
    if |captured.frames| != expectedFrames {
      return Err(FrameCountMismatch(|captured.frames|, expectedFrames));
    }
    for f := 0 to |captured.frames|
      invariant forall g :: 0 <= g < f ==> ConsistentFrame(captured.frames[g])
    {
      var frame := captured.frames[f];
      var completions := [];
      for i := 0 to |frame.members|
        invariant completions == Completions(frame.members[..i])
      {
        assert frame.members[..i + 1][..i] == frame.members[..i];
        if frame.members[i].SubcallCompletion? {
          completions := completions + [frame.members[i].completion];
        }
      }
      assert frame.members[..|frame.members|] == frame.members;
      CompletionsListed(frame.members);
      if |completions| > 1 {
        return Err(MultipleCompletions(f));
      }
      if |completions| == 1 {
        var c := completions[0];
        if c.rolledBack != (c.childStatus.IsOk() && !c.finalStatus.IsOk()) {
          return Err(InconsistentCompletion(f));
        }
        var observed := match c.phase
          case BeforeFrameEnd => c.finalStatus.IsOk()
          case AfterFrameEnd => c.childStatus.IsOk();
        if frame.success != observed {
          return Err(CompletionSuccessMismatch(f));
        }
      }
    }
    return Ok(());
  }
}
