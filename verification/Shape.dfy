/** What every inspector callback keeps of the frame tree. */
module Shape {
  import opened Basics
  import opened Capture
  import opened Callbacks
  import opened Traversal

  /** Every frame after `f` is below `f`. */
  ghost predicate Under(frames: seq<Frame>, f: nat) {
    forall g :: f < g < |frames| ==> frames[g].parent.Some? && frames[g].parent.value >= f
  }

  ghost predicate Shaped(s: State) {
    && s.valid
    && WellFormed(s.frames, s.events)
    && Spine(s.frames, s.stack)
    && (forall k :: 0 <= k < |s.stack| ==> Under(s.frames, s.stack[k]))
  }

  /** Same frames apart from their Call and Event members. */
  ghost predicate SameVerdicts(frames: seq<Frame>, frames': seq<Frame>) {
    && |frames| == |frames'|
    && forall f :: 0 <= f < |frames| ==>
         && frames'[f].parent == frames[f].parent
         && frames'[f].success == frames[f].success
         && Completions(frames'[f].members) == Completions(frames[f].members)
  }

  lemma {:induction false} SameVerdictsTransitive(a: seq<Frame>, b: seq<Frame>, c: seq<Frame>)
    requires SameVerdicts(a, b) && SameVerdicts(b, c)
    ensures SameVerdicts(a, c)
  {
    hide Completions;
  }

  lemma {:induction false} SameVerdictsReflexive(a: seq<Frame>)
    ensures SameVerdicts(a, a)
  {
  }

  lemma {:induction false} FirstOfCompletions(members: seq<Member>)
    ensures FirstCompletion(members) ==
            if Completions(members) == [] then None else Some(Completions(members)[0])
  {
    if members != [] {
      var n := |members| - 1;
      assert members == members[..n] + [members[n]];
      FirstOfCompletions(members[..n]);
      FirstCompletionAppend(members[..n], members[n]);
    }
  }

  lemma {:induction false} CompletionsAppend(members: seq<Member>, m: Member)
    ensures Completions(members + [m]) == Completions(members) + if m.SubcallCompletion? then [m.completion] else []
  {
    assert (members + [m])[..|members|] == members;
  }

  /** The open frames form an increasing chain from frame 0 to the top one. */
  lemma {:induction false} StackFacts(s: State)
    requires Shaped(s) && s.stack != []
    ensures s.stack[0] == 0
    ensures s.stack[|s.stack| - 1] < |s.frames|
    ensures forall k :: 0 <= k < |s.stack| - 1 ==> s.stack[k] < s.stack[|s.stack| - 1]
  {
    forall k | 0 <= k < |s.stack| - 1
      ensures s.stack[k] < s.stack[|s.stack| - 1]
    {
      SpineIncreasing(s.frames, s.events, s.stack, k, |s.stack| - 1);
    }
  }

  /** Adding `m` to frame `f`, and possibly new memberless frames, keeps the links. */
  lemma {:induction false} AddMemberLinked(frames: seq<Frame>, events: seq<CapturedEvent>, f: nat, m: Member,
          extra: seq<Frame>, events': seq<CapturedEvent>)
    requires Linked(frames, events) && events <= events' && f < |frames|
    requires forall i :: 0 <= i < |extra| ==> extra[i].members == []
    requires LinkedMember(AddMember(frames, f, m) + extra, events', f, m)
    ensures Linked(AddMember(frames, f, m) + extra, events')
  {
    var frames' := AddMember(frames, f, m) + extra;
    forall g, i | 0 <= g < |frames'| && 0 <= i < |frames'[g].members|
      ensures LinkedMember(frames', events', g, frames'[g].members[i])
    {
      if g < |frames| && i < |frames[g].members| {
        assert LinkedMember(frames, events, g, frames[g].members[i]);
      }
    }
  }

  lemma {:induction false} AddMemberAscending(frames: seq<Frame>, f: nat, m: Member, extra: seq<Frame>)
    requires Ascending(frames) && f < |frames|
    requires forall i :: 0 <= i < |extra| ==> extra[i].members == []
    requires forall i :: 0 <= i < |frames[f].members| ==> InOrder(frames[f].members[i], m)
    ensures Ascending(AddMember(frames, f, m) + extra)
  {
    var frames' := AddMember(frames, f, m) + extra;
    forall g, i, j | 0 <= g < |frames'| && 0 <= i < j < |frames'[g].members|
      ensures InOrder(frames'[g].members[i], frames'[g].members[j])
    {
      if j < |frames[g].members| {
        assert InOrder(frames[g].members[i], frames[g].members[j]);
      }
    }
  }

  lemma {:induction false} AddMemberListed(frames: seq<Frame>, events: seq<CapturedEvent>, f: nat, m: Member,
          extra: seq<Frame>)
    requires AllListed(frames, events) && f < |frames|
    ensures var frames' := AddMember(frames, f, m) + extra;
            && (forall g :: 0 < g < |frames| ==>
                  frames'[g].parent.Some? && frames'[g].parent.value < |frames| &&
                  Call(g) in frames'[frames'[g].parent.value].members)
            && (forall e :: 0 <= e < |events| ==> Event(e) in frames'[events[e].frame].members)
            && m in frames'[f].members
  {
    var frames' := AddMember(frames, f, m) + extra;
    assert forall g, x :: 0 <= g < |frames| && x in frames[g].members ==> x in frames'[g].members;
    assert frames'[f].members[|frames[f].members|] == m;
  }

  /** A member added to the top open frame appears at the very end of the whole walk. */
  lemma {:induction false} AddMemberWalk(s: State, m: Member, extra: seq<Frame>, v: Visit)
    requires Shaped(s) && s.stack != []
    requires match m
             case Call(c) => c == |s.frames| && |extra| == 1 && extra[0].members == [] && v == Enter(c)
             case Event(e) => extra == [] && v == Emit(e)
             case SubcallCompletion(_) => false
    ensures var top := s.stack[|s.stack| - 1];
            top < |s.frames| && Walk(AddMember(s.frames, top, m) + extra, 0) == Walk(s.frames, 0) + [v]
  {
    hide WalkInOrder, AllListed, SingleRoot, Under;
    StackFacts(s);
    var top := s.stack[|s.stack| - 1];
    var frames' := AddMember(s.frames, top, m) + extra;
    var n := |s.frames[top].members|;
    assert frames'[top].members == s.frames[top].members + [m];
    WalkOnSpine(s.frames, frames', s.events, s.stack, |s.stack| - 1, n);
    if m.Call? {
      assert Walk(frames', m.frame) == [v];
    }
    assert WalkMember(frames', top, n) == [v];
    assert WalkMembers(frames', top, n + 1) == WalkMembers(s.frames, top, n) + [v];
    assert Walk(frames', top) == Walk(s.frames, top) + [v];
    WalkGrowsAtEnd(s.frames, frames', s.events, s.stack, 0, [v]);
  }

  lemma {:induction false} WalkExtended(frames: seq<Frame>, events: seq<CapturedEvent>, frames': seq<Frame>,
          events': seq<CapturedEvent>, v: Visit)
    requires WalkInOrder(frames, events) && |frames| > 0 && |frames'| > 0
    requires Walk(frames', 0) == Walk(frames, 0) + [v]
    requires match v
             case Enter(f) => f == |frames| && |frames'| == f + 1 && |events'| == |events|
             case Emit(e) => e == |events| && |events'| == e + 1 && |frames'| == |frames|
    ensures WalkInOrder(frames', events')
  {
    hide Walk;
    ProjectionsConcat(Walk(frames, 0), [v]);
    assert [v][..0] == [];
    assert FramesOf([v]) == if v.Enter? then [v.frame] else [];
    assert EventsOf([v]) == if v.Emit? then [v.event] else [];
  }

  lemma {:induction false} NewMemberInOrder(frames: seq<Frame>, events: seq<CapturedEvent>, f: nat, m: Member)
    requires Linked(frames, events) && f < |frames|
    requires m.Call? ==> m.frame == |frames|
    requires m.Event? ==> m.event == |events|
    ensures forall i :: 0 <= i < |frames[f].members| ==> InOrder(frames[f].members[i], m)
  {
    forall i | 0 <= i < |frames[f].members|
      ensures InOrder(frames[f].members[i], m)
    {
      assert LinkedMember(frames, events, f, frames[f].members[i]);
    }
  }

  lemma {:induction false} RootAloneWellFormed(root: Frame)
    requires root.parent == None && root.members == []
    ensures WellFormed([root], [])
  {
    assert WalkInOrder([root], []) by {
      assert Walk([root], 0) == [Enter(0)];
      assert [Enter(0)][..0] == [];
      assert FramesOf([Enter(0)]) == [0] == Range(1);
      assert EventsOf([Enter(0)]) == [] == Range(0);
    }
    hide WalkInOrder;
  }

  lemma {:induction false} RootAloneSpine(root: Frame)
    requires root.parent == None
    ensures Spine([root], [0]) && Under([root], 0)
  {
  }

  lemma {:induction false} NothingBeforeRoot(s: State)
    requires Shaped(s) && s.frames == []
    ensures s.valid && s.events == []
  {
    hide Linked, SingleRoot, Ascending, AllListed, WalkInOrder, Spine, Under;
  }

  lemma {:induction false} FirstFrameKeeps(s: State)
    requires Shaped(s) && s.stack == [] && s.frames == []
    ensures Shaped(PushFrame(s))
  {
    hide WellFormed, AddMember, Spine, Under;
    var root := Frame(None, [], false);
    NothingBeforeRoot(s);
    RootAloneWellFormed(root);
    RootAloneSpine(root);
    var s' := PushFrame(s);
    assert s'.frames == [root] && s'.stack == [0] && s'.events == [];
  }

  lemma {:induction false} PushFrameKeeps(s: State)
    requires Shaped(s) && (s.stack == [] ==> s.frames == [])
    ensures Shaped(PushFrame(s))
  {
    hide Shaped;
    if s.stack == [] {
      FirstFrameKeeps(s);
    } else {
      NestedFrameKeeps(s);
    }
  }

  lemma {:induction false} NestedFrameKeeps(s: State)
    requires Shaped(s) && s.stack != []
    ensures Shaped(PushFrame(s))
  {
    StackFacts(s);
    PushFrameWalk(s);
    hide Linked, Ascending, AllListed, SingleRoot, WalkInOrder, Spine, Under;
    var frames' := PushFrame(s).frames;
    PushFrameLinks(s.frames, s.events, s.stack[|s.stack| - 1], frames');
    PushFrameSpine(s.frames, s.stack, frames');
  }

  lemma {:induction false} PushFrameWalk(s: State)
    requires Shaped(s) && s.stack != []
    ensures WalkInOrder(PushFrame(s).frames, PushFrame(s).events)
  {
    StackFacts(s);
    var s' := PushFrame(s);
    var top, id := s.stack[|s.stack| - 1], |s.frames|;
    var extra := [Frame(Some(top), [], false)];
    assert s'.frames == AddMember(s.frames, top, Call(id)) + extra;
    AddMemberWalk(s, Call(id), extra, Enter(id));
    hide Linked, Ascending, AllListed, SingleRoot, Spine, Under;
    WalkExtended(s.frames, s.events, s'.frames, s'.events, Enter(id));
  }

  lemma {:induction false} PushFrameRoots(frames: seq<Frame>, top: nat, frames': seq<Frame>)
    requires SingleRoot(frames) && top < |frames|
    requires frames' == AddMember(frames, top, Call(|frames|)) + [Frame(Some(top), [], false)]
    ensures SingleRoot(frames')
  {
  }

  lemma {:induction false} PushFrameListed(frames: seq<Frame>, events: seq<CapturedEvent>, top: nat,
          frames': seq<Frame>)
    requires AllListed(frames, events) && top < |frames|
    requires frames' == AddMember(frames, top, Call(|frames|)) + [Frame(Some(top), [], false)]
    ensures AllListed(frames', events)
  {
    AddMemberListed(frames, events, top, Call(|frames|), [Frame(Some(top), [], false)]);
  }

  lemma {:induction false} PushFrameLinks(frames: seq<Frame>, events: seq<CapturedEvent>, top: nat, frames': seq<Frame>)
    requires Linked(frames, events) && SingleRoot(frames) && Ascending(frames) && AllListed(frames, events)
    requires top < |frames|
    requires frames' == AddMember(frames, top, Call(|frames|)) + [Frame(Some(top), [], false)]
    ensures Linked(frames', events) && SingleRoot(frames') && Ascending(frames') && AllListed(frames', events)
  {
    hide Linked, Ascending, SingleRoot, AllListed;
    var extra := [Frame(Some(top), [], false)];
    AddMemberLinked(frames, events, top, Call(|frames|), extra, events);
    NewMemberInOrder(frames, events, top, Call(|frames|));
    AddMemberAscending(frames, top, Call(|frames|), extra);
    PushFrameListed(frames, events, top, frames');
    PushFrameRoots(frames, top, frames');
  }

  /** The open frames stay a spine when only the members of the last of them, or of no one of them, change. */
  lemma {:induction false} SpineKeeps(frames: seq<Frame>, frames': seq<Frame>, stack: seq<nat>, t: nat)
    requires Spine(frames, stack) && |frames| <= |frames'|
    requires forall g :: 0 <= g < |frames| ==> frames'[g].parent == frames[g].parent
    requires forall g :: 0 <= g < |frames| && g != t ==> frames'[g].members == frames[g].members
    requires forall k :: 0 <= k < |stack| - 1 ==> stack[k] != t
    ensures Spine(frames', stack)
  {
    forall i, j | 0 <= i < j < |stack| && j == i + 1
      ensures SpineLink(frames', stack[i], stack[j])
    {
      assert SpineLink(frames, stack[i], stack[j]);
    }
  }

  lemma {:induction false} SpinePush(frames: seq<Frame>, stack: seq<nat>, id: nat)
    requires Spine(frames, stack) && stack != []
    requires SpineLink(frames, stack[|stack| - 1], id)
    ensures Spine(frames, stack + [id])
  {
    forall i, j | 0 <= i < j < |stack + [id]| && j == i + 1
      ensures SpineLink(frames, (stack + [id])[i], (stack + [id])[j])
    {
      if j < |stack| {
        assert SpineLink(frames, stack[i], stack[j]);
      }
    }
  }

  lemma {:induction false} UnderKeeps(frames: seq<Frame>, frames': seq<Frame>, stack: seq<nat>)
    requires forall k :: 0 <= k < |stack| ==> Under(frames, stack[k])
    requires |frames| <= |frames'|
    requires forall g :: 0 <= g < |frames| ==> frames'[g].parent == frames[g].parent
    requires forall k, g :: 0 <= k < |stack| && |frames| <= g < |frames'| ==>
               frames'[g].parent.Some? && frames'[g].parent.value >= stack[k]
    ensures forall k :: 0 <= k < |stack| ==> Under(frames', stack[k])
  {
    forall k | 0 <= k < |stack|
      ensures Under(frames', stack[k])
    {
      assert Under(frames, stack[k]);
    }
  }

  lemma {:induction false} PushFrameSpine(frames: seq<Frame>, stack: seq<nat>, frames': seq<Frame>)
    requires Spine(frames, stack) && stack != []
    requires forall k :: 0 <= k < |stack| ==> Under(frames, stack[k])
    requires forall k :: 0 <= k < |stack| - 1 ==> stack[k] < stack[|stack| - 1]
    requires frames' ==
             AddMember(frames, stack[|stack| - 1], Call(|frames|)) + [Frame(Some(stack[|stack| - 1]), [], false)]
    ensures Spine(frames', stack + [|frames|])
    ensures forall k :: 0 <= k <= |stack| ==> Under(frames', (stack + [|frames|])[k])
  {
    SpineKeeps(frames, frames', stack, stack[|stack| - 1]);
    UnderKeeps(frames, frames', stack);
    SpinePush(frames', stack, |frames|);
    hide Spine;
  }

  lemma {:induction false} PushEventWalk(s: State, log: Log)
    requires Shaped(s) && s.stack != []
    ensures WalkInOrder(PushEvent(s, log).frames, PushEvent(s, log).events)
  {
    StackFacts(s);
    var s' := PushEvent(s, log);
    var top, id := s.stack[|s.stack| - 1], |s.events|;
    assert s'.frames == AddMember(s.frames, top, Event(id)) + [];
    AddMemberWalk(s, Event(id), [], Emit(id));
    hide Linked, Ascending, AllListed, SingleRoot, Spine, Under;
    WalkExtended(s.frames, s.events, s'.frames, s'.events, Emit(id));
  }

  lemma {:induction false} PushEventKeeps(s: State, log: Log)
    requires Shaped(s) && s.stack != []
    ensures var s' := PushEvent(s, log);
            && Shaped(s')
            && SameVerdicts(s.frames, s'.frames)
            && s'.events == s.events + [CapturedEvent(s.stack[|s.stack| - 1], log)]
            && s'.stack == s.stack && s'.cursor == s.cursor && s'.lastFinished == s.lastFinished
  {
    StackFacts(s);
    PushEventLinks(s, log);
    PushEventSpine(s, log);
    PushEventWalk(s, log);
    AddMemberVerdicts(s.frames, s.stack[|s.stack| - 1], Event(|s.events|));
    hide Linked, Ascending, AllListed, SingleRoot, Spine, Under, WalkInOrder, SameVerdicts;
  }

  lemma {:induction false} AddMemberVerdicts(frames: seq<Frame>, f: nat, m: Member)
    requires f < |frames| && !m.SubcallCompletion?
    ensures SameVerdicts(frames, AddMember(frames, f, m))
  {
    CompletionsAppend(frames[f].members, m);
    hide Completions;
  }

  lemma {:induction false} PushEventRoots(frames: seq<Frame>, top: nat, m: Member)
    requires SingleRoot(frames) && top < |frames|
    ensures SingleRoot(AddMember(frames, top, m))
  {
  }

  lemma {:induction false} PushEventListed(frames: seq<Frame>, events: seq<CapturedEvent>, top: nat, log: Log)
    requires AllListed(frames, events) && top < |frames|
    ensures AllListed(AddMember(frames, top, Event(|events|)), events + [CapturedEvent(top, log)])
  {
    AddMemberListed(frames, events, top, Event(|events|), []);
    assert AddMember(frames, top, Event(|events|)) + [] == AddMember(frames, top, Event(|events|));
  }

  lemma {:induction false} NewEventLinks(frames: seq<Frame>, events: seq<CapturedEvent>, top: nat, log: Log)
    requires Linked(frames, events) && SingleRoot(frames) && Ascending(frames) && AllListed(frames, events)
    requires top < |frames|
    ensures var frames', events' := AddMember(frames, top, Event(|events|)), events + [CapturedEvent(top, log)];
            Linked(frames', events') && SingleRoot(frames') && Ascending(frames') && AllListed(frames', events')
  {
    hide Linked, Ascending, SingleRoot, AllListed;
    var frames', events' := AddMember(frames, top, Event(|events|)), events + [CapturedEvent(top, log)];
    assert frames' + [] == frames';
    AddMemberLinked(frames, events, top, Event(|events|), [], events');
    NewMemberInOrder(frames, events, top, Event(|events|));
    AddMemberAscending(frames, top, Event(|events|), []);
    PushEventRoots(frames, top, Event(|events|));
    PushEventListed(frames, events, top, log);
  }

  lemma {:induction false} PushEventLinks(s: State, log: Log)
    requires Shaped(s) && s.stack != []
    ensures var s' := PushEvent(s, log);
            && Linked(s'.frames, s'.events) && SingleRoot(s'.frames) && Ascending(s'.frames)
            && AllListed(s'.frames, s'.events)
  {
    hide WalkInOrder, Under, Linked, Ascending, SingleRoot, AllListed, Spine;
    StackFacts(s);
    NewEventLinks(s.frames, s.events, s.stack[|s.stack| - 1], log);
  }

  lemma {:induction false} PushEventSpine(s: State, log: Log)
    requires Shaped(s) && s.stack != []
    ensures var s' := PushEvent(s, log);
            && Spine(s'.frames, s'.stack)
            && (forall k :: 0 <= k < |s'.stack| ==> Under(s'.frames, s'.stack[k]))
  {
    StackFacts(s);
    hide WellFormed;
    var s' := PushEvent(s, log);
    SpineKeeps(s.frames, s'.frames, s.stack, s.stack[|s.stack| - 1]);
    UnderKeeps(s.frames, s'.frames, s.stack);
  }

  /** The events a run of pushes adds, all of them to frame `f`. */
  function Tagged(f: nat, logs: seq<Log>): seq<CapturedEvent> {
    seq(|logs|, i requires 0 <= i < |logs| => CapturedEvent(f, logs[i]))
  }

  lemma {:induction false} PushEventsKeeps(s: State, logs: seq<Log>)
    requires Shaped(s) && (logs != [] ==> s.stack != [])
    ensures var s' := PushEvents(s, logs);
            && Shaped(s')
            && SameVerdicts(s.frames, s'.frames)
            && s'.events == (if logs == [] then s.events else s.events + Tagged(s.stack[|s.stack| - 1], logs))
            && s'.stack == s.stack && s'.cursor == s.cursor && s'.lastFinished == s.lastFinished
  {
    hide Shaped, SameVerdicts, PushEvent;
    if logs == [] {
      SameVerdictsReflexive(s.frames);
    } else {
      var before := logs[..|logs| - 1];
      PushEventsKeeps(s, before);
      PushEventKeeps(PushEvents(s, before), logs[|logs| - 1]);
      SameVerdictsTransitive(s.frames, PushEvents(s, before).frames, PushEvents(s, logs).frames);
      var top := s.stack[|s.stack| - 1];
      assert Tagged(top, logs) == Tagged(top, before) + [CapturedEvent(top, logs[|logs| - 1])];
    }
  }

  /** Frames that differ at most in their success flags and in completions form the same tree. */
  ghost predicate SameTree(frames: seq<Frame>, frames': seq<Frame>) {
    && |frames| == |frames'|
    && forall f :: 0 <= f < |frames| ==>
         frames'[f].parent == frames[f].parent && SameUpToCompletion(frames[f].members, frames'[f].members)
  }

  lemma {:induction false} SameTreeLinked(frames: seq<Frame>, frames': seq<Frame>, events: seq<CapturedEvent>)
    requires SameTree(frames, frames') && Linked(frames, events)
    ensures Linked(frames', events)
  {
    forall f, i | 0 <= f < |frames'| && 0 <= i < |frames'[f].members|
      ensures LinkedMember(frames', events, f, frames'[f].members[i])
    {
      if i < |frames[f].members| {
        assert frames'[f].members[i] == frames[f].members[i];
        assert LinkedMember(frames, events, f, frames[f].members[i]);
      }
    }
  }

  lemma {:induction false} SameTreeLinks(frames: seq<Frame>, frames': seq<Frame>, events: seq<CapturedEvent>)
    requires SameTree(frames, frames')
    requires Linked(frames, events) && SingleRoot(frames) && AllListed(frames, events)
    ensures Linked(frames', events) && SingleRoot(frames') && AllListed(frames', events)
  {
    hide Linked;
    SameTreeLinked(frames, frames', events);
    forall f, m | 0 <= f < |frames| && m in frames[f].members
      ensures m in frames'[f].members
    {
      var i :| 0 <= i < |frames[f].members| && frames[f].members[i] == m;
      assert frames'[f].members[..|frames[f].members|][i] == m;
    }
  }

  lemma {:induction false} SameTreeAscending(frames: seq<Frame>, frames': seq<Frame>)
    requires SameTree(frames, frames') && Ascending(frames)
    ensures Ascending(frames')
  {
    forall f, i, j | 0 <= f < |frames'| && 0 <= i < j < |frames'[f].members|
      ensures InOrder(frames'[f].members[i], frames'[f].members[j])
    {
      assert SameUpToCompletion(frames[f].members, frames'[f].members);
      if j < |frames[f].members| {
        assert frames'[f].members[i] == frames[f].members[i];
        assert frames'[f].members[j] == frames[f].members[j];
        assert InOrder(frames[f].members[i], frames[f].members[j]);
      }
    }
  }

  lemma {:induction false} SameTreeWellFormed(frames: seq<Frame>, frames': seq<Frame>, events: seq<CapturedEvent>)
    requires SameTree(frames, frames') && WellFormed(frames, events)
    ensures WellFormed(frames', events)
  {
    SameTreeLinks(frames, frames', events);
    SameTreeAscending(frames, frames');
    hide Linked, AllListed, Ascending, SingleRoot;
    if frames != [] {
      WalkUnchanged(frames, frames', 0);
    }
  }

  lemma {:induction false} FlagSameTree(frames: seq<Frame>, id: nat, success: bool)
    requires id < |frames|
    ensures SameTree(frames, frames[id := frames[id].(success := success)])
  {
  }

  lemma {:induction false} PoppedSpine(frames: seq<Frame>, frames': seq<Frame>, stack: seq<nat>, n: nat)
    requires Spine(frames, stack) && SameTree(frames, frames') && n <= |stack|
    requires forall f :: 0 <= f < |frames| ==> frames'[f].members == frames[f].members
    requires forall k :: 0 <= k < |stack| ==> Under(frames, stack[k])
    ensures Spine(frames', stack[..n]) && forall k :: 0 <= k < n ==> Under(frames', stack[..n][k])
  {
    forall i, j | 0 <= i < j < n && j == i + 1
      ensures SpineLink(frames', stack[..n][i], stack[..n][j])
    {
      assert SpineLink(frames, stack[i], stack[j]);
    }
    forall k | 0 <= k < n
      ensures Under(frames', stack[..n][k])
    {
      assert Under(frames, stack[k]);
    }
  }

  lemma {:induction false} FinishFrameKeeps(s: State, success: bool)
    requires Shaped(s) && s.stack != []
    ensures Shaped(FinishFrame(s, success))
  {
    hide WellFormed, Spine, Under, SameTree;
    StackFacts(s);
    var id := s.stack[|s.stack| - 1];
    var frames' := s.frames[id := s.frames[id].(success := success)];
    FlagSameTree(s.frames, id, success);
    SameTreeWellFormed(s.frames, frames', s.events);
    PoppedSpine(s.frames, frames', s.stack, |s.stack| - 1);
  }

  lemma {:induction false} RecordCompletionKeeps(s: State, c: Completion, f: nat)
    requires Shaped(s) && f < |s.frames|
    requires (if c.phase.BeforeFrameEnd? then Top(s.stack) else s.lastFinished) == Some(f)
    requires Completions(s.frames[f].members) == []
    requires f in s.stack ==> f == s.stack[|s.stack| - 1]
    ensures var s' := RecordCompletion(s, c);
            && Shaped(s')
            && s'.frames == AddMember(s.frames, f, SubcallCompletion(c))
            && s'.stack == s.stack && s'.events == s.events && s'.cursor == c.postLogCount
            && Completions(s'.frames[f].members) == [c]
  {
    hide WellFormed, Spine, Under, FirstCompletion, Completions;
    FirstOfCompletions(s.frames[f].members);
    CompletionsAppend(s.frames[f].members, SubcallCompletion(c));
    if s.stack != [] {
      StackFacts(s);
    }
    var s' := RecordCompletion(s, c);
    assert s'.frames == AddMember(s.frames, f, SubcallCompletion(c));
    AddedCompletionWellFormed(s.frames, s.events, f, c);
    SpineKeeps(s.frames, s'.frames, s.stack, f);
    UnderKeeps(s.frames, s'.frames, s.stack);
  }

  lemma {:induction false} AddedCompletionWellFormed(frames: seq<Frame>, events: seq<CapturedEvent>, f: nat,
          c: Completion)
    requires WellFormed(frames, events) && f < |frames|
    ensures WellFormed(AddMember(frames, f, SubcallCompletion(c)), events)
  {
    SameTreeWellFormed(frames, AddMember(frames, f, SubcallCompletion(c)), events);
  }
}
