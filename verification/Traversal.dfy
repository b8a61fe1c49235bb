/**
 The frame tree behind a capture: its links, and the depth-first walk over frames and
 events that the trace builder follows.
 */
module Traversal {
  import opened Basics
  import opened Capture

  datatype Visit = Enter(frame: nat) | Emit(event: nat)

  /** Frame `f` and everything below it, members in order. */
  ghost function Walk(frames: seq<Frame>, f: nat): seq<Visit>
    requires f < |frames|
    decreases |frames| - f, |frames[f].members| + 1
  {
    [Enter(f)] + WalkMembers(frames, f, |frames[f].members|)
  }

  /** The walk over the first `n` members of frame `f`. */
  ghost function WalkMembers(frames: seq<Frame>, f: nat, n: nat): seq<Visit>
    requires f < |frames| && n <= |frames[f].members|
    decreases |frames| - f, n
  {
    if n == 0 then []
    else WalkMembers(frames, f, n - 1) + WalkMember(frames, f, n - 1)
  }

  ghost function WalkMember(frames: seq<Frame>, f: nat, i: nat): seq<Visit>
    requires f < |frames| && i < |frames[f].members|
    decreases |frames| - f, i
  {
    match frames[f].members[i]
    case Call(c) => if f < c < |frames| then Walk(frames, c) else []
    case Event(e) => [Emit(e)]
    case SubcallCompletion(_) => []
  }

  ghost function FramesOf(walk: seq<Visit>): seq<nat> {
    if walk == [] then []
    else
      var last := walk[|walk| - 1];
      FramesOf(walk[..|walk| - 1]) + if last.Enter? then [last.frame] else []
  }

  ghost function EventsOf(walk: seq<Visit>): seq<nat> {
    if walk == [] then []
    else
      var last := walk[|walk| - 1];
      EventsOf(walk[..|walk| - 1]) + if last.Emit? then [last.event] else []
  }

  /** Every member belongs to the frame that lists it. */
  ghost predicate Linked(frames: seq<Frame>, events: seq<CapturedEvent>) {
    forall f, i :: 0 <= f < |frames| && 0 <= i < |frames[f].members| ==>
      LinkedMember(frames, events, f, frames[f].members[i])
  }

  ghost predicate LinkedMember(frames: seq<Frame>, events: seq<CapturedEvent>, f: nat, m: Member) {
    match m
    case Call(c) => f < c < |frames| && frames[c].parent == Some(f)
    case Event(e) => e < |events| && events[e].frame == f
    case SubcallCompletion(_) => true
  }

  /** Frame 0 is the only root; every other frame has an earlier parent. */
  ghost predicate SingleRoot(frames: seq<Frame>) {
    forall f :: 0 <= f < |frames| ==>
      if f == 0 then frames[f].parent.None?
      else frames[f].parent.Some? && frames[f].parent.value < f
  }

  /** Calls and events come up in increasing order within one frame, so none is listed twice. */
  ghost predicate Ascending(frames: seq<Frame>) {
    forall f, i, j :: 0 <= f < |frames| && 0 <= i < j < |frames[f].members| ==>
      InOrder(frames[f].members[i], frames[f].members[j])
  }

  ghost predicate InOrder(a: Member, b: Member) {
    (a.Call? && b.Call? ==> a.frame < b.frame) && (a.Event? && b.Event? ==> a.event < b.event)
  }

  ghost predicate AllListed(frames: seq<Frame>, events: seq<CapturedEvent>) {
    && (forall f :: 0 < f < |frames| ==>
          frames[f].parent.Some? && frames[f].parent.value < |frames| &&
          Call(f) in frames[frames[f].parent.value].members)
    && (forall e :: 0 <= e < |events| ==>
          events[e].frame < |frames| && Event(e) in frames[events[e].frame].members)
  }

  /** Depth-first order is creation order, for frames and for events alike. */
  ghost predicate WalkInOrder(frames: seq<Frame>, events: seq<CapturedEvent>) {
    |frames| > 0 ==>
      FramesOf(Walk(frames, 0)) == Range(|frames|) && EventsOf(Walk(frames, 0)) == Range(|events|)
  }

  ghost predicate WellFormed(frames: seq<Frame>, events: seq<CapturedEvent>) {
    && Linked(frames, events)
    && SingleRoot(frames)
    && Ascending(frames)
    && AllListed(frames, events)
    && (frames == [] ==> events == [])
    && WalkInOrder(frames, events)
  }

  lemma {:induction false} SamePlace(frames: seq<Frame>, f: nat, i: nat, j: nat)
    requires Ascending(frames) && f < |frames| && i < |frames[f].members| && j < |frames[f].members|
    requires frames[f].members[i] == frames[f].members[j] && !frames[f].members[i].SubcallCompletion?
    ensures i == j
  {
    assert !InOrder(frames[f].members[i], frames[f].members[j]);
  }

  /** Each non-root frame is a Call member in exactly one place, in its parent. */
  lemma {:induction false} CallListedOnce(frames: seq<Frame>, events: seq<CapturedEvent>, f: nat)
    returns (g: nat, i: nat)
    requires WellFormed(frames, events) && 0 < f < |frames|
    ensures g < f && frames[f].parent == Some(g) && i < |frames[g].members| && frames[g].members[i] == Call(f)
    ensures forall g', i' ::
              0 <= g' < |frames| && 0 <= i' < |frames[g'].members| && frames[g'].members[i'] == Call(f) ==>
                g' == g && i' == i
  {
    g := frames[f].parent.value;
    i :| 0 <= i < |frames[g].members| && frames[g].members[i] == Call(f);
    forall g', i' | 0 <= g' < |frames| && 0 <= i' < |frames[g'].members| && frames[g'].members[i'] == Call(f)
      ensures g' == g && i' == i
    {
      assert LinkedMember(frames, events, g', frames[g'].members[i']);
      SamePlace(frames, g, i, i');
    }
  }

  /** Each event is a member in exactly one place, in its own frame. */
  lemma {:induction false} EventListedOnce(frames: seq<Frame>, events: seq<CapturedEvent>, e: nat)
    returns (g: nat, i: nat)
    requires WellFormed(frames, events) && e < |events|
    ensures g < |frames| && events[e].frame == g && i < |frames[g].members| && frames[g].members[i] == Event(e)
    ensures forall g', i' ::
              0 <= g' < |frames| && 0 <= i' < |frames[g'].members| && frames[g'].members[i'] == Event(e) ==>
                g' == g && i' == i
  {
    g := events[e].frame;
    i :| 0 <= i < |frames[g].members| && frames[g].members[i] == Event(e);
    forall g', i' | 0 <= g' < |frames| && 0 <= i' < |frames[g'].members| && frames[g'].members[i'] == Event(e)
      ensures g' == g && i' == i
    {
      assert LinkedMember(frames, events, g', frames[g'].members[i']);
      SamePlace(frames, g, i, i');
    }
  }

  // ----- how the walk changes -----

  lemma {:induction false} ProjectionsConcat(a: seq<Visit>, b: seq<Visit>)
    ensures FramesOf(a + b) == FramesOf(a) + FramesOf(b)
    ensures EventsOf(a + b) == EventsOf(a) + EventsOf(b)
  {
    if b == [] {
      assert a + b == a;
    } else {
      assert (a + b)[..|a + b| - 1] == a + b[..|b| - 1];
      ProjectionsConcat(a, b[..|b| - 1]);
    }
  }

  /** The same members up to completions give the same walk. */
  ghost predicate SameUpToCompletion(members: seq<Member>, members': seq<Member>) {
    members' == members ||
    (|members'| == |members| + 1 && members'[..|members|] == members && members'[|members|].SubcallCompletion?)
  }

  lemma {:induction false} WalkUnchanged(frames: seq<Frame>, frames': seq<Frame>, f: nat)
    requires |frames| == |frames'| && f < |frames|
    requires forall g :: 0 <= g < |frames| ==> SameUpToCompletion(frames[g].members, frames'[g].members)
    ensures Walk(frames', f) == Walk(frames, f)
    decreases |frames| - f, |frames[f].members| + 1
  {
    assert SameUpToCompletion(frames[f].members, frames'[f].members);
    var n := |frames[f].members|;
    WalkMembersUnchanged(frames, frames', f, n);
    assert |frames'[f].members| > n ==> WalkMember(frames', f, n) == [];
  }

  lemma {:induction false} WalkMembersUnchanged(frames: seq<Frame>, frames': seq<Frame>, f: nat, n: nat)
    requires |frames| == |frames'| && f < |frames| && n <= |frames[f].members|
    requires forall g :: 0 <= g < |frames| ==> SameUpToCompletion(frames[g].members, frames'[g].members)
    ensures n <= |frames'[f].members| && WalkMembers(frames', f, n) == WalkMembers(frames, f, n)
    decreases |frames| - f, n
  {
    assert SameUpToCompletion(frames[f].members, frames'[f].members);
    if n > 0 {
      WalkMembersUnchanged(frames, frames', f, n - 1);
      assert frames'[f].members[n - 1] == frames[f].members[n - 1];
      var m := frames[f].members[n - 1];
      if m.Call? && f < m.frame < |frames| {
        WalkUnchanged(frames, frames', m.frame);
      }
    }
  }

  /** A stack of open frames: each one is the parent of the next, and lists it last. */
  ghost predicate Spine(frames: seq<Frame>, stack: seq<nat>) {
    && (forall k :: 0 <= k < |stack| ==> stack[k] < |frames|)
    && (forall i, j :: 0 <= i < j < |stack| && j == i + 1 ==> SpineLink(frames, stack[i], stack[j]))
    && (|stack| > 0 ==> frames[stack[0]].parent.None?)
  }

  ghost predicate SpineLink(frames: seq<Frame>, f: nat, c: nat) {
    && f < |frames| && c < |frames|
    && frames[c].parent == Some(f)
    && |frames[f].members| > 0
    && frames[f].members[|frames[f].members| - 1] == Call(c)
  }

  /** `frames'` extends `frames` and differs, below its length, only in frame `top`'s members. */
  ghost predicate GrownAt(frames: seq<Frame>, frames': seq<Frame>, top: nat) {
    && |frames| <= |frames'|
    && forall g :: 0 <= g < |frames| && g != top ==> frames'[g].members == frames[g].members
  }

  lemma {:induction false} SpineParent(frames: seq<Frame>, stack: seq<nat>, c: nat, f: nat)
    requires Spine(frames, stack)
    requires c < |frames| && frames[c].parent == Some(f)
    ensures c in stack ==> f in stack
  {
    if c in stack {
      var k :| 0 <= k < |stack| && stack[k] == c;
      assert SpineLink(frames, stack[k - 1], stack[k]);
    }
  }

  /** An open frame's only open child is its last member. */
  lemma {:induction false} SpineChildIsLast(frames: seq<Frame>, events: seq<CapturedEvent>, stack: seq<nat>, k: nat,
          i: nat)
    requires Linked(frames, events) && Ascending(frames) && Spine(frames, stack)
    requires k < |stack| && i < |frames[stack[k]].members| && frames[stack[k]].members[i].Call?
    ensures frames[stack[k]].members[i].frame in stack ==> k < |stack| - 1 && i == |frames[stack[k]].members| - 1
  {
    var f := stack[k];
    var c := frames[f].members[i].frame;
    assert LinkedMember(frames, events, f, frames[f].members[i]);
    if c in stack {
      var j :| 0 <= j < |stack| && stack[j] == c;
      assert SpineLink(frames, stack[j - 1], stack[j]);
      SpineDistinct(frames, events, stack, j - 1, k);
    }
  }

  lemma {:induction false} WalkOffSpine(frames: seq<Frame>, frames': seq<Frame>, events: seq<CapturedEvent>,
          stack: seq<nat>, f: nat, n: nat)
    requires Linked(frames, events) && Spine(frames, stack) && stack != []
    requires GrownAt(frames, frames', stack[|stack| - 1])
    requires f < |frames| && f !in stack && n <= |frames[f].members|
    ensures WalkMembers(frames', f, n) == WalkMembers(frames, f, n)
    decreases |frames| - f, n
  {
    if n > 0 {
      WalkOffSpine(frames, frames', events, stack, f, n - 1);
      var m := frames[f].members[n - 1];
      assert LinkedMember(frames, events, f, m);
      if m.Call? {
        SpineParent(frames, stack, m.frame, f);
        WalkOffSpine(frames, frames', events, stack, m.frame, |frames[m.frame].members|);
        assert stack[|stack| - 1] in stack;
        assert Walk(frames', m.frame) == Walk(frames, m.frame);
      }
    }
  }

  lemma {:induction false} WalkOnSpine(frames: seq<Frame>, frames': seq<Frame>, events: seq<CapturedEvent>,
          stack: seq<nat>, k: nat, n: nat)
    requires Linked(frames, events) && Ascending(frames) && Spine(frames, stack)
    requires k < |stack| && GrownAt(frames, frames', stack[|stack| - 1])
    requires n <= |frames[stack[k]].members| && n <= |frames'[stack[k]].members|
    requires frames'[stack[k]].members[..n] == frames[stack[k]].members[..n]
    requires k < |stack| - 1 ==> n < |frames[stack[k]].members|
    ensures WalkMembers(frames', stack[k], n) == WalkMembers(frames, stack[k], n)
    decreases n
  {
    var f := stack[k];
    if n > 0 {
      assert frames'[f].members[..n - 1] == frames[f].members[..n][..n - 1];
      assert frames'[f].members[..n][n - 1] == frames[f].members[..n][n - 1];
      WalkOnSpine(frames, frames', events, stack, k, n - 1);
      var m := frames[f].members[n - 1];
      assert LinkedMember(frames, events, f, m);
      if m.Call? {
        SpineChildIsLast(frames, events, stack, k, n - 1);
        WalkOffSpine(frames, frames', events, stack, m.frame, |frames[m.frame].members|);
        assert stack[|stack| - 1] in stack;
        assert Walk(frames', m.frame) == Walk(frames, m.frame);
      }
    }
  }

  lemma {:induction false} SpineIncreasing(frames: seq<Frame>, events: seq<CapturedEvent>, stack: seq<nat>, i: nat,
          j: nat)
    requires Linked(frames, events) && Spine(frames, stack)
    requires i < j < |stack|
    ensures stack[i] < stack[j]
    decreases j
  {
    var f := stack[j - 1];
    assert SpineLink(frames, f, stack[j]);
    assert LinkedMember(frames, events, f, frames[f].members[|frames[f].members| - 1]);
    if i < j - 1 {
      SpineIncreasing(frames, events, stack, i, j - 1);
    }
  }

  lemma {:induction false} SpineDistinct(frames: seq<Frame>, events: seq<CapturedEvent>, stack: seq<nat>, i: nat,
          j: nat)
    requires Linked(frames, events) && Spine(frames, stack)
    requires i < |stack| && j < |stack| && stack[i] == stack[j]
    ensures i == j
  {
    if i < j {
      SpineIncreasing(frames, events, stack, i, j);
    } else if j < i {
      SpineIncreasing(frames, events, stack, j, i);
    }
  }

  /** Whatever the top open frame's walk gains at its end, every open frame's walk gains at its end. */
  lemma {:induction false} WalkGrowsAtEnd(frames: seq<Frame>, frames': seq<Frame>, events: seq<CapturedEvent>,
          stack: seq<nat>, k: nat, tail: seq<Visit>)
    requires Linked(frames, events) && Ascending(frames) && Spine(frames, stack)
    requires k < |stack| && GrownAt(frames, frames', stack[|stack| - 1])
    requires Walk(frames', stack[|stack| - 1]) == Walk(frames, stack[|stack| - 1]) + tail
    ensures Walk(frames', stack[k]) == Walk(frames, stack[k]) + tail
    decreases |stack| - k
  {
    hide Linked, Ascending, Spine, SpineLink;
    if k < |stack| - 1 {
      var f := stack[k];
      SpineLast(frames, events, stack, k);
      var n := |frames[f].members|;
      WalkOnSpine(frames, frames', events, stack, k, n - 1);
      WalkGrowsAtEnd(frames, frames', events, stack, k + 1, tail);
      assert WalkMember(frames', f, n - 1) == WalkMember(frames, f, n - 1) + tail;
    }
  }

  lemma {:induction false} SpineLast(frames: seq<Frame>, events: seq<CapturedEvent>, stack: seq<nat>, k: nat)
    requires Linked(frames, events) && Spine(frames, stack) && k < |stack| - 1
    ensures stack[k] < stack[k + 1] < |frames| && stack[k] < stack[|stack| - 1]
    ensures var members := frames[stack[k]].members; members != [] && members[|members| - 1] == Call(stack[k + 1])
  {
    var f := stack[k];
    assert SpineLink(frames, f, stack[k + 1]);
    assert LinkedMember(frames, events, f, frames[f].members[|frames[f].members| - 1]);
    SpineIncreasing(frames, events, stack, k, |stack| - 1);
  }
}
