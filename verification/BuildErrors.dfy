/** Exactly when the builder fails, and what its error says. */
module BuildErrors {
  import opened Capture
  import opened TraceBuilder

  /** Each frame of the chain calls the next. */
  ghost predicate CallChain(c: Context, chain: seq<nat>) {
    chain != [] &&
    forall i, j :: 0 <= i < j < |chain| && j == i + 1 ==> Calls(c, chain[i], chain[j])
  }

  predicate Calls(c: Context, f: nat, g: nat) {
    f < |c.captured.frames| && Call(g) in c.captured.frames[f].members
  }

  /** The frame was captured, its events are its own, and if it is shown the tracing inspector agrees on it. */
  ghost predicate Sound(c: Context, f: nat, shown: bool) {
    && f < |c.captured.frames|
    && (shown ==> f < |c.nodes| && c.nodes[f].success == c.captured.frames[f].success)
    && (forall e: nat :: Event(e) in c.captured.frames[f].members ==>
          e < |c.captured.events| && c.captured.events[e].frame == f)
  }

  /** Whether the last frame of a chain is shown, when the first one is shown or not. */
  predicate LastShown(c: Context, chain: seq<nat>, shown: bool)
    requires chain != []
  {
    if |chain| == 1 then shown else IsVisible(c, chain[|chain| - 1])
  }

  /** Every frame reached from `f` by calls is sound. */
  ghost predicate ReachesSound(c: Context, f: nat, shown: bool) {
    forall chain :: CallChain(c, chain) && chain[0] == f ==> Sound(c, chain[|chain| - 1], LastShown(c, chain, shown))
  }

  ghost predicate CallsReachSound(c: Context, f: nat) {
    forall g: nat :: Calls(c, f, g) ==> ReachesSound(c, g, IsVisible(c, g))
  }

  lemma {:induction false} ChainCons(c: Context, f: nat, chain: seq<nat>)
    requires CallChain(c, chain) && Calls(c, f, chain[0])
    ensures CallChain(c, [f] + chain)
  {
    hide Calls;
    var all := [f] + chain;
    forall i, j | 0 <= i < j < |all| && j == i + 1
      ensures Calls(c, all[i], all[j])
    {
      assert all[j] == chain[i];
      if i > 0 {
        assert all[i] == chain[i - 1];
      }
    }
  }

  lemma {:induction false} ChainTail(c: Context, chain: seq<nat>)
    requires CallChain(c, chain) && |chain| > 1
    ensures CallChain(c, chain[1..]) && Calls(c, chain[0], chain[1])
  {
    hide Calls;
    var tail := chain[1..];
    forall i, j | 0 <= i < j < |tail| && j == i + 1
      ensures Calls(c, tail[i], tail[j])
    {
      assert tail[i] == chain[i + 1] && tail[j] == chain[j + 1];
    }
  }

  /** Everything reached is sound exactly when the frame is and everything its calls reach. */
  lemma {:induction false} SoundUnfold(c: Context, f: nat, shown: bool)
    ensures ReachesSound(c, f, shown) <==> Sound(c, f, shown) && CallsReachSound(c, f)
  {
    hide Sound, Calls;
    if ReachesSound(c, f, shown) {
      assert CallChain(c, [f]);
      assert [f][0] == f && [f][|[f]| - 1] == f;
      forall g: nat | Calls(c, f, g)
        ensures ReachesSound(c, g, IsVisible(c, g))
      {
        forall chain | CallChain(c, chain) && chain[0] == g
          ensures Sound(c, chain[|chain| - 1], LastShown(c, chain, IsVisible(c, g)))
        {
          ChainCons(c, f, chain);
          var all := [f] + chain;
          assert all[0] == f && all[|all| - 1] == chain[|chain| - 1];
        }
      }
    }
    if Sound(c, f, shown) && CallsReachSound(c, f) {
      forall chain | CallChain(c, chain) && chain[0] == f
        ensures Sound(c, chain[|chain| - 1], LastShown(c, chain, shown))
      {
        if |chain| > 1 {
          ChainTail(c, chain);
          var tail := chain[1..];
          assert ReachesSound(c, tail[0], IsVisible(c, tail[0]));
          assert tail[|tail| - 1] == chain[|chain| - 1];
        }
      }
    }
  }

  // ----- the builder -----

  /** The error names something that is really missing or really disagrees. */
  ghost predicate Blames(c: Context, error: BuildError) {
    match error
    case InvalidCapture(_) => false
    case MissingNode(f) => f >= |c.nodes|
    case MissingFrame(f) => f >= |c.captured.frames|
    case SuccessMismatch(f) =>
      f < |c.nodes| && f < |c.captured.frames| && c.nodes[f].success != c.captured.frames[f].success
    case MissingEvent(e) => e >= |c.captured.events|
    case WrongFrame(e, owner, expected) =>
      e < |c.captured.events| && c.captured.events[e].frame == owner && owner != expected &&
      expected < |c.captured.frames| && Event(e) in c.captured.frames[expected].members
  }

  /** The first `n` members of frame `f` are sound, and so is everything they reach. */
  ghost predicate MembersSound(c: Context, f: nat, n: nat)
    requires f < |c.captured.frames| && n <= |c.captured.frames[f].members|
  {
    forall i :: 0 <= i < n ==> MemberSound(c, f, c.captured.frames[f].members[i])
  }

  ghost predicate MemberSound(c: Context, f: nat, m: Member) {
    match m
    case Call(g) => ReachesSound(c, g, IsVisible(c, g))
    case Event(e) => e < |c.captured.events| && c.captured.events[e].frame == f
    case SubcallCompletion(_) => true
  }

  lemma {:induction false} AllMembersSound(c: Context, f: nat, shown: bool)
    requires f < |c.captured.frames|
    requires shown ==> f < |c.nodes| && c.nodes[f].success == c.captured.frames[f].success
    ensures ReachesSound(c, f, shown) <==> MembersSound(c, f, |c.captured.frames[f].members|)
  {
    hide ReachesSound;
    SoundUnfold(c, f, shown);
    var members := c.captured.frames[f].members;
    if MembersSound(c, f, |members|) {
      forall m | m in members
        ensures MemberSound(c, f, m)
      {
        var i :| 0 <= i < |members| && members[i] == m;
      }
      forall g: nat | Calls(c, f, g)
        ensures ReachesSound(c, g, IsVisible(c, g))
      {
        assert MemberSound(c, f, Call(g));
      }
      forall e: nat | Event(e) in members
        ensures e < |c.captured.events| && c.captured.events[e].frame == f
      {
        assert MemberSound(c, f, Event(e));
      }
    }
    if Sound(c, f, shown) && CallsReachSound(c, f) {
      forall i | 0 <= i < |members|
        ensures MemberSound(c, f, members[i])
      {
        assert members[i] in members;
        assert members[i].Call? ==> Calls(c, f, members[i].frame);
      }
    }
  }

  lemma {:induction false} BuildOk(c: Context, parentId: string, pos: nat, f: nat, parentSuccess: bool,
          address: seq<nat>, logIndex: nat)
    requires Acyclic(c.captured)
    ensures var r := BuildNode(c, parentId, pos, f, parentSuccess, address, logIndex);
            (r.Ok? <==> ReachesSound(c, f, true)) && (r.Err? ==> Blames(c, r.error))
    decreases Rank(c, f), 1, 0
  {
    hide Acyclic, ReachesSound, HeadTrace, CloseNode, AppendMembers, MembersSound;
    SoundUnfold(c, f, true);
    if f < |c.nodes| && f < |c.captured.frames| && c.nodes[f].success == c.captured.frames[f].success {
      var head := HeadTrace(c, parentId, pos, f, parentSuccess, address);
      var start := Acc([], head.storageChange, 0, logIndex);
      var n := |c.captured.frames[f].members|;
      MembersOk(c, start, f, n, head.id, parentSuccess, address);
      AllMembersSound(c, f, true);
    }
  }

  lemma {:induction false} MembersOk(c: Context, acc: Acc, f: nat, n: nat, parentId: string, parentSuccess: bool,
          address: seq<nat>)
    requires Acyclic(c.captured) && f < |c.captured.frames| && n <= |c.captured.frames[f].members|
    ensures var r := AppendMembers(c, acc, f, n, parentId, parentSuccess, address);
            (r.Ok? <==> MembersSound(c, f, n)) && (r.Err? ==> Blames(c, r.error))
    decreases Rank(c, f), 0, n
  {
    hide Acyclic, MemberSound, AppendMember, Blames;
    if n > 0 {
      MembersOk(c, acc, f, n - 1, parentId, parentSuccess, address);
      var before := AppendMembers(c, acc, f, n - 1, parentId, parentSuccess, address);
      if before.Ok? {
        MemberOk(c, before.value, f, n - 1, parentId, parentSuccess, address);
      }
    }
  }

  lemma {:induction false} MemberOk(c: Context, acc: Acc, f: nat, i: nat, parentId: string, parentSuccess: bool,
          address: seq<nat>)
    requires Acyclic(c.captured) && f < |c.captured.frames| && i < |c.captured.frames[f].members|
    ensures var r := AppendMember(c, acc, f, i, parentId, parentSuccess, address);
            (r.Ok? <==> MemberSound(c, f, c.captured.frames[f].members[i])) && (r.Err? ==> Blames(c, r.error))
    decreases Rank(c, f), 0, i
  {
    hide Acyclic, ReachesSound, BuildNode, AppendMembers, WithTrace, WithEvent, MembersSound;
    var ok := parentSuccess && c.captured.frames[f].EffectiveSuccess();
    match c.captured.frames[f].members[i] {
      case Call(child) =>
        if IsVisible(c, child) {
          BuildOk(c, parentId, |acc.children|, child, ok, address + [acc.nextTrace], acc.logIndex);
        } else if child < |c.captured.frames| {
          MembersOk(c, acc, child, |c.captured.frames[child].members|, parentId, ok, address);
          AllMembersSound(c, child, false);
        } else {
          SoundUnfold(c, child, false);
        }
      case Event(e) =>
        assert c.captured.frames[f].members[i] in c.captured.frames[f].members;
      case SubcallCompletion(_) =>
    }
  }

  /**
   The builder succeeds exactly when every frame reached from the root by calls was captured, has
   only events of its own and, if it is shown, has a node that agrees on its success; an error names
   something that is really missing or really disagrees.
   */
  lemma {:induction false} BuildsExactly(c: Context, logIndex: nat)
    requires Acyclic(c.captured)
    ensures BuildLists(c, logIndex).Ok? <==> ReachesSound(c, 0, true)
    ensures BuildLists(c, logIndex).Err? ==> Blames(c, BuildLists(c, logIndex).error)
  {
    hide Acyclic, ReachesSound, BuildNode, Blames;
    BuildOk(c, "", 0, 0, true, [], logIndex);
  }
}
