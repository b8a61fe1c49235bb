/** What a trace's `storageChange` says about the frames it shows. */
module Storage {
  import opened Capture
  import opened TraceBuilder

  /** Frame `g` is shown directly below frame `f`: only hidden frames lie between them. */
  ghost predicate ShownBelow(c: Context, f: nat, g: nat)
    requires Acyclic(c.captured)
    decreases Rank(c, f)
  {
    f < |c.captured.frames| &&
    exists i :: 0 <= i < |c.captured.frames[f].members| && c.captured.frames[f].members[i].Call? &&
      var child := c.captured.frames[f].members[i].frame;
      if IsVisible(c, child) then child == g else ShownBelow(c, child, g)
  }

  ghost predicate MemberShows(c: Context, f: nat, i: nat, g: nat)
    requires Acyclic(c.captured) && f < |c.captured.frames| && i < |c.captured.frames[f].members|
  {
    match c.captured.frames[f].members[i]
    case Call(child) => if IsVisible(c, child) then child == g else ShownBelow(c, child, g)
    case _ => false
  }

  lemma {:induction false} ShownByMember(c: Context, f: nat, g: nat)
    requires Acyclic(c.captured) && f < |c.captured.frames|
    ensures ShownBelow(c, f, g) <==> exists i :: 0 <= i < |c.captured.frames[f].members| && MemberShows(c, f, i, g)
  {
    var members := c.captured.frames[f].members;
    if ShownBelow(c, f, g) {
      var i :| 0 <= i < |members| && members[i].Call? &&
        var child := members[i].frame;
        if IsVisible(c, child) then child == g else ShownBelow(c, child, g);
      assert MemberShows(c, f, i, g);
    }
  }

  ghost predicate WritesItself(c: Context, f: nat) {
    f < |c.nodes| && SSTORE in c.nodes[f].steps
  }

  ghost predicate Succeeds(c: Context, f: nat) {
    f < |c.captured.frames| && c.captured.frames[f].EffectiveSuccess()
  }

  /** A chain of shown frames, all successful after the first, whose last one executes an SSTORE. */
  ghost predicate StoreChain(c: Context, chain: seq<nat>)
    requires Acyclic(c.captured)
  {
    && chain != []
    && WritesItself(c, chain[|chain| - 1])
    && forall i, j :: 0 <= i < j < |chain| && j == i + 1 ==> StoreLink(c, chain[i], chain[j])
  }

  /** Some successful chain from `f`, whatever became of `f` itself, reaches an SSTORE. */
  ghost predicate Stores(c: Context, f: nat)
    requires Acyclic(c.captured)
  {
    exists chain :: StoreChain(c, chain) && chain[0] == f
  }

  lemma {:induction false} StoresItself(c: Context, f: nat)
    requires Acyclic(c.captured) && WritesItself(c, f)
    ensures Stores(c, f)
  {
    assert StoreChain(c, [f]);
  }

  ghost predicate StoreLink(c: Context, f: nat, g: nat)
    requires Acyclic(c.captured)
  {
    ShownBelow(c, f, g) && Succeeds(c, g)
  }

  lemma {:induction false} StoresThrough(c: Context, f: nat, g: nat)
    requires Acyclic(c.captured) && StoreLink(c, f, g) && Stores(c, g)
    ensures Stores(c, f)
  {
    hide StoreLink, WritesItself;
    var chain :| StoreChain(c, chain) && chain[0] == g;
    var longer := [f] + chain;
    forall i, j | 0 <= i < j < |longer| && j == i + 1
      ensures StoreLink(c, longer[i], longer[j])
    {
      if i > 0 {
        assert longer[i] == chain[i - 1] && longer[j] == chain[i];
      }
    }
    assert longer[|longer| - 1] == chain[|chain| - 1];
    assert StoreChain(c, longer);
  }

  lemma {:induction false} ChainTail(c: Context, chain: seq<nat>)
    requires Acyclic(c.captured) && StoreChain(c, chain) && |chain| > 1
    ensures Stores(c, chain[1])
  {
    hide StoreLink, WritesItself;
    var rest := chain[1..];
    forall i, j | 0 <= i < j < |rest| && j == i + 1
      ensures StoreLink(c, rest[i], rest[j])
    {
      assert rest[i] == chain[i + 1] && rest[j] == chain[j + 1];
    }
    assert StoreChain(c, rest);
  }

  /** Unfolding the chain one step. */
  lemma {:induction false} StoresUnfold(c: Context, f: nat)
    requires Acyclic(c.captured)
    ensures Stores(c, f) <==> WritesItself(c, f) || exists g :: StoreLink(c, f, g) && Stores(c, g)
  {
    if Stores(c, f) {
      var chain :| StoreChain(c, chain) && chain[0] == f;
      if |chain| > 1 {
        ChainTail(c, chain);
        assert StoreLink(c, chain[0], chain[1]) && Stores(c, chain[1]);
      }
    }
    if WritesItself(c, f) {
      StoresItself(c, f);
    }
    if g :| StoreLink(c, f, g) && Stores(c, g) {
      StoresThrough(c, f, g);
    }
  }

  /** Some frame shown by the first `n` members of `f` succeeded and stores. */
  ghost predicate MembersStore(c: Context, f: nat, n: nat)
    requires Acyclic(c.captured) && f < |c.captured.frames| && n <= |c.captured.frames[f].members|
  {
    exists i, g :: 0 <= i < n && MemberShows(c, f, i, g) && Succeeds(c, g) && Stores(c, g)
  }

  lemma {:induction false} BuildStores(c: Context, parentId: string, pos: nat, f: nat, parentSuccess: bool,
          address: seq<nat>, logIndex: nat)
    requires Acyclic(c.captured)
    ensures var r := BuildNode(c, parentId, pos, f, parentSuccess, address, logIndex);
            r.Ok? ==> && f < |c.captured.frames|
                      && (r.value.0.trace.storageChange <==> Stores(c, f))
                      && (r.value.0.effectiveFrameSuccess <==> Succeeds(c, f))
    decreases Rank(c, f), 1, 0
  {
    hide Stores;
    var r := BuildNode(c, parentId, pos, f, parentSuccess, address, logIndex);
    if r.Ok? {
      var head := HeadTrace(c, parentId, pos, f, parentSuccess, address);
      var n := |c.captured.frames[f].members|;
      MembersAddStores(c, Acc([], head.storageChange, 0, logIndex), f, n, head.id, parentSuccess, address);
      AllMembersStore(c, f);
    }
  }

  lemma {:induction false} AllMembersStore(c: Context, f: nat)
    requires Acyclic(c.captured) && f < |c.captured.frames|
    ensures Stores(c, f) <==> WritesItself(c, f) || MembersStore(c, f, |c.captured.frames[f].members|)
  {
    hide Stores, MemberShows;
    StoresUnfold(c, f);
    forall g
      ensures ShownBelow(c, f, g) <==> exists i :: 0 <= i < |c.captured.frames[f].members| && MemberShows(c, f, i, g)
    {
      ShownByMember(c, f, g);
    }
  }

  lemma {:induction false} MembersAddStores(c: Context, acc: Acc, f: nat, n: nat, parentId: string, parentSuccess: bool,
          address: seq<nat>)
    requires Acyclic(c.captured) && f < |c.captured.frames| && n <= |c.captured.frames[f].members|
    ensures var r := AppendMembers(c, acc, f, n, parentId, parentSuccess, address);
            r.Ok? ==> (r.value.storageChange <==> acc.storageChange || MembersStore(c, f, n))
    decreases Rank(c, f), 0, n
  {
    hide Stores, MemberShows, Succeeds, Acyclic;
    if n > 0 {
      MembersAddStores(c, acc, f, n - 1, parentId, parentSuccess, address);
      var r := AppendMembers(c, acc, f, n - 1, parentId, parentSuccess, address);
      if r.Ok? {
        MemberAddsStores(c, r.value, f, n - 1, parentId, parentSuccess, address);
      }
    }
  }

  ghost predicate MemberStores(c: Context, f: nat, i: nat)
    requires Acyclic(c.captured) && f < |c.captured.frames| && i < |c.captured.frames[f].members|
  {
    exists g :: MemberShows(c, f, i, g) && Succeeds(c, g) && Stores(c, g)
  }

  lemma {:induction false} MemberAddsStores(c: Context, acc: Acc, f: nat, i: nat, parentId: string, parentSuccess: bool,
          address: seq<nat>)
    requires Acyclic(c.captured) && f < |c.captured.frames| && i < |c.captured.frames[f].members|
    ensures var r := AppendMember(c, acc, f, i, parentId, parentSuccess, address);
            r.Ok? ==> (r.value.storageChange <==> acc.storageChange || MemberStores(c, f, i))
    decreases Rank(c, f), 0, i
  {
    hide Stores, Succeeds;
    var ok := parentSuccess && c.captured.frames[f].EffectiveSuccess();
    match c.captured.frames[f].members[i] {
      case Call(child) =>
        if IsVisible(c, child) {
          BuildStores(c, parentId, |acc.children|, child, ok, address + [acc.nextTrace], acc.logIndex);
          assert MemberShows(c, f, i, child);
          assert forall g :: MemberShows(c, f, i, g) ==> g == child;
        } else if child < |c.captured.frames| {
          MembersAddStores(c, acc, child, |c.captured.frames[child].members|, parentId, ok, address);
          HiddenMember(c, f, i, child);
        }
      case _ =>
    }
  }

  lemma {:induction false} HiddenMember(c: Context, f: nat, i: nat, child: nat)
    requires Acyclic(c.captured) && f < |c.captured.frames| && i < |c.captured.frames[f].members|
    requires c.captured.frames[f].members[i] == Call(child) && !IsVisible(c, child) && child < |c.captured.frames|
    ensures MemberStores(c, f, i) <==> MembersStore(c, child, |c.captured.frames[child].members|)
  {
    hide Stores, Succeeds;
    assert forall g :: MemberShows(c, f, i, g) <==> ShownBelow(c, child, g);
    if MemberStores(c, f, i) {
      var g :| MemberShows(c, f, i, g) && Succeeds(c, g) && Stores(c, g);
      ShownByMember(c, child, g);
      var k :| 0 <= k < |c.captured.frames[child].members| && MemberShows(c, child, k, g);
    }
    if MembersStore(c, child, |c.captured.frames[child].members|) {
      var k, g :| 0 <= k < |c.captured.frames[child].members| && MemberShows(c, child, k, g) && Succeeds(c, g) &&
        Stores(c, g);
      ShownByMember(c, child, g);
    }
  }

  /** With no hidden frame, the frames shown directly below `f` are the ones it called. */
  lemma {:induction false} NothingHidden(c: Context, f: nat, g: nat)
    requires Acyclic(c.captured) && f < |c.captured.frames|
    requires forall child: nat :: Call(child) in c.captured.frames[f].members ==> IsVisible(c, child)
    ensures ShownBelow(c, f, g) <==> Call(g) in c.captured.frames[f].members
  {
    var members := c.captured.frames[f].members;
    ShownByMember(c, f, g);
    if ShownBelow(c, f, g) {
      var i :| 0 <= i < |members| && MemberShows(c, f, i, g);
      assert members[i] in members;
    }
    if Call(g) in members {
      var i :| 0 <= i < |members| && members[i] == Call(g);
      assert MemberShows(c, f, i, g);
    }
  }
}
