/**
 Ids are hashes of texts glued together without separators. If no two different texts that
 are hashed for a transaction collide, all ids of the transaction are different.
 */
module Ids {
  import opened Text
  import opened TraceBuilder
  import opened Placement
  import opened Positions

  predicate IsHex(ch: char) {
    '0' <= ch <= '9' || 'a' <= ch <= 'f'
  }

  /** The digest is rendered as 32 lower-case hexadecimal characters. */
  ghost predicate HexDigest(c: Context) {
    forall s :: |c.hash(s)| == 32 && IsHex(c.hash(s)[1])
  }

  /** A transaction id is rendered with the prefix `0x` in front of 64 characters. */
  predicate RenderedTxId(txId: string) {
    |txId| == 66 && txId[0] == '0' && txId[1] == 'x'
  }

  ghost predicate NoCollision(c: Context, items: seq<Item>) {
    forall i, j :: 0 <= i < |items| && 0 <= j < |items| ==>
      (c.hash(Preimage(c, items[i])) == c.hash(Preimage(c, items[j])) ==>
       Preimage(c, items[i]) == Preimage(c, items[j]))
  }

  ghost predicate DistinctIds(items: seq<Item>) {
    forall i, j :: 0 <= i < j < |items| ==> ItemId(items[i]) != ItemId(items[j])
  }

  /** All entries of a transaction, each with a made id and, but for the root, a parent among them. */
  ghost predicate Rooted(c: Context, es: seq<Entry>) {
    forall i :: 0 <= i < |es| ==> RootedEntry(c, es, es[i])
  }

  ghost predicate RootedEntry(c: Context, es: seq<Entry>, e: Entry) {
    && ItemId(e.item) == c.hash(Preimage(c, e.item))
    && if e.path == [] then e.item.TraceItem? && ItemParent(e.item) == "" && ItemPos(e.item) == 0
       else HasParent(e, es) && ItemPos(e.item) == e.path[|e.path| - 1]
  }

  /** An entry below the top one finds its parent among all entries. */
  lemma {:induction false} HangingRooted(c: Context, first: Entry, inner: seq<Entry>, i: nat, id: string)
    requires i < |inner| && Hangs(c, inner[i], inner, [], id)
    requires first.path == [] && first.item.TraceItem? && first.item.trace.id == id
    ensures RootedEntry(c, [first] + inner, inner[i])
  {
    hide Preimage;
    var all, e := [first] + inner, inner[i];
    if |e.path| == 1 {
      assert IsParent(all[0], e);
    } else {
      var k :| 0 <= k < |inner| && IsParent(inner[k], e);
      assert all[k + 1] == inner[k];
    }
  }

  lemma {:induction false} TopRooted(c: Context, top: Node)
    requires Placed(c, top, "", 0, [])
    ensures Rooted(c, Entries(top, []))
  {
    hide PlacedChildren, ChildEntries, Preimage, Hangs, HasParent;
    var first := Entry([], TraceItem(top.trace, top.success));
    var inner := ChildEntries(top.children, []);
    ChildrenHang(c, top.children, [], top.trace.id, []);
    PreimageOfChild(c, SubTrace(top), "", 0, []);
    var es := [first] + inner;
    forall i | 0 <= i < |es|
      ensures RootedEntry(c, es, es[i])
    {
      if i > 0 {
        assert es[i] == inner[i - 1];
        HangingRooted(c, first, inner, i - 1, top.trace.id);
      }
    }
  }

  /** Equal texts of two entries with parents come from equal parent ids and equal positions. */
  lemma {:induction false} TextsSplit(head: string, p: string, m: nat, p': string, n: nat)
    requires |p| == |p'| && head + p + Decimal(m) == head + p' + Decimal(n)
    ensures p == p' && m == n
  {
    var s, t := head + p + Decimal(m), head + p' + Decimal(n);
    assert p == s[|head|..|head| + |p|] == t[|head|..|head| + |p|] == p';
    assert Decimal(m) == s[|head| + |p|..] == t[|head| + |p|..] == Decimal(n);
    DecimalInjective(m, n);
  }

  lemma {:induction false} EntryRooted(c: Context, es: seq<Entry>, e: Entry)
    requires Rooted(c, es) && e in es
    ensures RootedEntry(c, es, e)
  {
  }

  lemma {:induction false} ParentOf(c: Context, es: seq<Entry>, e: Entry) returns (p: Entry)
    requires Rooted(c, es) && e in es && e.path != []
    ensures p in es && e.path == p.path + [ItemPos(e.item)]
    ensures ItemParent(e.item) == c.hash(Preimage(c, p.item))
  {
    hide Rooted, Preimage;
    EntryRooted(c, es, e);
    var k :| 0 <= k < |es| && IsParent(es[k], e);
    p := es[k];
    EntryRooted(c, es, p);
    assert e.path == e.path[..|p.path|] + [e.path[|p.path|]];
  }

  /** A trace and an event are never hashed from the same text. */
  lemma {:induction false} KindsDiffer(c: Context, es: seq<Entry>, e: Entry, e': Entry)
    requires HexDigest(c) && RenderedTxId(c.txId) && Rooted(c, es) && e in es && e' in es
    requires e.item.TraceItem? && e'.item.EventItem?
    ensures Preimage(c, e.item) != Preimage(c, e'.item)
  {
    hide HexDigest, Rooted, Preimage, RenderedTxId;
    TraceTextStart(c, e.item);
    EventHasPath(c, es, e');
    var p := ParentOf(c, es, e');
    DigestStart(c, Preimage(c, p.item));
    EventTextStart(c, e'.item);
  }

  lemma {:induction false} TraceTextStart(c: Context, item: Item)
    requires RenderedTxId(c.txId) && item.TraceItem?
    ensures |Preimage(c, item)| > 1 && Preimage(c, item)[1] == 'x'
  {
    assert Preimage(c, item)[1] == c.txId[1];
  }

  lemma {:induction false} EventTextStart(c: Context, item: Item)
    requires item.EventItem? && |ItemParent(item)| == 32
    ensures |Preimage(c, item)| > 1 && Preimage(c, item)[1] == ItemParent(item)[1]
  {
  }

  lemma {:induction false} DigestStart(c: Context, text: string)
    requires HexDigest(c)
    ensures |c.hash(text)| == 32 && IsHex(c.hash(text)[1])
  {
  }

  lemma {:induction false} EventHasPath(c: Context, es: seq<Entry>, e: Entry)
    requires Rooted(c, es) && e in es && e.item.EventItem?
    ensures e.path != []
  {
    hide Preimage;
    EntryRooted(c, es, e);
  }

  lemma {:induction false} SameTextSamePath(c: Context, es: seq<Entry>, e: Entry, e': Entry)
    requires HexDigest(c) && RenderedTxId(c.txId) && Rooted(c, es) && e in es && e' in es
    requires NoCollision(c, ItemsIn(es))
    requires Preimage(c, e.item) == Preimage(c, e'.item)
    ensures e.path == e'.path
    decreases |e.path|
  {
    hide NoCollision;
    SameKind(c, es, e, e');
    var head := if e.item.TraceItem? then c.txId else "";
    if e.path == [] || e'.path == [] {
      RootText(c, es, e, e');
    } else {
      var p := ParentOf(c, es, e);
      var p' := ParentOf(c, es, e');
      TextsSplit(head, ItemParent(e.item), ItemPos(e.item), ItemParent(e'.item), ItemPos(e'.item));
      SameDigest(c, es, p, p');
      SameTextSamePath(c, es, p, p');
    }
  }

  lemma {:induction false} SameKind(c: Context, es: seq<Entry>, e: Entry, e': Entry)
    requires HexDigest(c) && RenderedTxId(c.txId) && Rooted(c, es) && e in es && e' in es
    requires Preimage(c, e.item) == Preimage(c, e'.item)
    ensures e.item.TraceItem? <==> e'.item.TraceItem?
  {
    if e.item.TraceItem? && e'.item.EventItem? {
      KindsDiffer(c, es, e, e');
    } else if e'.item.TraceItem? && e.item.EventItem? {
      KindsDiffer(c, es, e', e);
    }
  }

  /** The root's text is shorter than every other trace's. */
  lemma {:induction false} TraceTextLength(c: Context, es: seq<Entry>, e: Entry)
    requires HexDigest(c) && Rooted(c, es) && e in es && e.item.TraceItem?
    ensures if e.path == [] then |Preimage(c, e.item)| == |c.txId| + 1 else |Preimage(c, e.item)| > |c.txId| + 32
  {
    EntryRooted(c, es, e);
    if e.path == [] {
      assert Decimal(0) == [Digit(0)];
    } else {
      var p := ParentOf(c, es, e);
      assert |c.hash(Preimage(c, p.item))| == 32;
    }
  }

  lemma {:induction false} RootText(c: Context, es: seq<Entry>, e: Entry, e': Entry)
    requires HexDigest(c) && RenderedTxId(c.txId) && Rooted(c, es) && e in es && e' in es
    requires Preimage(c, e.item) == Preimage(c, e'.item) && (e.path == [] || e'.path == [])
    ensures e.path == e'.path
  {
    hide Rooted, Preimage, HexDigest;
    EntryRooted(c, es, e);
    EntryRooted(c, es, e');
    SameKind(c, es, e, e');
    TraceTextLength(c, es, e);
    TraceTextLength(c, es, e');
  }

  lemma {:induction false} SameDigest(c: Context, es: seq<Entry>, e: Entry, e': Entry)
    requires NoCollision(c, ItemsIn(es)) && e in es && e' in es
    requires c.hash(Preimage(c, e.item)) == c.hash(Preimage(c, e'.item))
    ensures Preimage(c, e.item) == Preimage(c, e'.item)
  {
    var i :| 0 <= i < |es| && es[i] == e;
    var j :| 0 <= j < |es| && es[j] == e';
    assert ItemsIn(es)[i] == e.item && ItemsIn(es)[j] == e'.item;
  }

  /** All trace and event ids of one transaction are pairwise different. */
  lemma {:induction false} IdsDistinct(c: Context, logIndex: nat)
    requires HexDigest(c) && RenderedTxId(c.txId) && Acyclic(c.captured)
    requires BuildNode(c, "", 0, 0, true, [], logIndex).Ok?
    requires NoCollision(c, Items(BuildNode(c, "", 0, 0, true, [], logIndex).value.0))
    ensures DistinctIds(Items(BuildNode(c, "", 0, 0, true, [], logIndex).value.0))
  {
    var top := BuildNode(c, "", 0, 0, true, [], logIndex).value.0;
    BuildPlaces(c, "", 0, 0, true, [], logIndex);
    EntriesAreItems(c, SubTrace(top), "", 0, [], []);
    assert ItemsOfChild(SubTrace(top), "") == Items(top);
    var es := Entries(top, []);
    assert ItemsIn(es) == Items(top);
    TopRooted(c, top);
    PathsDistinct(SubTrace(top), []);
    hide NoCollision, HexDigest, Rooted, BuildNode;
    forall i, j | 0 <= i < j < |es|
      ensures ItemId(es[i].item) != ItemId(es[j].item)
    {
      IdsDiffer(c, es, i, j);
    }
    assert forall i :: 0 <= i < |es| ==> Items(top)[i] == es[i].item;
  }

  lemma {:induction false} IdsDiffer(c: Context, es: seq<Entry>, i: nat, j: nat)
    requires HexDigest(c) && RenderedTxId(c.txId) && Rooted(c, es) && NoCollision(c, ItemsIn(es)) && DistinctPaths(es)
    requires i < j < |es|
    ensures ItemId(es[i].item) != ItemId(es[j].item)
  {
    assert RootedEntry(c, es, es[i]) && RootedEntry(c, es, es[j]);
    assert es[i] in es && es[j] in es;
    if ItemId(es[i].item) == ItemId(es[j].item) {
      SameDigest(c, es, es[i], es[j]);
      SameTextSamePath(c, es, es[i], es[j]);
    }
  }
}
