/** Table keys and their order: heights, and (height, round, block hash) triples compared lexicographically. */
module Keys {
  type Byte = b: nat | b < 256

  function Zeros(n: nat): (z: seq<Byte>)
    ensures |z| == n
  {
    if n == 0 then [] else [0] + Zeros(n - 1)
  }

  /** A block hash is 32 bytes, compared as a byte string. */
  type BlockHash = h: seq<Byte> | |h| == 32 witness Zeros(32)

  /** Rounds are stored as signed integers; the nil round is -1 and the least. */
  type Round = r: int | r >= -1

  const NIL_ROUND: Round := -1
  /** The hash of all zero bytes, the least hash. */
  function ZeroHash(): BlockHash {
    Zeros(32)
  }

  datatype Key = Key(height: nat, round: Round, hash: BlockHash)

  predicate BytesLess(a: seq<Byte>, b: seq<Byte>) {
    if a == [] then b != []
    else if b == [] then false
    else a[0] < b[0] || (a[0] == b[0] && BytesLess(a[1..], b[1..]))
  }

  predicate KeyLess(a: Key, b: Key) {
    a.height < b.height ||
    (a.height == b.height && (a.round < b.round || (a.round == b.round && BytesLess(a.hash, b.hash))))
  }

  function KeyHeight(k: Key): nat {
    k.height
  }

  /** The least key of a height. */
  function FirstKey(height: nat): Key {
    Key(height, NIL_ROUND, ZeroHash())
  }

  lemma {:induction false} NothingBelowZeros(a: seq<Byte>, n: nat)
    requires |a| == n
    ensures !BytesLess(a, Zeros(n))
    decreases n
  {
    if n > 0 {
      NothingBelowZeros(a[1..], n - 1);
    }
  }

  /** Whether a key lies in the half-open range of keys from `start` to `end`. */
  predicate Between(k: Key, start: Key, end: Key) {
    !KeyLess(k, start) && KeyLess(k, end)
  }

  /**
   A key lies in the composite range from the least key of `low` to the least key of `high`
   exactly when its height lies in `[low, high)`, whatever its round and hash.
   */
  lemma {:induction false} CompositeRange(k: Key, low: nat, high: nat)
    ensures Between(k, FirstKey(low), FirstKey(high)) <==> low <= k.height < high
  {
    NothingBelowZeros(k.hash, 32);
  }

  // ----- the order is total -----

  lemma {:induction false} BytesOrder(a: seq<Byte>, b: seq<Byte>)
    requires |a| == |b|
    ensures !BytesLess(a, a)
    ensures a != b ==> (BytesLess(a, b) <==> !BytesLess(b, a))
    decreases |a|
  {
    if a != [] {
      BytesOrder(a[1..], b[1..]);
      assert a == [a[0]] + a[1..] && b == [b[0]] + b[1..];
    }
  }

  lemma {:induction false} BytesTransitive(a: seq<Byte>, b: seq<Byte>, c: seq<Byte>)
    requires BytesLess(a, b) && BytesLess(b, c)
    ensures BytesLess(a, c)
    decreases |a|
  {
    if a != [] && a[0] == b[0] == c[0] {
      BytesTransitive(a[1..], b[1..], c[1..]);
    }
  }

  /** At the first position where the bytes differ, the first sequence has the smaller one. */
  ghost predicate DiffersBelow(a: seq<Byte>, b: seq<Byte>, k: nat) {
    k < |a| && k < |b| && a[..k] == b[..k] && a[k] < b[k]
  }

  lemma {:induction false} BytesLessMeans(a: seq<Byte>, b: seq<Byte>)
    requires |a| == |b|
    ensures BytesLess(a, b) <==> exists k: nat :: DiffersBelow(a, b, k)
    decreases |a|
  {
    if a != [] {
      var x, y := a[1..], b[1..];
      BytesLessMeans(x, y);
      if a[0] < b[0] {
        assert DiffersBelow(a, b, 0);
      } else if a[0] == b[0] && BytesLess(x, y) {
        var k: nat :| DiffersBelow(x, y, k);
        assert a[..k + 1] == [a[0]] + x[..k] && b[..k + 1] == [b[0]] + y[..k];
        assert DiffersBelow(a, b, k + 1);
      }
      forall k: nat | DiffersBelow(a, b, k)
        ensures BytesLess(a, b)
      {
        if k > 0 {
          assert a[..k][0] == a[0] && b[..k][0] == b[0];
          assert x[..k - 1] == a[..k][1..] && y[..k - 1] == b[..k][1..];
          assert DiffersBelow(x, y, k - 1);
        }
      }
    }
  }

  /** Heights decide first, then rounds, then the first differing byte of the hashes. */
  lemma {:induction false} KeyOrderMeans(a: Key, b: Key)
    ensures a.height != b.height ==> (KeyLess(a, b) <==> a.height < b.height)
    ensures a.height == b.height && a.round != b.round ==> (KeyLess(a, b) <==> a.round < b.round)
    ensures a.height == b.height && a.round == b.round ==>
              (KeyLess(a, b) <==> exists k: nat :: DiffersBelow(a.hash, b.hash, k))
  {
    BytesLessMeans(a.hash, b.hash);
  }

  lemma {:induction false} KeyOrderTotal(a: Key, b: Key)
    ensures !KeyLess(a, a)
    ensures a != b ==> (KeyLess(a, b) <==> !KeyLess(b, a))
  {
    BytesOrder(a.hash, a.hash);
    BytesOrder(a.hash, b.hash);
  }

  lemma {:induction false} KeyOrderTransitive(a: Key, b: Key, c: Key)
    requires KeyLess(a, b) && KeyLess(b, c)
    ensures KeyLess(a, c)
  {
    if a.height == b.height == c.height && a.round == b.round == c.round {
      BytesTransitive(a.hash, b.hash, c.hash);
    }
  }
}
