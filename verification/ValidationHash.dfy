/**
 The block validation hash: 160-bit digests summed in a 256-bit register, printed in decimal,
 cut to the last six characters and parsed back.
 */
module ValidationHash {
  import opened Basics
  import opened Text

  const TWO_160: nat := 0x1_00000000_00000000_00000000_00000000_00000000
  const TWO_256: nat := 0x1_00000000_00000000_00000000_00000000_00000000_00000000_00000000_00000000
  const TWO_96: nat := 0x1_00000000_00000000_00000000
  const MILLION: nat := 1_000_000

  /** Digests are 160-bit integers. */
  ghost predicate Digest160(sha1: string -> nat) {
    forall s :: sha1(s) < TWO_160
  }

  function Sum(sha1: string -> nat, ids: seq<string>): nat {
    if ids == [] then 0 else Sum(sha1, ids[..|ids| - 1]) + sha1(ids[|ids| - 1])
  }

  function DigitValue(ch: char): Option<nat> {
    if '0' <= ch <= '9' then Some(ch as nat - '0' as nat) else None
  }

  /** Decimal parsing; leading zeros are fine, anything but digits is not. */
  function Parse(s: string): Option<nat> {
    if s == "" then Some(0)
    else
      match (Parse(s[..|s| - 1]), DigitValue(s[|s| - 1]))
      case (Some(high), Some(low)) => Some(high * 10 + low)
      case _ => None
  }

  function Pow10(k: nat): (p: nat)
    ensures p > 0
  {
    if k == 0 then 1 else 10 * Pow10(k - 1)
  }

  lemma {:induction false} ParseAppend(s: string, d: nat)
    requires Parse(s).Some? && d < 10
    ensures Parse(s + [Digit(d)]) == Some(Parse(s).value * 10 + d)
  {
    assert (s + [Digit(d)])[..|s|] == s;
  }

  lemma {:induction false} LastDigitSplits(n: nat, m: nat)
    requires m > 0
    ensures (n / 10 % m) * 10 + n % 10 == n % (10 * m)
  {
    var q, r := n / 10, n % 10;
    var a, b := q / m, q % m;
    assert n == 10 * q + r && q == a * m + b;
    calc {
      n;
      10 * (a * m + b) + r;
      10 * (a * m) + (10 * b + r);
      (10 * m) * a + (10 * b + r);
    }
    RemainderUnique(n, 10 * m, a, 10 * b + r);
  }

  lemma {:induction false} RemainderUnique(n: nat, d: nat, q: nat, r: nat)
    requires d > 0 && r < d && n == d * q + r
    ensures n % d == r
  {
    var q', r' := n / d, n % d;
    assert d * (q' - q) == r - r';
    if q' > q {
      MulAtLeast(d, q' - q);
    } else if q' < q {
      MulAtLeast(d, q - q');
    }
  }

  lemma {:induction false} MulAtLeast(d: nat, k: nat)
    requires k >= 1
    ensures d * k >= d
  {
  }

  ghost function LastChars(s: string, k: nat): string {
    if |s| >= k then s[|s| - k..] else s
  }

  lemma {:induction false} LastCharsAppend(t: string, ch: char, k: nat)
    requires k > 0
    ensures LastChars(t + [ch], k) == LastChars(t, k - 1) + [ch]
  {
  }

  /** Cutting a decimal rendering to its last `k` characters is taking the remainder by ten to the `k`. */
  lemma {:induction false} LastDigits(n: nat, k: nat)
    ensures Parse(LastChars(Decimal(n), k)) == Some(n % Pow10(k))
    decreases k
  {
    hide Parse, LastChars, Decimal, Pow10;
    if k == 0 {
      NoDigits(n);
    } else if n < 10 {
      OneDigit(n, k);
    } else {
      LastDigits(n / 10, k - 1);
      OneMoreDigit(n, k);
    }
  }

  lemma {:induction false} NoDigits(n: nat)
    ensures Parse(LastChars(Decimal(n), 0)) == Some(n % Pow10(0))
  {
    assert LastChars(Decimal(n), 0) == "";
    assert Parse("") == Some(0);
  }

  lemma {:induction false} OneMoreDigit(n: nat, k: nat)
    requires n >= 10 && k > 0 && Parse(LastChars(Decimal(n / 10), k - 1)) == Some(n / 10 % Pow10(k - 1))
    ensures Parse(LastChars(Decimal(n), k)) == Some(n % Pow10(k))
  {
    var t := Decimal(n / 10);
    assert Decimal(n) == t + [Digit(n % 10)];
    assert Pow10(k) == 10 * Pow10(k - 1);
    hide Parse, LastChars, Decimal, Digit, Pow10;
    LastCharsAppend(t, Digit(n % 10), k);
    ParseAppend(LastChars(t, k - 1), n % 10);
    LastDigitSplits(n, Pow10(k - 1));
  }

  lemma {:induction false} OneDigit(n: nat, k: nat)
    requires n < 10 && k > 0
    ensures Parse(LastChars(Decimal(n), k)) == Some(n % Pow10(k))
  {
    assert Decimal(n) == "" + [Digit(n)];
    LastCharsAppend("", Digit(n), k);
    assert LastChars("", k - 1) == "";
    assert Parse("") == Some(0);
    ParseAppend("", n);
    RemainderUnique(n, Pow10(k), 0, n);
  }

  /** The sum in a 256-bit register, cut to six decimal digits. */
  method CalcValidationHash(sha1: string -> nat, ids: seq<string>) returns (h: nat)
    ensures h == Sum(sha1, ids) % TWO_256 % MILLION
  {
    var sum := 0;
    for i := 0 to |ids|
      invariant sum == Sum(sha1, ids[..i]) % TWO_256
    {
      assert ids[..i + 1][..i] == ids[..i];
      WrapOnce(Sum(sha1, ids[..i]), sha1(ids[i]));
      sum := (sum + sha1(ids[i])) % TWO_256;
    }
    assert ids[..|ids|] == ids;
    var text := Decimal(sum);
    var last := if |text| >= 6 then text[|text| - 6..] else text;
    LastDigits(sum, 6);
    SixDigits();
    var parsed := Parse(last);
    h := if parsed.Some? then parsed.value else 0;
  }

  lemma {:induction false} SixDigits()
    ensures Pow10(6) == MILLION
  {
    assert Pow10(3) == 1000;
    assert Pow10(6) == 1000 * Pow10(3);
  }

  lemma {:induction false} WrapOnce(a: nat, b: nat)
    ensures (a % TWO_256 + b) % TWO_256 == (a + b) % TWO_256
  {
  }

  lemma {:induction false} SumBound(sha1: string -> nat, ids: seq<string>)
    requires Digest160(sha1)
    ensures Sum(sha1, ids) <= |ids| * (TWO_160 - 1)
    decreases |ids|
  {
    if ids != [] {
      SumBound(sha1, ids[..|ids| - 1]);
      assert sha1(ids[|ids| - 1]) < TWO_160;
    }
  }

  /** Below 2^96 ids the register never wraps: the hash is the plain sum modulo one million. */
  lemma {:induction false} NoOverflow(sha1: string -> nat, ids: seq<string>)
    requires Digest160(sha1) && |ids| < TWO_96
    ensures Sum(sha1, ids) < TWO_256
    ensures Sum(sha1, ids) % TWO_256 % MILLION == Sum(sha1, ids) % MILLION
  {
    SumBound(sha1, ids);
  }

  lemma {:induction false} SumConcat(sha1: string -> nat, a: seq<string>, b: seq<string>)
    ensures Sum(sha1, a + b) == Sum(sha1, a) + Sum(sha1, b)
    decreases |b|
  {
    if b == [] {
      assert a + b == a;
    } else {
      assert (a + b)[..|a + b| - 1] == a + b[..|b| - 1];
      SumConcat(sha1, a, b[..|b| - 1]);
    }
  }

  /** Hashes add up over concatenated id lists. */
  lemma {:induction false} HashAdditive(sha1: string -> nat, a: seq<string>, b: seq<string>)
    requires Digest160(sha1) && |a| + |b| < TWO_96
    ensures Sum(sha1, a + b) % TWO_256 % MILLION ==
            (Sum(sha1, a) % TWO_256 % MILLION + Sum(sha1, b) % TWO_256 % MILLION) % MILLION
  {
    NoOverflow(sha1, a);
    NoOverflow(sha1, b);
    NoOverflow(sha1, a + b);
    SumConcat(sha1, a, b);
    hide Sum;
    ModAdd(Sum(sha1, a), Sum(sha1, b));
  }

  lemma {:induction false} ModAdd(a: nat, b: nat)
    ensures (a + b) % MILLION == (a % MILLION + b % MILLION) % MILLION
  {
  }

  lemma {:induction false} SumRemove(sha1: string -> nat, ids: seq<string>, i: nat)
    requires i < |ids|
    ensures Sum(sha1, ids) == Sum(sha1, ids[..i] + ids[i + 1..]) + sha1(ids[i])
  {
    assert ids == ids[..i] + ([ids[i]] + ids[i + 1..]);
    SumConcat(sha1, ids[..i], [ids[i]] + ids[i + 1..]);
    SumConcat(sha1, [ids[i]], ids[i + 1..]);
    SumConcat(sha1, ids[..i], ids[i + 1..]);
    assert [ids[i]][..0] == [];
    assert Sum(sha1, [ids[i]]) == sha1(ids[i]);
  }

  /** Taking the last of one list out of another with the same contents leaves the same contents. */
  lemma {:induction false} WithoutLast(a: seq<string>, b: seq<string>, i: nat)
    requires multiset(a) == multiset(b) && a != [] && i < |b| && b[i] == a[|a| - 1]
    ensures multiset(a[..|a| - 1]) == multiset(b[..i] + b[i + 1..])
  {
    var n := |a| - 1;
    assert a == a[..n] + [a[n]];
    assert b == b[..i] + [b[i]] + b[i + 1..];
    assert multiset(a) == multiset(a[..n]) + multiset{a[n]};
    var rest := b[..i] + b[i + 1..];
    assert multiset(rest) == multiset(b[..i]) + multiset(b[i + 1..]);
    assert multiset(b) == multiset(rest) + multiset{b[i]};
    assert multiset(a[..n]) == multiset(a) - multiset{a[n]} == multiset(b) - multiset{b[i]} == multiset(rest);
  }

  /** The hash depends only on which ids there are, not on their order. */
  lemma {:induction false} HashOrderIrrelevant(sha1: string -> nat, a: seq<string>, b: seq<string>)
    requires multiset(a) == multiset(b)
    ensures Sum(sha1, a) == Sum(sha1, b)
    ensures Sum(sha1, a) % TWO_256 % MILLION == Sum(sha1, b) % TWO_256 % MILLION
    decreases |a|
  {
    if a == [] {
      assert |multiset(b)| == 0;
    } else {
      var n := |a| - 1;
      assert a[n] in multiset(b);
      var i :| 0 <= i < |b| && b[i] == a[n];
      WithoutLast(a, b, i);
      HashOrderIrrelevant(sha1, a[..n], b[..i] + b[i + 1..]);
      SumRemove(sha1, b, i);
    }
  }
}
