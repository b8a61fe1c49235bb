/** Decimal rendering of numbers. */
module Text {
  function Digit(d: nat): (ch: char)
    requires d < 10
    ensures '0' <= ch <= '9' && ch as nat == '0' as nat + d
  {
    ('0' as nat + d) as char
  }

  /** Decimal digits of `n` without leading zeros. */
  function Decimal(n: nat): (s: string)
    ensures |s| > 0
  {
    if n < 10 then [Digit(n)] else Decimal(n / 10) + [Digit(n % 10)]
  }

  lemma {:induction false} DecimalInjective(m: nat, n: nat)
    requires Decimal(m) == Decimal(n)
    ensures m == n
    decreases m
  {
    var s, t := Decimal(m), Decimal(n);
    if m < 10 || n < 10 {
      assert |s| == |t|;
    } else {
      assert s[..|s| - 1] == Decimal(m / 10) && t[..|t| - 1] == Decimal(n / 10);
      DecimalInjective(m / 10, n / 10);
      assert s[|s| - 1] == Digit(m % 10) && t[|t| - 1] == Digit(n % 10);
    }
  }
}
