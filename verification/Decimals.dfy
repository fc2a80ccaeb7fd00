// Decimal digits of numbers, as bytes.

module Decimals {
  function Decimal(n: nat): seq<nat> {
    if n < 10 then [48 + n] else Decimal(n / 10) + [48 + n % 10]
  }

  predicate IsDigit(ch: int) { 48 <= ch <= 57 }

  predicate AllDigits(s: seq<nat>) {
    forall k :: 0 <= k < |s| ==> IsDigit(s[k])
  }

  lemma {:induction false} DecimalDigits(n: nat)
    ensures |Decimal(n)| > 0 && AllDigits(Decimal(n))
    ensures n > 0 ==> Decimal(n)[0] != 48
  {
    if n >= 10 {
      DecimalDigits(n / 10);
    }
  }

  // Different numbers print differently.
  lemma {:induction false} DecimalInjective(m: nat, n: nat)
    requires Decimal(m) == Decimal(n)
    ensures m == n
  {
    DecimalDigits(m / 10);
    DecimalDigits(n / 10);
    var s, t := Decimal(m), Decimal(n);
    assert s[|s| - 1] == 48 + m % 10 && t[|t| - 1] == 48 + n % 10;
    if m >= 10 {
      assert s[..|s| - 1] == Decimal(m / 10);
      assert n >= 10;
      assert t[..|t| - 1] == Decimal(n / 10);
      DecimalInjective(m / 10, n / 10);
    }
  }
}
