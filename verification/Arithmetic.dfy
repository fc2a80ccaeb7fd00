// Powers of two, division and counting facts the other modules need.

module Arithmetic {

  function Pow2(n: nat): (r: nat)
    ensures r >= 1
  {
    if n == 0 then 1 else 2 * Pow2(n - 1)
  }

  lemma DivDiv(i: nat, m: nat)
    requires m >= 1
    ensures i / 2 / m == i / (2 * m)
  {
    var q, r := i / 2 / m, i / 2 % m;
    assert i / 2 == m * q + r;
    var s := 2 * r + i % 2;
    assert i == (2 * m) * q + s && 0 <= s < 2 * m;
    DivUnique(i, 2 * m, q, s);
  }

  lemma DivUnique(x: nat, d: nat, q: nat, r: nat)
    requires d >= 1 && x == d * q + r && r < d
    ensures x / d == q
  {
    var k := q - x / d;
    Distribute(d, x / d, k);
    if k >= 1 {
      AtLeastOnce(d, k);
    } else if k <= -1 {
      AtLeastOnce(d, -k);
    }
  }

  lemma Distribute(d: int, x: int, y: int)
    ensures d * (x + y) == d * x + d * y
  {
  }

  lemma AtLeastOnce(d: int, k: int)
    requires d >= 1 && k >= 1
    ensures d * k >= d && d * -k <= -d
  {
  }

  lemma ModSmall(x: nat, d: nat)
    requires x < d
    ensures x % d == x
  {
    DivUnique(x, d, 0, x);
  }

  lemma ModSelf(d: nat)
    requires d >= 1
    ensures d % d == 0
  {
    DivUnique(d, d, 1, 0);
  }

  lemma {:induction false} SubsetSize<T>(s: set<T>, t: set<T>)
    requires s <= t
    ensures |s| <= |t|
  {
    if s != {} {
      var x :| x in s;
      SubsetSize(s - {x}, t - {x});
    }
  }

  // Distinct numbers from 1 to maxvar.
  ghost predicate Once(vars: seq<nat>, maxvar: nat) {
    && (forall i: nat, j: nat :: i < j < |vars| ==> vars[i] != vars[j])
    && forall i: nat :: i < |vars| ==> 1 <= vars[i] <= maxvar
  }

  lemma {:induction false} RangeSize(m: nat) returns (s: set<nat>)
    ensures |s| == m && forall v: nat :: v in s <==> 1 <= v <= m
  {
    if m == 0 {
      s := {};
    } else {
      s := RangeSize(m - 1);
      s := s + {m};
    }
  }

  lemma {:induction false} OnceSize(vars: seq<nat>, maxvar: nat) returns (s: set<nat>)
    requires Once(vars, maxvar)
    ensures |s| == |vars| && forall v :: v in s <==> v in vars
  {
    if vars == [] {
      s := {};
    } else {
      var front, last := vars[..|vars| - 1], vars[|vars| - 1];
      assert vars == front + [last];
      s := OnceSize(front, maxvar);
      s := s + {last};
    }
  }

  // There are at most maxvar of them.
  lemma OnceBound(vars: seq<nat>, maxvar: nat)
    requires Once(vars, maxvar)
    ensures |vars| <= maxvar
  {
    var s := OnceSize(vars, maxvar);
    var t := RangeSize(maxvar);
    SubsetSize(s, t);
  }
}
