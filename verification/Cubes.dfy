// Cubes over n positions: 0 and 1 are literals, 2 is a don't-care.  A point is
// a cube without don't-cares; position 0 is the least significant bit of its
// index into the truth table.

module Cubes {
  import opened Arithmetic
  import opened Basics

  type Cube = seq<int>

  predicate IsCube(c: Cube, n: nat) {
    |c| == n && forall k :: 0 <= k < n ==> 0 <= c[k] <= 2
  }

  predicate IsPoint(p: Cube, n: nat) {
    |p| == n && forall k :: 0 <= k < n ==> 0 <= p[k] <= 1
  }

  // Also the subsumption test: every literal of c occurs in d.
  predicate Covers(c: Cube, d: Cube) {
    |c| == |d| && forall k :: 0 <= k < |c| ==> c[k] == 2 || c[k] == d[k]
  }

  lemma CoversTransitive(c: Cube, d: Cube, e: Cube)
    requires Covers(c, d) && Covers(d, e)
    ensures Covers(c, e)
  {
    forall k | 0 <= k < |c| ensures c[k] == 2 || c[k] == e[k] {
      assert c[k] == 2 || c[k] == d[k];
    }
  }

  // ----- points and truth-table indices -----

  function Bits(i: nat, n: nat): Cube {
    if n == 0 then [] else [i % 2] + Bits(i / 2, n - 1)
  }

  function Index(p: Cube): nat
    requires IsPoint(p, |p|)
  {
    if p == [] then 0 else assert IsPoint(p[1..], |p| - 1); p[0] + 2 * Index(p[1..])
  }

  lemma {:induction false} BitsIndex(p: Cube, n: nat)
    requires IsPoint(p, n)
    ensures Index(p) < Pow2(n) && Bits(Index(p), n) == p
  {
    if n > 0 {
      assert IsPoint(p[1..], n - 1);
      BitsIndex(p[1..], n - 1);
    }
  }

  lemma {:induction false} IndexBits(i: nat, n: nat)
    requires i < Pow2(n)
    ensures IsPoint(Bits(i, n), n) && Index(Bits(i, n)) == i
  {
    if n > 0 {
      IndexBits(i / 2, n - 1);
      assert Bits(i, n)[1..] == Bits(i / 2, n - 1);
    }
  }

  // The bit that the C expression i / (1 << j) % 2 reads.
  lemma {:induction false} BitAt(i: nat, n: nat, j: nat)
    requires j < n
    ensures |Bits(i, n)| == n && Bits(i, n)[j] == i / Pow2(j) % 2
  {
    if j == 0 {
      BitsLength(i, n);
    } else {
      BitAt(i / 2, n - 1, j - 1);
      DivDiv(i, Pow2(j - 1));
    }
  }

  lemma {:induction false} BitsLength(i: nat, n: nat)
    ensures |Bits(i, n)| == n
  {
    if n > 0 {
      BitsLength(i / 2, n - 1);
    }
  }

  // ----- implicants and primes of { p | tt[Index(p)] == sign } -----

  ghost predicate On(tt: seq<int>, sign: int, p: Cube)
    requires IsPoint(p, |p|) && |tt| == Pow2(|p|)
  {
    BitsIndex(p, |p|);
    tt[Index(p)] == sign
  }

  ghost predicate Implicant(tt: seq<int>, sign: int, n: nat, c: Cube)
    requires |tt| == Pow2(n)
  {
    && IsCube(c, n)
    && forall p :: IsPoint(p, n) && Covers(c, p) ==> On(tt, sign, p)
  }

  ghost predicate Prime(tt: seq<int>, sign: int, n: nat, c: Cube)
    requires |tt| == Pow2(n)
  {
    && Implicant(tt, sign, n, c)
    && forall d :: Implicant(tt, sign, n, d) && Covers(d, c) ==> d == c
  }

  lemma PointImplicant(tt: seq<int>, sign: int, n: nat, p: Cube)
    requires |tt| == Pow2(n) && IsPoint(p, n)
    ensures Implicant(tt, sign, n, p) <==> On(tt, sign, p)
  {
    assert Covers(p, p);
    forall q | IsPoint(q, n) && Covers(p, q) ensures q == p {
      CoverPoint(p, q);
    }
  }

  lemma CoverPoint(p: Cube, q: Cube)
    requires IsPoint(p, |p|) && Covers(p, q)
    ensures p == q
  {
  }

  lemma SplitImplicant(tt: seq<int>, sign: int, n: nat, c: Cube, t: nat)
    requires |tt| == Pow2(n) && IsCube(c, n) && t < n && c[t] == 2
    ensures Implicant(tt, sign, n, c) <==>
            Implicant(tt, sign, n, c[t := 0]) && Implicant(tt, sign, n, c[t := 1])
  {
    forall p | IsPoint(p, n)
      ensures Covers(c, p) <==> Covers(c[t := 0], p) || Covers(c[t := 1], p)
    {
      if Covers(c, p) {
        var d := c[t := p[t]];
        assert Covers(d, p);
      }
      if Covers(c[t := 0], p) {
        WidenCovers(c, t, 0, p);
      }
      if Covers(c[t := 1], p) {
        WidenCovers(c, t, 1, p);
      }
    }
  }

  lemma WidenCovers(c: Cube, t: nat, x: int, p: Cube)
    requires t < |c| && c[t] == 2 && Covers(c[t := x], p)
    ensures Covers(c, p)
  {
    forall k | 0 <= k < |c| ensures c[k] == 2 || c[k] == p[k] {
      assert k == t || c[t := x][k] == c[k];
    }
  }

  // An implicant inside an implicant: fewer literals can only cover more.
  lemma ShrinkImplicant(tt: seq<int>, sign: int, n: nat, c: Cube, d: Cube)
    requires |tt| == Pow2(n) && Implicant(tt, sign, n, c) && IsCube(d, n) && Covers(c, d)
    ensures Implicant(tt, sign, n, d)
  {
    forall p | IsPoint(p, n) && Covers(d, p) ensures On(tt, sign, p) {
      CoversTransitive(c, d, p);
    }
  }

  // The literal at t can be dropped.
  ghost predicate DropAt(tt: seq<int>, sign: int, n: nat, c: Cube, t: int)
    requires |tt| == Pow2(n) && 0 <= t < |c|
  {
    Implicant(tt, sign, n, c[t := 2])
  }

  // A prime is exactly an implicant none of whose literals can be dropped.
  lemma PrimeByLiterals(tt: seq<int>, sign: int, n: nat, c: Cube)
    requires |tt| == Pow2(n) && Implicant(tt, sign, n, c)
    ensures Prime(tt, sign, n, c) <==>
            forall t {:trigger DropAt(tt, sign, n, c, t)} :: 0 <= t < n && c[t] != 2 ==> !DropAt(tt, sign, n, c, t)
  {
    if Prime(tt, sign, n, c) {
      forall t | 0 <= t < n && c[t] != 2 ensures !DropAt(tt, sign, n, c, t) {
        assert Covers(c[t := 2], c);
        assert c[t := 2][t] == 2;
      }
    }
    if forall t {:trigger DropAt(tt, sign, n, c, t)} :: 0 <= t < n && c[t] != 2 ==> !DropAt(tt, sign, n, c, t) {
      forall d | Implicant(tt, sign, n, d) && Covers(d, c) ensures d == c {
        if d != c {
          var t :| 0 <= t < n && d[t] != c[t];
          assert d[t] == 2;
          assert Covers(d, c[t := 2]);
          ShrinkImplicant(tt, sign, n, d, c[t := 2]);
          assert DropAt(tt, sign, n, c, t);
        }
      }
    }
  }

  function Literals(c: Cube): (r: nat) {
    if c == [] then 0 else (if c[0] != 2 then 1 else 0) + Literals(c[1..])
  }

  lemma {:induction false} LiteralsDrop(c: Cube, t: nat)
    requires t < |c| && c[t] != 2
    ensures Literals(c[t := 2]) == Literals(c) - 1
  {
    if t > 0 {
      LiteralsDrop(c[1..], t - 1);
      assert c[t := 2][1..] == c[1..][t - 1 := 2];
    } else {
      assert c[t := 2][1..] == c[1..];
    }
  }

  lemma {:induction false} CoveredByPrime(tt: seq<int>, sign: int, n: nat, c: Cube) returns (d: Cube)
    requires |tt| == Pow2(n) && Implicant(tt, sign, n, c)
    ensures Prime(tt, sign, n, d) && Covers(d, c)
    decreases Literals(c)
  {
    PrimeByLiterals(tt, sign, n, c);
    if Prime(tt, sign, n, c) {
      d := c;
    } else {
      var t :| 0 <= t < n && c[t] != 2 && DropAt(tt, sign, n, c, t);
      LiteralsDrop(c, t);
      d := CoveredByPrime(tt, sign, n, c[t := 2]);
      assert Covers(c[t := 2], c);
      CoversTransitive(d, c[t := 2], c);
    }
  }

  // A list of cubes that holds every prime once and nothing else.
  ghost predicate ExactlyPrimes(tt: seq<int>, sign: int, n: nat, cs: seq<Cube>)
    requires |tt| == Pow2(n)
  {
    && NoDuplicates(cs)
    && forall c :: c in cs <==> Prime(tt, sign, n, c)
  }

  // The primes cover exactly the points the table marks.
  lemma PrimesCover(tt: seq<int>, sign: int, n: nat, cs: seq<Cube>, p: Cube)
    requires |tt| == Pow2(n) && ExactlyPrimes(tt, sign, n, cs) && IsPoint(p, n)
    ensures On(tt, sign, p) <==> exists c :: c in cs && Covers(c, p)
  {
    PointImplicant(tt, sign, n, p);
    if On(tt, sign, p) {
      var d := CoveredByPrime(tt, sign, n, p);
      assert d in cs;
    }
  }
}
