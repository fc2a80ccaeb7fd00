// Truth tables of diagrams (src/formats/smurf.cc) and the default branch of
// printBDDToCNFQM (src/formats/bdd2cnf.cc) from diagram to printed clauses.

module TruthTable {
  import opened Arithmetic
  import opened Bdd
  import opened Clauses
  import opened Cubes
  import QuineMcCluskey

  // ----- bcount: add one to a vector of '0' and '1', position 0 first -----

  predicate Binary(s: seq<char>) {
    forall k :: 0 <= k < |s| ==> s[k] == '0' || s[k] == '1'
  }

  function PointOf(s: seq<char>): Cube {
    seq(|s|, k requires 0 <= k < |s| => if s[k] == '1' then 1 else 0)
  }

  function Increment(c: Cube): Cube {
    if c == [] then [] else if c[0] == 0 then [1] + c[1..] else [0] + Increment(c[1..])
  }

  lemma {:induction false} IncrementAt(c: Cube, x: nat)
    requires IsPoint(c, |c|) && x < |c|
    ensures |Increment(c)| == |c|
    ensures Increment(c)[x] == if forall y :: 0 <= y < x ==> c[y] == 1 then 1 - c[x] else c[x]
  {
    IncrementLength(c);
    if c[0] == 1 && x > 0 {
      IncrementAt(c[1..], x - 1);
      assert forall y :: 0 <= y < x - 1 ==> c[1..][y] == c[y + 1];
      if forall y :: 0 <= y < x - 1 ==> c[1..][y] == 1 {
        assert forall y :: 1 <= y < x ==> c[y] == c[1..][y - 1];
      }
    }
  }

  lemma {:induction false} IncrementLength(c: Cube)
    requires IsPoint(c, |c|)
    ensures IsPoint(Increment(c), |c|)
  {
    if c != [] && c[0] != 0 {
      IncrementLength(c[1..]);
    }
  }

  lemma CarryStep(rest: nat, m: nat)
    requires rest < m
    ensures (2 * rest + 2) % (2 * m) == 2 * ((rest + 1) % m)
  {
    if rest + 1 == m {
      ModSelf(m);
      ModSelf(2 * m);
    } else {
      ModSmall(rest + 1, m);
      ModSmall(2 * rest + 2, 2 * m);
    }
  }

  // Increment is addition of one modulo 2^n on indices.
  lemma {:induction false} IncrementIndex(c: Cube, n: nat)
    requires IsPoint(c, n)
    ensures IsPoint(Increment(c), n)
    ensures Index(Increment(c)) == (Index(c) + 1) % Pow2(n)
  {
    IncrementLength(c);
    BitsIndex(c, n);
    if n > 0 {
      assert IsPoint(c[1..], n - 1);
      BitsIndex(c[1..], n - 1);
      if c[0] == 0 {
        assert Increment(c)[1..] == c[1..];
        ModSmall(Index(c) + 1, Pow2(n));
      } else {
        assert Increment(c)[1..] == Increment(c[1..]);
        IncrementIndex(c[1..], n - 1);
        CarryStep(Index(c[1..]), Pow2(n - 1));
      }
    }
  }

  // The inner loop: every position below x holds '1'.
  method CarryReaches(p: array<char>, x: nat) returns (flip: bool)
    requires x <= p.Length && Binary(p[..x])
    ensures flip <==> forall y :: 0 <= y < x ==> p[y] == '1'
  {
    var y := x - 1;
    while y >= 0
      invariant -1 <= y < x
      invariant forall z :: y < z < x ==> p[z] == '1'
    {
      if p[y] == '0' {
        return false;
      }
      assert p[..x][y] == p[y];
      y := y - 1;
    }
    flip := true;
  }

  method BCount(p: array<char>, i: int)
    requires -1 <= i < p.Length && 0 < p.Length
    requires Binary(p[..i + 1])
    modifies p
    ensures Binary(p[..i + 1])
    ensures PointOf(p[..i + 1]) == Increment(old(PointOf(p[..i + 1])))
    ensures forall k :: 1 <= k < p.Length && i < k ==> p[k] == old(p[k])
  {
    ghost var was := PointOf(p[..i + 1]);
    ghost var before := p[..];
    var x := i;
    while x > 0
      invariant x <= i && (0 <= i ==> 0 <= x)
      invariant forall k :: 0 <= k <= x && k <= i ==> p[k] == before[k]
      invariant forall k :: x < k <= i ==>
                  p[k] == if forall y :: 0 <= y < k ==> before[y] == '1' then Flip(before[k]) else before[k]
      invariant forall k :: i < k < p.Length ==> p[k] == before[k]
    {
      var flip := CarryReaches(p, x);
      if flip {
        p[x] := if p[x] == '0' then '1' else '0';
      }
      x := x - 1;
    }
    p[0] := if p[0] == '1' then '0' else '1';
    Carried(before, p[..], i, was);
  }

  // Bit k flips if and only if all lower bits are set: that adds one.
  lemma Carried(before: seq<char>, after: seq<char>, i: int, was: seq<nat>)
    requires -1 <= i < |before| == |after| && Binary(before[..i + 1]) && was == PointOf(before[..i + 1])
    requires forall k :: 0 <= k <= i ==>
               after[k] == if forall y :: 0 <= y < k ==> before[y] == '1' then Flip(before[k]) else before[k]
    ensures Binary(after[..i + 1]) && PointOf(after[..i + 1]) == Increment(was)
  {
    var from, to := before[..i + 1], after[..i + 1];
    assert forall y :: 0 <= y <= i ==> from[y] == before[y] && to[y] == after[y];
    assert forall y :: 0 <= y <= i ==> (was[y] == 1 <==> from[y] == '1');
    IncrementLength(was);
    forall k | 0 <= k <= i ensures PointOf(to)[k] == Increment(was)[k] {
      IncrementAt(was, k);
      assert (forall y :: 0 <= y < k ==> was[y] == 1) <==> (forall y :: 0 <= y < k ==> before[y] == '1');
    }
    assert PointOf(to) == Increment(was);
  }

  function Flip(c: char): char {
    if c == '0' then '1' else '0'
  }

  // ----- getTruth: walk the diagram along one vector -----

  ghost predicate Agrees(num: seq<nat>, p: seq<char>, a: Assignment)
    requires |num| <= |p|
  {
    forall k :: 0 <= k < |num| ==> (num[k] in a <==> p[k] == '1')
  }

  // Both children of a terminal are the terminal itself.
  function Child(f: Bdd, bit: bool): (r: Bdd) {
    if f.Node? then if bit then f.hi else f.lo else f
  }

  lemma RootInSupport(f: Bdd)
    ensures f.Node? ==> f.v in Support(f)
  {
  }

  method GetTruth(num: seq<nat>, p: array<char>, y: nat, root: Bdd, ghost a: Assignment) returns (r: int)
    requires y == |num| <= p.Length
    requires Ascending(num) && Robdd(root)
    requires forall v :: v in Support(root) ==> v in num
    requires Agrees(num, p[..], a)
    ensures r == if Eval(root, a) then 1 else 0
  {
    var ptr := root;
    var x := y - 1;
    while x >= 0
      invariant -1 <= x < y
      invariant Robdd(ptr) && Eval(ptr, a) == Eval(root, a)
      invariant forall v :: v in Support(ptr) ==> v in num[..x + 1]
    {
      while x >= 0 && num[x] != Top(ptr)
        invariant -1 <= x < y
        invariant forall v :: v in Support(ptr) ==> v in num[..x + 1]
      {
        forall v | v in Support(ptr) ensures v in num[..x] {
          SupportBelowTop(ptr);
          assert ptr.Node? && ptr.v in num[..x + 1];
          assert v in num[..x + 1];
        }
        x := x - 1;
      }
      // At x == -1 the original reads in front of the vector; the walk has
      // then reached a terminal, where either child is the same node.
      var bit := x >= 0 && p[x] == '1';
      if ptr.Node? {
        assert ptr.v in Support(ptr);
        assert x >= 0 && p[..][x] == p[x];
      }
      if x >= 0 {
        SupportBelowTop(ptr);
        SupportBelowTop(Child(ptr, bit));
        forall v | v in Support(Child(ptr, bit)) ensures v in num[..x] {
          assert v in num[..x + 1] && v < num[x];
        }
      }
      ptr := Child(ptr, bit);
      x := x - 1;
      if x < -1 {
        x := -1;
      }
    }
    RootInSupport(ptr);
    r := if ptr.True? then 1 else 0;
  }

  // ----- the whole table -----

  ghost function AssignmentOf(vars: seq<nat>, c: Cube): Assignment
    requires |c| == |vars|
  {
    iset k | 0 <= k < |vars| && c[k] == 1 :: vars[k]
  }

  ghost function Entry(f: Bdd, vars: seq<nat>, c: Cube): int
    requires |c| == |vars|
  {
    if Eval(f, AssignmentOf(vars, c)) then 1 else 0
  }

  ghost predicate IsTable(tt: seq<int>, f: Bdd, vars: seq<nat>) {
    && |tt| == Pow2(|vars|)
    && forall k :: 0 <= k < |tt| ==> |Bits(k, |vars|)| == |vars| && tt[k] == Entry(f, vars, Bits(k, |vars|))
  }

  lemma AscendingAgrees(vars: seq<nat>, p: seq<char>, c: Cube)
    requires Ascending(vars) && |vars| == |c| <= |p| && c == PointOf(p[..|vars|])
    ensures Agrees(vars, p, AssignmentOf(vars, c))
  {
    forall k | 0 <= k < |vars| ensures vars[k] in AssignmentOf(vars, c) <==> p[k] == '1' {
      if vars[k] in AssignmentOf(vars, c) {
        var l :| 0 <= l < |vars| && vars[l] == vars[k] && c[l] == 1;
        assert l == k;
      }
      if p[k] == '1' {
        assert c[k] == 1;
      }
    }
  }

  // One turn of the loop reads the vector of index tvec and leaves the next.
  method TableEntry(vars: seq<nat>, p: array<char>, f: Bdd, tvec: nat) returns (r: int)
    requires Robdd(f) && Ascending(vars) && |vars| < p.Length
    requires forall v :: v in Support(f) ==> v in vars
    requires Binary(p[..|vars|]) && tvec < Pow2(|vars|)
    requires PointOf(p[..|vars|]) == Bits(tvec, |vars|)
    modifies p
    ensures |Bits(tvec, |vars|)| == |vars| && r == Entry(f, vars, Bits(tvec, |vars|))
    ensures Binary(p[..|vars|])
    ensures tvec + 1 < Pow2(|vars|) ==> PointOf(p[..|vars|]) == Bits(tvec + 1, |vars|)
  {
    ghost var n := |vars|;
    ghost var c := PointOf(p[..n]);
    IndexBits(tvec, n);
    AscendingAgrees(vars, p[..], c);
    r := GetTruth(vars, p, |vars|, f, AssignmentOf(vars, c));
    BCount(p, |vars| - 1);
    if tvec + 1 < Pow2(n) {
      NextVector(tvec, n);
    }
  }

  lemma NextVector(i: nat, n: nat)
    requires i + 1 < Pow2(n)
    ensures IsPoint(Bits(i, n), n) && Increment(Bits(i, n)) == Bits(i + 1, n)
  {
    IndexBits(i, n);
    IncrementIndex(Bits(i, n), n);
    ModSmall(i + 1, Pow2(n));
    BitsIndex(Increment(Bits(i, n)), n);
  }

  method BuildTable(vars: seq<nat>, f: Bdd) returns (tt: seq<int>)
    requires Robdd(f) && Ascending(vars)
    requires forall v :: v in Support(f) ==> v in vars
    ensures IsTable(tt, f, vars)
  {
    var n := |vars|;
    var p := new char[n + 1](_ => '0');
    tt := [];
    AllZero(PointOf(p[..n]), n);
    BitsIndex(PointOf(p[..n]), n);
    for tvec := 0 to Pow2(n)
      invariant |tt| == tvec
      invariant Binary(p[..n])
      invariant tvec < Pow2(n) ==> PointOf(p[..n]) == Bits(tvec, n)
      invariant forall k :: 0 <= k < tvec ==> |Bits(k, n)| == n && tt[k] == Entry(f, vars, Bits(k, n))
    {
      var r := TableEntry(vars, p, f, tvec);
      tt := tt + [r];
    }
  }

  lemma {:induction false} AllZero(c: Cube, n: nat)
    requires IsPoint(c, n) && forall k :: 0 <= k < n ==> c[k] == 0
    ensures Index(c) == 0
  {
    if n > 0 {
      AllZero(c[1..], n - 1);
    }
  }

  // ----- printing: a cube of zeros becomes the clause that excludes it -----

  function LiteralOf(v: nat, x: int): seq<int> {
    if x == 1 then [-(v as int)] else if x == 0 then [v as int] else []
  }

  function ClauseOf(vars: seq<nat>, c: Cube): seq<int>
    requires |c| == |vars|
  {
    if c == [] then []
    else LiteralOf(vars[0], c[0]) + ClauseOf(vars[1..], c[1..])
  }

  ghost function PointIn(vars: seq<nat>, a: Assignment): Cube {
    seq(|vars|, k requires 0 <= k < |vars| => if vars[k] in a then 1 else 0)
  }

  lemma LiteralExcludes(v: nat, x: int, a: Assignment)
    requires 1 <= v && 0 <= x <= 2
    ensures ClauseTrue(LiteralOf(v, x), a) <==> x != 2 && x != if v in a then 1 else 0
  {
    if x < 2 {
      assert ClauseTrue(LiteralOf(v, x), a) <==> LitTrue(LiteralOf(v, x)[0], a);
    }
  }

  lemma {:induction false} ClauseExcludes(vars: seq<nat>, c: Cube, a: Assignment)
    requires IsCube(c, |vars|) && forall k :: 0 <= k < |vars| ==> 1 <= vars[k]
    ensures ClauseTrue(ClauseOf(vars, c), a) <==> !Covers(c, PointIn(vars, a))
  {
    if c != [] {
      ClauseExcludes(vars[1..], c[1..], a);
      assert PointIn(vars[1..], a) == PointIn(vars, a)[1..];
      LiteralExcludes(vars[0], c[0], a);
      ClauseTrueConcat(LiteralOf(vars[0], c[0]), ClauseOf(vars[1..], c[1..]), a);
      CoversTail(c, PointIn(vars, a));
    }
  }

  lemma CoversTail(c: Cube, d: Cube)
    requires |c| == |d| && c != []
    ensures Covers(c, d) <==> (c[0] == 2 || c[0] == d[0]) && Covers(c[1..], d[1..])
  {
    if (c[0] == 2 || c[0] == d[0]) && Covers(c[1..], d[1..]) {
      forall k | 0 <= k < |c| ensures c[k] == 2 || c[k] == d[k] {
        if k > 0 {
          assert c[1..][k - 1] == 2 || c[1..][k - 1] == d[1..][k - 1];
        }
      }
    }
  }

  lemma ClauseTrueConcat(c: seq<int>, d: seq<int>, a: Assignment)
    ensures ClauseTrue(c + d, a) <==> ClauseTrue(c, a) || ClauseTrue(d, a)
  {
    if ClauseTrue(c, a) {
      var k :| 0 <= k < |c| && LitTrue(c[k], a);
      assert LitTrue((c + d)[k], a);
    }
    if ClauseTrue(d, a) {
      var k :| 0 <= k < |d| && LitTrue(d[k], a);
      assert LitTrue((c + d)[|c| + k], a);
    }
  }

  // A diagram only sees its own variables.
  lemma EntryIsEval(f: Bdd, vars: seq<nat>, a: Assignment)
    requires forall v :: v in Support(f) ==> v in vars
    ensures Entry(f, vars, PointIn(vars, a)) == if Eval(f, a) then 1 else 0
  {
    var b := AssignmentOf(vars, PointIn(vars, a));
    forall v | v in Support(f) ensures v in a <==> v in b {
      var k :| 0 <= k < |vars| && vars[k] == v;
      assert PointIn(vars, a)[k] == 1 <==> v in a;
    }
    EvalSupport(f, a, b);
  }

  // The clauses of the primes of the zeros are the diagram.
  lemma ZerosAreTheDiagram(f: Bdd, vars: seq<nat>, tt: seq<int>, cubes: seq<Cube>, a: Assignment)
    requires IsTable(tt, f, vars) && ExactlyPrimes(tt, 0, |vars|, cubes)
    requires forall v :: v in Support(f) <==> v in vars
    requires forall k :: 0 <= k < |vars| ==> 1 <= vars[k]
    ensures Eval(f, a) <==> forall k :: 0 <= k < |cubes| ==>
              |cubes[k]| == |vars| && ClauseTrue(ClauseOf(vars, cubes[k]), a)
  {
    var n, p := |vars|, PointIn(vars, a);
    BitsIndex(p, n);
    EntryIsEval(f, vars, a);
    PrimesCover(tt, 0, n, cubes, p);
    forall k | 0 <= k < |cubes|
      ensures |cubes[k]| == n && (ClauseTrue(ClauseOf(vars, cubes[k]), a) <==> !Covers(cubes[k], p))
    {
      assert cubes[k] in cubes;
      ClauseExcludes(vars, cubes[k], a);
    }
  }

  // One position of the record done.
  lemma ClauseFrom(vars: seq<nat>, c: Cube, i: nat, clause: seq<int>)
    requires |c| == |vars| && i < |c|
    ensures clause + LiteralOf(vars[i], c[i]) + ClauseOf(vars[i + 1..], c[i + 1..]) == clause + ClauseOf(vars[i..], c[i..])
  {
    assert vars[i..][1..] == vars[i + 1..] && c[i..][1..] == c[i + 1..];
  }

  method PrintClause(vars: seq<nat>, c: Cube) returns (clause: seq<int>)
    requires IsCube(c, |vars|)
    ensures clause == ClauseOf(vars, c)
  {
    clause := [];
    for i := 0 to |vars|
      invariant clause + ClauseOf(vars[i..], c[i..]) == ClauseOf(vars, c)
    {
      ClauseFrom(vars, c, i, clause);
      clause := PrintLiteral(clause, vars[i], c[i]);
    }
  }

  // Nothing for a don't-care.
  method PrintLiteral(clause: seq<int>, v: nat, x: int) returns (clause': seq<int>)
    requires 0 <= x <= 2
    ensures clause' == clause + LiteralOf(v, x)
  {
    clause' := clause;
    if x < 2 {
      if x == 1 {
        clause' := clause + [-(v as int)];
      } else {
        clause' := clause + [v as int];
      }
    }
  }
}
