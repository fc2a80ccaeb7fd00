// find_and_build_iteequals (src/formats/cnf.cc): four three-literal clauses
// that say x is an if-then-else, found from two pairs that differ in the sign
// of x and of one other literal.

module IteSearch {
  import opened Bdd
  import opened Clauses
  import opened ClauseOrder
  import opened ClauseStore
  import opened XorSearch
  import opened ThreeLists

  // ----- a clause with x against one with -x -----

  predicate HasSign(l: int, s: int) {
    if s > 0 then l > 0 else l < 0
  }

  // Literal z of c (not x itself), of sign s, occurs in d.
  predicate SameAt(c: seq<int>, d: seq<int>, x: int, s: int, z: int)
    requires |c| == 3
  {
    0 <= z < 3 && c[z] != x && HasSign(c[z], s) && c[z] in d
  }

  // Literal z of c (not x itself) occurs negated in d.
  predicate OppositeAt(c: seq<int>, d: seq<int>, x: int, z: int)
    requires |c| == 3
  {
    0 <= z < 3 && c[z] != x && -c[z] in d
  }

  function Hits(c: seq<int>, d: seq<int>, x: int, s: int, bound: nat): nat
    requires |c| == 3 && bound <= 3
  {
    if bound == 0 then 0
    else Hits(c, d, x, s, bound - 1)
         + if SameAt(c, d, x, s, bound - 1) || OppositeAt(c, d, x, bound - 1) then 1 else 0
  }

  method ScanLiteral(l: int, d: seq<int>, s: int) returns (same: nat, opposite: nat)
    requires |d| == 3 && Proper(d) && l != 0
    ensures same == if HasSign(l, s) && l in d then 1 else 0
    ensures opposite == if -l in d then 1 else 0
    ensures same + opposite <= 1
  {
    same, opposite := 0, 0;
    for j := 0 to 3
      invariant same == if HasSign(l, s) && l in d[..j] then 1 else 0
      invariant opposite == if -l in d[..j] then 1 else 0
    {
      if l == d[j] && HasSign(l, s) {
        same := same + 1;
      } else if -l == d[j] {
        opposite := opposite + 1;
      }
      assert d[..j + 1] == d[..j] + [d[j]];
    }
    assert d[..3] == d;
  }

  method Scan(c: seq<int>, d: seq<int>, x: int, s: int) returns (count: nat, v0: int, v1: int)
    requires |c| == 3 && Proper(c) && |d| == 3 && Proper(d)
    ensures count == Hits(c, d, x, s, 3)
    ensures v0 == -1 || SameAt(c, d, x, s, v0)
    ensures v0 == -1 ==> forall z :: !SameAt(c, d, x, s, z)
    ensures v1 == -1 || OppositeAt(c, d, x, v1)
    ensures v1 == -1 ==> forall z :: !OppositeAt(c, d, x, z)
  {
    count, v0, v1 := 0, -1, -1;
    for z := 0 to 3
      invariant count == Hits(c, d, x, s, z)
      invariant v0 == -1 || SameAt(c, d, x, s, v0)
      invariant v0 == -1 ==> forall y :: y < z ==> !SameAt(c, d, x, s, y)
      invariant v1 == -1 || OppositeAt(c, d, x, v1)
      invariant v1 == -1 ==> forall y :: y < z ==> !OppositeAt(c, d, x, y)
    {
      if c[z] != x {
        var same, opposite := ScanLiteral(c[z], d, s);
        count := count + same + opposite;
        if same == 1 {
          v0 := z;
        }
        if opposite == 1 {
          v1 := z;
        }
      }
    }
  }

  // ----- halves -----

  function Negatives(c: seq<int>): nat {
    if c == [] then 0 else Negatives(Front(c)) + if Last(c) < 0 then 1 else 0
  }

  // Both other literals of c meet clause d.
  ghost predicate Meets(cs: seq<seq<int>>, x: int, s: int, c: seq<int>, d: int) {
    |c| == 3 && Contains3(cs, -x, d) && Hits(c, cs[d], x, s, 3) == 2
  }

  // d is the first clause that cs[k] meets; cs[k] shares literal z0 with it and
  // opposes it in z1.
  ghost predicate Half(cs: seq<seq<int>>, x: int, s: int, k: nat, d: nat, z0: int, z1: int) {
    && Contains3(cs, x, k) && Negatives(cs[k]) == (if s > 0 then 1 else 2)
    && Meets(cs, x, s, cs[k], d)
    && (forall r :: 0 <= r < d ==> !Meets(cs, x, s, cs[k], r))
    && SameAt(cs[k], cs[d], x, s, z0) && OppositeAt(cs[k], cs[d], x, z1)
  }

  // Both halves of an if-then-else on the same condition variable.
  ghost predicate IteAt(cs: seq<seq<int>>, x: int, e: Entry, f: Entry) {
    && Half(cs, x, 1, e.pos, e.neg, e.v0, e.v1) && Half(cs, x, -1, f.pos, f.neg, f.v0, f.v1)
    && cs[e.pos][e.v0] == -cs[f.pos][f.v0]
  }

  datatype Entry = Entry(pos: nat, neg: nat, v0: int, v1: int)

  // ----- what four such clauses mean -----

  function IteFunction(x: int, cond: int, l1: int, l2: int): Function
    requires x != 0 && cond != 0 && l1 != 0 && l2 != 0
  {
    Function(Itequ(Var(cond), Var(-l2), Var(-l1), Var(x)), ITE_EQU, x)
  }

  ghost predicate IteTrue(x: int, cond: int, l1: int, l2: int, a: Assignment) {
    LitTrue(x, a) <==> if LitTrue(cond, a) then !LitTrue(l2, a) else !LitTrue(l1, a)
  }

  lemma ItequValue(c: Bdd, t: Bdd, e: Bdd, d: Bdd, a: Assignment)
    ensures Eval(Itequ(c, t, e, d), a) <==> (Eval(d, a) <==> if Eval(c, a) then Eval(t, a) else Eval(e, a))
  {
    IteEval(c, t, e, a);
    OperatorsEval(d, Ite(c, t, e), a);
  }

  lemma VarValue(l: int, a: Assignment)
    requires l != 0
    ensures Eval(Var(l), a) <==> LitTrue(l, a)
    ensures LitTrue(-l, a) <==> !LitTrue(l, a)
  {
  }

  lemma IteFunctionValue(x: int, cond: int, l1: int, l2: int, a: Assignment)
    requires x != 0 && cond != 0 && l1 != 0 && l2 != 0
    ensures Eval(IteFunction(x, cond, l1, l2).bdd, a) <==> IteTrue(x, cond, l1, l2, a)
  {
    ItequValue(Var(cond), Var(-l2), Var(-l1), Var(x), a);
    VarValue(x, a);
    VarValue(cond, a);
    VarValue(l1, a);
    VarValue(-l1, a);
    VarValue(l2, a);
    VarValue(-l2, a);
  }

  ghost predicate Three(c: seq<int>, l: int, m: int, n: int) {
    |c| == 3 && l in c && m in c && n in c && l != m && l != n && m != n
  }

  lemma ThreeTrue(c: seq<int>, l: int, m: int, n: int, a: Assignment)
    requires Three(c, l, m, n)
    ensures ClauseTrue(c, a) <==> LitTrue(l, a) || LitTrue(m, a) || LitTrue(n, a)
  {
    var i :| 0 <= i < 3 && c[i] == l;
    var j :| 0 <= j < 3 && c[j] == m;
    var k :| 0 <= k < 3 && c[k] == n;
    assert i != j && i != k && j != k;
    assert ClauseTrue(c, a) <==> LitTrue(c[0], a) || LitTrue(c[1], a) || LitTrue(c[2], a);
  }

  lemma NotBoth(d: seq<int>, l: int)
    requires Proper(d) && l in d
    ensures -l !in d
  {
  }

  // The pair in terms of x, the shared literal p and the opposed literal l.
  ghost predicate PairOf(cs: seq<seq<int>>, k: nat, d: nat, x: int, p: int, l: int) {
    && k < |cs| && d < |cs| && x > 0 && p != 0 && l != 0 && x != l
    && Three(cs[k], x, p, l) && Three(cs[d], -x, p, -l)
  }

  lemma HalfPair(cs: seq<seq<int>>, x: int, s: int, k: nat, d: nat, z0: int, z1: int)
    requires x > 0 && Half(cs, x, s, k, d, z0, z1) && Proper(cs[k]) && Proper(cs[d])
    ensures PairOf(cs, k, d, x, cs[k][z0], cs[k][z1])
  {
    NotBoth(cs[d], cs[k][z0]);
  }

  ghost predicate Halves(cs: seq<seq<int>>, e: Entry, f: Entry, x: int, p: int, l1: int, l2: int) {
    PairOf(cs, e.pos, e.neg, x, p, l1) && PairOf(cs, f.pos, f.neg, x, -p, l2)
  }

  lemma SiteHalves(cs: seq<seq<int>>, x: int, e: Entry, f: Entry, p: int)
    requires Triples(cs) && x > 0 && IteAt(cs, x, e, f)
    requires p == cs[e.pos][e.v0]
    ensures PairOf(cs, e.pos, e.neg, x, p, cs[e.pos][e.v1])
    ensures PairOf(cs, f.pos, f.neg, x, -p, cs[f.pos][f.v1])
  {
    HalfPair(cs, x, 1, e.pos, e.neg, e.v0, e.v1);
    HalfPair(cs, x, -1, f.pos, f.neg, f.v0, f.v1);
  }

  ghost predicate FourTrue(cs: seq<seq<int>>, e: Entry, f: Entry, a: Assignment)
    requires e.pos < |cs| && e.neg < |cs| && f.pos < |cs| && f.neg < |cs|
  {
    ClauseTrue(cs[e.pos], a) && ClauseTrue(cs[e.neg], a) && ClauseTrue(cs[f.pos], a) && ClauseTrue(cs[f.neg], a)
  }

  lemma HalvesTrue(cs: seq<seq<int>>, e: Entry, f: Entry, x: int, p: int, l1: int, l2: int, a: Assignment)
    requires Halves(cs, e, f, x, p, l1, l2)
    ensures FourTrue(cs, e, f, a) <==>
            && (LitTrue(x, a) || LitTrue(p, a) || LitTrue(l1, a))
            && (LitTrue(-x, a) || LitTrue(p, a) || LitTrue(-l1, a))
            && (LitTrue(x, a) || LitTrue(-p, a) || LitTrue(l2, a))
            && (LitTrue(-x, a) || LitTrue(-p, a) || LitTrue(-l2, a))
  {
    ThreeTrue(cs[e.pos], x, p, l1, a);
    ThreeTrue(cs[e.neg], -x, p, -l1, a);
    ThreeTrue(cs[f.pos], x, -p, l2, a);
    ThreeTrue(cs[f.neg], -x, -p, -l2, a);
  }

  // The four clauses say exactly what the function says.
  lemma HalvesAreFunction(cs: seq<seq<int>>, e: Entry, f: Entry, x: int, p: int, l1: int, l2: int, a: Assignment)
    requires Halves(cs, e, f, x, p, l1, l2)
    ensures Eval(IteFunction(x, p, l1, l2).bdd, a) <==> FourTrue(cs, e, f, a)
  {
    HalvesTrue(cs, e, f, x, p, l1, l2, a);
    IteFunctionValue(x, p, l1, l2, a);
  }

  // ----- the other clauses that go with it -----

  // How many literals of c are l1 or l2.
  function Among(c: seq<int>, l1: int, l2: int): nat {
    if c == [] then 0 else Among(Front(c), l1, l2) + if Last(c) == l1 || Last(c) == l2 then 1 else 0
  }

  ghost predicate Extra(cs: seq<seq<int>>, lit: int, l1: int, l2: int, k: int) {
    Contains3(cs, lit, k) && Among(cs[k], l1, l2) == 2
  }

  lemma AmongThree(c: seq<int>, l1: int, l2: int)
    requires |c| == 3
    ensures Among(c, l1, l2) == (if c[0] == l1 || c[0] == l2 then 1 else 0)
              + (if c[1] == l1 || c[1] == l2 then 1 else 0) + (if c[2] == l1 || c[2] == l2 then 1 else 0)
  {
    var d := Front(c);
    var e := Front(d);
    assert Front(e) == [] && Last(e) == c[0] && Last(d) == c[1] && Last(c) == c[2];
    assert Among(e, l1, l2) == if c[0] == l1 || c[0] == l2 then 1 else 0;
  }

  lemma ExtraTrue(cs: seq<seq<int>>, lit: int, l1: int, l2: int, k: nat, a: Assignment)
    requires Extra(cs, lit, l1, l2, k) && Proper(cs[k])
    requires LitTrue(lit, a) || LitTrue(l1, a) || LitTrue(l2, a)
    requires lit != l1 && lit != l2
    ensures ClauseTrue(cs[k], a)
  {
    var c := cs[k];
    AmongThree(c, l1, l2);
    assert Abs(c[0]) < Abs(c[1]) < Abs(c[2]);
    assert lit == c[0] || lit == c[1] || lit == c[2];
    assert l1 in c && l2 in c;
  }

  // With both opposed literals false x is true, with both true it is false.
  lemma ExtraImplied(cs: seq<seq<int>>, e: Entry, f: Entry, x: int, p: int, l1: int, l2: int, k: nat, a: Assignment)
    requires Halves(cs, e, f, x, p, l1, l2) && FourTrue(cs, e, f, a)
    requires k < |cs| && Proper(cs[k]) && (Extra(cs, x, l2, l1, k) || Extra(cs, -x, -l2, -l1, k))
    ensures ClauseTrue(cs[k], a)
  {
    HalvesTrue(cs, e, f, x, p, l1, l2, a);
    if Extra(cs, x, l2, l1, k) {
      ExtraTrue(cs, x, l2, l1, k, a);
    } else {
      ExtraTrue(cs, -x, -l2, -l1, k, a);
    }
  }

  // Literals without an opposite pair can all be true.
  ghost function Making(ls: seq<int>): Assignment {
    iset n: nat | Made(ls, n)
  }

  ghost predicate Made(ls: seq<int>, n: nat) {
    n in ls
  }

  lemma MakingTrue(ls: seq<int>, k: nat)
    requires k < |ls| && ls[k] != 0 && -ls[k] !in ls
    ensures LitTrue(ls[k], Making(ls))
  {
    assert Made(ls, Abs(ls[k])) <==> ls[k] > 0;
  }

  lemma AllMade(l0: int, l1: int, l2: int, l3: int)
    requires l0 != 0 && l1 != 0 && l2 != 0 && l3 != 0 && l0 != -l1 && l0 != -l2 && l0 != -l3 && l1 != -l2 && l1 != -l3 && l2 != -l3
    ensures var a := Making([l0, l1, l2, l3]); LitTrue(l0, a) && LitTrue(l1, a) && LitTrue(l2, a) && LitTrue(l3, a)
  {
    var ls := [l0, l1, l2, l3];
    MakingTrue(ls, 0);
    MakingTrue(ls, 1);
    MakingTrue(ls, 2);
    MakingTrue(ls, 3);
  }

  // A clause whose literals are lit and two of l1 and l2 contains only lit and l1 if l2 is
  // not among them.
  lemma ExtraFalse(cs: seq<seq<int>>, lit: int, l1: int, l2: int, k: nat, a: Assignment)
    requires (Extra(cs, lit, l1, l2, k) || Extra(cs, lit, l2, l1, k)) && lit != l1 && l2 !in cs[k]
    requires !LitTrue(lit, a) && !LitTrue(l1, a)
    ensures !ClauseTrue(cs[k], a)
  {
    AmongThree(cs[k], l1, l2);
    AmongThree(cs[k], l2, l1);
    assert forall j :: 0 <= j < 3 ==> cs[k][j] in cs[k];
  }

  // A further clause that is marked follows from the four if and only if it has both
  // opposed literals; one that has the same one twice is lost.
  lemma ExtraExactly(cs: seq<seq<int>>, e: Entry, f: Entry, x: int, p: int, l1: int, l2: int, k: nat)
    requires Halves(cs, e, f, x, p, l1, l2) && Proper(cs[e.pos]) && Proper(cs[f.pos])
    requires k < |cs| && Extra(cs, x, l2, l1, k)
    ensures (forall a: Assignment :: FourTrue(cs, e, f, a) ==> ClauseTrue(cs[k], a)) <==> l1 in cs[k] && l2 in cs[k]
  {
    AmongThree(cs[k], l2, l1);
    if l1 in cs[k] && l2 in cs[k] {
      forall a: Assignment | FourTrue(cs, e, f, a) ensures ClauseTrue(cs[k], a) {
        HalvesTrue(cs, e, f, x, p, l1, l2, a);
        var i, j, m :| 0 <= i < 3 && 0 <= j < 3 && 0 <= m < 3 && cs[k][i] == x && cs[k][j] == l1 && cs[k][m] == l2;
        assert LitTrue(cs[k][i], a) || LitTrue(cs[k][j], a) || LitTrue(cs[k][m], a);
      }
    } else if l1 in cs[k] {
      Lost(cs, e, f, x, p, l1, l2, p, k);
    } else {
      Lost(cs, e, f, x, p, l2, l1, -p, k);
    }
  }

  lemma ThreeApart(c: seq<int>, l: int, m: int, n: int)
    requires Three(c, l, m, n) && Proper(c)
    ensures Abs(l) != Abs(m) && Abs(l) != Abs(n) && Abs(m) != Abs(n)
  {
    var i :| 0 <= i < 3 && c[i] == l;
    var j :| 0 <= j < 3 && c[j] == m;
    var k :| 0 <= k < 3 && c[k] == n;
  }

  lemma HalvesApart(cs: seq<seq<int>>, e: Entry, f: Entry, x: int, p: int, l1: int, l2: int)
    requires Halves(cs, e, f, x, p, l1, l2) && Proper(cs[e.pos]) && Proper(cs[f.pos])
    ensures Abs(x) != Abs(p) && Abs(x) != Abs(l1) && Abs(x) != Abs(l2) && Abs(p) != Abs(l1) && Abs(p) != Abs(l2)
  {
    ThreeApart(cs[e.pos], x, p, l1);
    ThreeApart(cs[f.pos], x, -p, l2);
  }

  // With the condition q towards l, m true and l and x false the four hold.
  lemma FourMade(cs: seq<seq<int>>, e: Entry, f: Entry, x: int, p: int, l: int, m: int, q: int, a: Assignment)
    requires (q == p && Halves(cs, e, f, x, p, l, m)) || (q == -p && Halves(cs, e, f, x, p, m, l))
    requires LitTrue(-x, a) && LitTrue(q, a) && LitTrue(-l, a) && LitTrue(m, a)
    ensures FourTrue(cs, e, f, a) && !LitTrue(x, a) && !LitTrue(l, a)
  {
    HalvesTrue(cs, e, f, x, p, if q == p then l else m, if q == p then m else l, a);
  }

  lemma Lost(cs: seq<seq<int>>, e: Entry, f: Entry, x: int, p: int, l: int, m: int, q: int, k: nat)
    requires (q == p && Halves(cs, e, f, x, p, l, m)) || (q == -p && Halves(cs, e, f, x, p, m, l))
    requires Proper(cs[e.pos]) && Proper(cs[f.pos]) && k < |cs| && Extra(cs, x, if q == p then m else l, if q == p then l else m, k)
    requires l in cs[k] && m !in cs[k]
    ensures exists a: Assignment :: FourTrue(cs, e, f, a) && !ClauseTrue(cs[k], a)
  {
    HalvesApart(cs, e, f, x, p, if q == p then l else m, if q == p then m else l);
    AllMade(-x, q, -l, m);
    var a := Making([-x, q, -l, m]);
    FourMade(cs, e, f, x, p, l, m, q, a);
    ExtraFalse(cs, x, l, m, k, a);
  }

  // All clauses that go when the function is built.
  ghost predicate Uses(cs: seq<seq<int>>, e: Entry, f: Entry, x: int, l1: int, l2: int, k: int) {
    || k == e.pos || k == e.neg || k == f.pos || k == f.neg
    || Extra(cs, x, l2, l1, k) || Extra(cs, -x, -l2, -l1, k)
  }

  // ----- searching -----

  // The scan leaves the positions it saw last; a half leaves no choice.
  lemma HalfUnique(c: seq<int>, d: seq<int>, x: int, s: int, z0: int, z1: int, y0: int, y1: int)
    requires |c| == 3 && Proper(d) && x in c && Hits(c, d, x, s, 3) == 2
    requires SameAt(c, d, x, s, z0) && OppositeAt(c, d, x, z1)
    requires SameAt(c, d, x, s, y0) && OppositeAt(c, d, x, y1)
    ensures z0 == y0 && z1 == y1
  {
    NotBoth(d, c[z0]);
    NotBoth(d, c[y0]);
    assert x == c[0] || x == c[1] || x == c[2];
  }

  ghost predicate FirstMeets(cs: seq<seq<int>>, x: int, s: int, c: seq<int>, d: nat) {
    Meets(cs, x, s, c, d) && forall r :: 0 <= r < d ==> !Meets(cs, x, s, c, r)
  }

  ghost predicate Positions(cs: seq<seq<int>>, x: int, s: int, c: seq<int>, d: nat, v0: int, v1: int)
    requires |c| == 3 && d < |cs|
  {
    && (v0 == -1 || SameAt(c, cs[d], x, s, v0))
    && (v0 == -1 ==> forall z :: !SameAt(c, cs[d], x, s, z))
    && (v1 == -1 || OppositeAt(c, cs[d], x, v1))
    && (v1 == -1 ==> forall z :: !OppositeAt(c, cs[d], x, z))
  }

  method FindCounterpart(cs: seq<seq<int>>, x: int, s: int, c: seq<int>, negs: seq<nat>)
    returns (found: bool, d: nat, v0: int, v1: int)
    requires Triples(cs) && |c| == 3 && Proper(c)
    requires negs == ThreeOf(cs, -x, |cs|)
    ensures found ==> FirstMeets(cs, x, s, c, d) && Positions(cs, x, s, c, d, v0, v1)
    ensures !found ==> v0 == -1 && v1 == -1 && forall r :: !Meets(cs, x, s, c, r)
  {
    ThreeOfMeaning(cs, -x, |cs|);
    for y := 0 to |negs|
      invariant NoneMet(cs, x, s, c, negs, y)
    {
      assert negs[y] in negs;
      var count;
      count, v0, v1 := Scan(c, cs[negs[y]], x, s);
      if count == 2 {
        NoneBefore(cs, x, s, c, negs, y);
        return true, negs[y], v0, v1;
      }
    }
    NoneAtAll(cs, x, s, c, negs);
    found, d, v0, v1 := false, 0, -1, -1;
  }

  ghost predicate NoneMet(cs: seq<seq<int>>, x: int, s: int, c: seq<int>, negs: seq<nat>, y: int) {
    forall q :: 0 <= q < y && q < |negs| ==> !Meets(cs, x, s, c, negs[q])
  }

  // The list is increasing: an earlier clause is one passed over.
  lemma NoneBefore(cs: seq<seq<int>>, x: int, s: int, c: seq<int>, negs: seq<nat>, y: nat)
    requires negs == ThreeOf(cs, -x, |cs|) && y < |negs| && NoneMet(cs, x, s, c, negs, y)
    ensures forall r :: 0 <= r < negs[y] ==> !Meets(cs, x, s, c, r)
  {
    ThreeOfMeaning(cs, -x, |cs|);
    forall r | 0 <= r < negs[y] ensures !Meets(cs, x, s, c, r) {
      if Contains3(cs, -x, r) {
        assert r in negs;
      }
    }
  }

  lemma NoneAtAll(cs: seq<seq<int>>, x: int, s: int, c: seq<int>, negs: seq<nat>)
    requires negs == ThreeOf(cs, -x, |cs|) && NoneMet(cs, x, s, c, negs, |negs|)
    ensures forall r :: !Meets(cs, x, s, c, r)
  {
    ThreeOfMeaning(cs, -x, |cs|);
    forall r ensures !Meets(cs, x, s, c, r) {
      if Contains3(cs, -x, r) {
        assert r in negs;
      }
    }
  }

  predicate Usable(e: Entry) {
    e.v0 != -1 && e.v1 != -1
  }

  // v3_1 (s = 1) or v3_2 (s = -1) for x.
  ghost predicate Entries(cs: seq<seq<int>>, x: int, s: int, es: seq<Entry>) {
    && (forall i :: 0 <= i < |es| && Usable(es[i]) ==> IsHalf(cs, x, s, es[i]))
    && forall e :: IsHalf(cs, x, s, e) ==> exists i :: 0 <= i < |es| && es[i] == e
  }

  ghost predicate IsHalf(cs: seq<seq<int>>, x: int, s: int, e: Entry) {
    Half(cs, x, s, e.pos, e.neg, e.v0, e.v1)
  }

  method CountNegatives(c: seq<int>) returns (count: nat)
    ensures count == Negatives(c)
  {
    count := 0;
    for y := 0 to |c|
      invariant count == Negatives(c[..y])
    {
      assert Front(c[..y + 1]) == c[..y];
      if c[y] < 0 {
        count := count + 1;
      }
    }
    assert c[..|c|] == c;
  }

  // The entry of one clause of three_pos.
  method MakeEntry(cs: seq<seq<int>>, x: int, s: int, k: nat, negs: seq<nat>) returns (e: Entry)
    requires Triples(cs)
    requires Contains3(cs, x, k) && Negatives(cs[k]) == (if s > 0 then 1 else 2) && negs == ThreeOf(cs, -x, |cs|)
    ensures Usable(e) ==> IsHalf(cs, x, s, e)
    ensures forall e' :: IsHalf(cs, x, s, e') && e'.pos == k ==> e' == e
  {
    var found, d, v0, v1 := FindCounterpart(cs, x, s, cs[k], negs);
    e := Entry(k, d, v0, v1);
    forall e' | IsHalf(cs, x, s, e') && e'.pos == k ensures e' == e {
      SameEntry(cs, x, s, e, e', found);
    }
  }

  lemma SameEntry(cs: seq<seq<int>>, x: int, s: int, e: Entry, e': Entry, found: bool)
    requires Triples(cs)
    requires IsHalf(cs, x, s, e') && e'.pos == e.pos
    requires found ==> FirstMeets(cs, x, s, cs[e.pos], e.neg) && Positions(cs, x, s, cs[e.pos], e.neg, e.v0, e.v1)
    requires !found ==> forall r :: !Meets(cs, x, s, cs[e.pos], r)
    ensures e' == e
  {
    assert Meets(cs, x, s, cs[e.pos], e'.neg);
    assert e'.neg == e.neg;
    assert SameAt(cs[e.pos], cs[e.neg], x, s, e'.v0);
    assert OppositeAt(cs[e.pos], cs[e.neg], x, e'.v1);
    HalfUnique(cs[e.pos], cs[e.neg], x, s, e.v0, e.v1, e'.v0, e'.v1);
  }

  method BuildEntries(cs: seq<seq<int>>, x: int, s: int, pos: seq<nat>, negs: seq<nat>) returns (es: seq<Entry>)
    requires Triples(cs)
    requires pos == ThreeOf(cs, x, |cs|) && negs == ThreeOf(cs, -x, |cs|)
    ensures Entries(cs, x, s, es)
  {
    es := [];
    ThreeOfMeaning(cs, x, |cs|);
    for i := 0 to |pos|
      invariant forall j :: 0 <= j < |es| && Usable(es[j]) ==> IsHalf(cs, x, s, es[j])
      invariant forall e :: IsHalf(cs, x, s, e) && e.pos in pos[..i] ==> e in es
    {
      assert pos[i] in pos;
      assert pos[..i + 1] == pos[..i] + [pos[i]];
      var count := CountNegatives(cs[pos[i]]);
      if count == if s > 0 then 1 else 2 {
        var e := MakeEntry(cs, x, s, pos[i], negs);
        es := es + [e];
      }
    }
    assert pos[..|pos|] == pos;
  }

  method FindPair(cs: seq<seq<int>>, x: int, es: seq<Entry>, fs: seq<Entry>) returns (found: bool, e: Entry, f: Entry)
    requires Entries(cs, x, 1, es) && Entries(cs, x, -1, fs)
    ensures found ==> IteAt(cs, x, e, f)
    ensures !found ==> forall e', f' :: !IteAt(cs, x, e', f')
  {
    found, e, f := false, Entry(0, 0, -1, -1), Entry(0, 0, -1, -1);
    for i := 0 to |es|
      invariant forall i0, y0 :: 0 <= i0 < i && 0 <= y0 < |fs| ==> !IteAt(cs, x, es[i0], fs[y0])
    {
      for y := 0 to |fs|
        invariant forall i0, y0 :: 0 <= i0 < i && 0 <= y0 < |fs| ==> !IteAt(cs, x, es[i0], fs[y0])
        invariant forall y0 :: 0 <= y0 < y ==> !IteAt(cs, x, es[i], fs[y0])
      {
        if Usable(es[i]) && Usable(fs[y]) {
          assert IsHalf(cs, x, 1, es[i]) && IsHalf(cs, x, -1, fs[y]);
          if cs[es[i].pos][es[i].v0] == -cs[fs[y].pos][fs[y].v0] {
            return true, es[i], fs[y];
          }
        }
      }
    }
    forall e', f' ensures !IteAt(cs, x, e', f') {
      if IteAt(cs, x, e', f') {
        assert IsHalf(cs, x, 1, e') && IsHalf(cs, x, -1, f');
      }
    }
  }

  method CountAmong(c: seq<int>, l1: int, l2: int) returns (count: nat)
    ensures count == Among(c, l1, l2)
  {
    count := 0;
    for j := 0 to |c|
      invariant count == Among(c[..j], l1, l2)
    {
      assert Front(c[..j + 1]) == c[..j];
      if c[j] == l1 || c[j] == l2 {
        count := count + 1;
      }
    }
    assert c[..|c|] == c;
  }

  // Marks the clauses of one list that follow from the function.
  method MarkExtras(p: array<Clause>, cs: seq<seq<int>>, lit: int, list: seq<nat>, l1: int, l2: int)
    requires |cs| <= p.Length && list == ThreeOf(cs, lit, |cs|)
    modifies p
    ensures forall k :: 0 <= k < |cs| ==> p[k].lits == old(p[k].lits)
    ensures forall k :: 0 <= k < |cs| ==> p[k].subsumed == (old(p[k].subsumed) || Extra(cs, lit, l1, l2, k))
  {
    ThreeOfMeaning(cs, lit, |cs|);
    for z := 0 to |list|
      invariant forall k :: 0 <= k < |cs| ==> p[k].lits == old(p[k].lits)
      invariant forall k :: 0 <= k < |cs| ==>
                  p[k].subsumed == (old(p[k].subsumed) || (k in list[..z] && Extra(cs, lit, l1, l2, k)))
    {
      assert list[z] in list;
      assert list[..z + 1] == list[..z] + [list[z]];
      var count := CountAmong(cs[list[z]], l1, l2);
      if count == 2 {
        p[list[z]] := p[list[z]].(subsumed := true);
      }
    }
    assert list[..|list|] == list;
  }

  ghost predicate SiteMarked(now: seq<Clause>, now': seq<Clause>, cs: seq<seq<int>>,
                             e: Entry, f: Entry, x: int, l1: int, l2: int) {
    && |now'| == |now|
    && forall k {:trigger now'[k]} :: 0 <= k < |now| ==>
         now'[k].lits == now[k].lits && now'[k].subsumed == (now[k].subsumed || Uses(cs, e, f, x, l1, l2, k))
  }

  method MarkPair(p: array<Clause>, i: nat, j: nat)
    requires i < p.Length && j < p.Length
    modifies p
    ensures forall k :: 0 <= k < p.Length ==> p[k] == if k == i || k == j then old(p[k]).(subsumed := true) else old(p[k])
  {
    p[i] := p[i].(subsumed := true);
    p[j] := p[j].(subsumed := true);
  }

  method MarkSite(p: array<Clause>, cs: seq<seq<int>>, pos: seq<nat>, neg: seq<nat>,
                  e: Entry, f: Entry, x: int, l1: int, l2: int)
    requires |cs| <= p.Length && pos == ThreeOf(cs, x, |cs|) && neg == ThreeOf(cs, -x, |cs|)
    requires e.pos < |cs| && e.neg < |cs| && f.pos < |cs| && f.neg < |cs|
    modifies p
    ensures SiteMarked(old(p[..|cs|]), p[..|cs|], cs, e, f, x, l1, l2)
  {
    MarkPair(p, e.pos, e.neg);
    MarkPair(p, f.pos, f.neg);
    MarkExtras(p, cs, x, pos, l2, l1);
    MarkExtras(p, cs, -x, neg, -l2, -l1);
  }

  // ----- the whole search -----

  datatype Site = Site(x: int, e: Entry, f: Entry, p: int, l1: int, l2: int)

  ghost predicate SiteOk(cs: seq<seq<int>>, s: Site) {
    && IteAt(cs, s.x, s.e, s.f)
    && Halves(cs, s.e, s.f, s.x, s.p, s.l1, s.l2)
  }

  ghost predicate SiteBuilt(cs: seq<seq<int>>, sites: seq<Site>, more: seq<Function>, i: int)
    requires 0 <= i < |sites| == |more|
  {
    SiteOk(cs, sites[i]) && more[i] == IteFunction(sites[i].x, sites[i].p, sites[i].l1, sites[i].l2)
  }

  ghost predicate Built(cs: seq<seq<int>>, sites: seq<Site>, more: seq<Function>) {
    && |more| == |sites|
    && forall i {:trigger SiteBuilt(cs, sites, more, i)} :: 0 <= i < |sites| ==> SiteBuilt(cs, sites, more, i)
  }

  ghost predicate NoIte(cs: seq<seq<int>>, x: int) {
    forall e, f :: !IteAt(cs, x, e, f)
  }

  ghost predicate Complete(cs: seq<seq<int>>, sites: seq<Site>, bound: int) {
    && (forall i, j :: 0 <= i < j < |sites| ==> sites[i].x < sites[j].x)
    && (forall i :: 0 <= i < |sites| ==> 1 <= sites[i].x < bound)
    && forall v :: 1 <= v < bound ==> NoIte(cs, v) || exists i :: 0 <= i < |sites| && sites[i].x == v
  }

  ghost predicate Taken(cs: seq<seq<int>>, sites: seq<Site>, k: int) {
    exists i :: 0 <= i < |sites| && Uses(cs, sites[i].e, sites[i].f, sites[i].x, sites[i].l1, sites[i].l2, k)
  }

  ghost predicate Marked(cs: seq<seq<int>>, sites: seq<Site>, was: seq<Clause>, now: seq<Clause>) {
    && |was| == |now| == |cs|
    && forall k :: 0 <= k < |cs| ==>
         && now[k].lits == cs[k]
         && now[k].subsumed == (was[k].subsumed || Taken(cs, sites, k))
  }

  ghost predicate State(cs: seq<seq<int>>, was: seq<Clause>, sites: seq<Site>, more: seq<Function>,
                        now: seq<Clause>, bound: int) {
    Built(cs, sites, more) && Complete(cs, sites, bound) && Marked(cs, sites, was, now)
  }

  lemma TakenAppend(cs: seq<seq<int>>, sites: seq<Site>, s: Site, k: int)
    ensures Taken(cs, sites + [s], k) <==> Taken(cs, sites, k) || Uses(cs, s.e, s.f, s.x, s.l1, s.l2, k)
  {
    assert (sites + [s])[|sites|] == s;
    if Taken(cs, sites, k) {
      var i :| 0 <= i < |sites| && Uses(cs, sites[i].e, sites[i].f, sites[i].x, sites[i].l1, sites[i].l2, k);
      assert (sites + [s])[i] == sites[i];
    }
  }

  lemma MarkedAppend(cs: seq<seq<int>>, sites: seq<Site>, s: Site, was: seq<Clause>, now: seq<Clause>, now': seq<Clause>)
    requires Marked(cs, sites, was, now) && SiteMarked(now, now', cs, s.e, s.f, s.x, s.l1, s.l2)
    ensures Marked(cs, sites + [s], was, now')
  {
    forall k { TakenAppend(cs, sites, s, k); }
  }

  lemma CompleteStep(cs: seq<seq<int>>, sites: seq<Site>, s: Site)
    requires Complete(cs, sites, s.x) && 1 <= s.x
    ensures Complete(cs, sites + [s], s.x + 1)
  {
    var more := sites + [s];
    assert more[|sites|] == s;
    forall v | 1 <= v < s.x && !NoIte(cs, v) ensures exists i :: 0 <= i < |more| && more[i].x == v {
      var i :| 0 <= i < |sites| && sites[i].x == v;
      assert more[i] == sites[i];
    }
  }

  lemma BuiltAppend(cs: seq<seq<int>>, sites: seq<Site>, more: seq<Function>, s: Site)
    requires Built(cs, sites, more) && SiteOk(cs, s)
    ensures Built(cs, sites + [s], more + [IteFunction(s.x, s.p, s.l1, s.l2)])
  {
    var f := IteFunction(s.x, s.p, s.l1, s.l2);
    forall i | 0 <= i < |sites + [s]| ensures SiteBuilt(cs, sites + [s], more + [f], i) {
      assert i < |sites| ==> SiteBuilt(cs, sites, more, i);
    }
  }

  lemma StateFound(cs: seq<seq<int>>, was: seq<Clause>, sites: seq<Site>, more: seq<Function>,
                   now: seq<Clause>, now': seq<Clause>, s: Site)
    requires State(cs, was, sites, more, now, s.x) && SiteOk(cs, s) && 1 <= s.x
    requires SiteMarked(now, now', cs, s.e, s.f, s.x, s.l1, s.l2)
    ensures State(cs, was, sites + [s], more + [IteFunction(s.x, s.p, s.l1, s.l2)], now', s.x + 1)
  {
    CompleteStep(cs, sites, s);
    MarkedAppend(cs, sites, s, was, now, now');
    BuiltAppend(cs, sites, more, s);
  }

  lemma StateSkip(cs: seq<seq<int>>, was: seq<Clause>, sites: seq<Site>, more: seq<Function>,
                  now: seq<Clause>, x: int)
    requires State(cs, was, sites, more, now, x) && NoIte(cs, x)
    ensures State(cs, was, sites, more, now, x + 1)
  {
  }

  lemma SiteFound(cs: seq<seq<int>>, x: int, e: Entry, f: Entry, p: int, l1: int, l2: int)
    requires Triples(cs) && 1 <= x && IteAt(cs, x, e, f)
    requires p == cs[e.pos][e.v0] && l1 == cs[e.pos][e.v1] && l2 == cs[f.pos][f.v1]
    ensures SiteOk(cs, Site(x, e, f, p, l1, l2))
  {
    SiteHalves(cs, x, e, f, p);
    assert Halves(cs, e, f, x, p, l1, l2);
  }

  // The two halves found for x become one function.
  method TakeSite(p: array<Clause>, cs: seq<seq<int>>, x: int, pos: seq<nat>, neg: seq<nat>, fs: seq<Function>, e: Entry, f: Entry,
                  ghost was: seq<Clause>, ghost sites: seq<Site>, ghost more: seq<Function>)
    returns (fs': seq<Function>, ghost sites': seq<Site>, ghost more': seq<Function>)
    requires Triples(cs) && 1 <= x && |cs| <= p.Length && IteAt(cs, x, e, f)
    requires pos == ThreeOf(cs, x, |cs|) && neg == ThreeOf(cs, -x, |cs|)
    requires State(cs, was, sites, more, p[..|cs|], x)
    modifies p
    ensures State(cs, was, sites', more', p[..|cs|], x + 1)
    ensures more <= more' && fs' == fs + more'[|more|..]
  {
    ghost var now := p[..|cs|];
    var cond, l1, l2 := cs[e.pos][e.v0], cs[e.pos][e.v1], cs[f.pos][f.v1];
    ghost var s := Site(x, e, f, cond, l1, l2);
    SiteFound(cs, x, e, f, cond, l1, l2);
    MarkSite(p, cs, pos, neg, e, f, x, l1, l2);
    StateFound(cs, was, sites, more, now, p[..|cs|], s);
    fs' := fs + [IteFunction(x, cond, l1, l2)];
    sites', more' := sites + [s], more + [IteFunction(x, cond, l1, l2)];
  }

  method SearchAt(p: array<Clause>, cs: seq<seq<int>>, x: int, pos: seq<nat>, neg: seq<nat>, fs: seq<Function>,
                  ghost was: seq<Clause>, ghost sites: seq<Site>, ghost more: seq<Function>)
    returns (fs': seq<Function>, ghost sites': seq<Site>, ghost more': seq<Function>)
    requires ThreeInput(cs) && pos == ThreeOf(cs, x, |cs|) && neg == ThreeOf(cs, -x, |cs|) && 1 <= x && |cs| <= p.Length
    requires State(cs, was, sites, more, p[..|cs|], x)
    modifies p
    ensures State(cs, was, sites', more', p[..|cs|], x + 1)
    ensures more <= more' && fs' == fs + more'[|more|..]
  {
    fs', sites', more' := fs, sites, more;
    var es := BuildEntries(cs, x, 1, pos, neg);
    var gs := BuildEntries(cs, x, -1, pos, neg);
    var found, e, f := FindPair(cs, x, es, gs);
    if found {
      fs', sites', more' := TakeSite(p, cs, x, pos, neg, fs, e, f, was, sites, more);
    } else {
      StateSkip(cs, was, sites, more, p[..|cs|], x);
    }
  }

  // One function for every variable where two halves join, in order; exactly
  // their clauses and the clauses that follow from them are marked.
  method FindAndBuildIteEquals(p: array<Clause>, n: nat, fs: seq<Function>, vars: nat)
    returns (fs': seq<Function>, ghost sites: seq<Site>, ghost more: seq<Function>)
    requires n <= p.Length && ThreeInput(Lits(p[..n])) && InRange(Lits(p[..n]), vars)
    modifies p
    ensures fs' == fs + more
    ensures State(old(Lits(p[..n])), old(p[..n]), sites, more, p[..n], vars + 1)
  {
    ghost var was := p[..n];
    var cs := Lits(p[..n]);
    var pos, neg := BuildThreeLists(cs, vars);
    ghost var posAt, negAt := pos[..], neg[..];
    fs', sites, more := fs, [], [];
    // Variable 0 occurs in no clause: its lists are empty.
    for x := 1 to vars + 1
      invariant pos[..] == posAt && neg[..] == negAt
      invariant fs' == fs + more && State(cs, was, sites, more, p[..n], x)
    {
      ListsAt(cs, posAt, negAt, vars, x);
      fs', sites, more := SearchAt(p, cs, x, pos[x], neg[x], fs', was, sites, more);
    }
  }

  lemma ListsAt(cs: seq<seq<int>>, pos: seq<seq<nat>>, neg: seq<seq<nat>>, vars: nat, x: int)
    requires Listed(cs, pos, neg, vars, |cs|) && 1 <= x <= vars
    ensures pos[x] == ThreeOf(cs, x, |cs|) && neg[x] == ThreeOf(cs, -x, |cs|)
  {
    assert ListOf(pos, neg, x) == ThreeOf(cs, x, |cs|);
    assert ListOf(pos, neg, -x) == ThreeOf(cs, -x, |cs|);
  }

  // The search keeps the meaning.
  lemma SiteValue(cs: seq<seq<int>>, sites: seq<Site>, more: seq<Function>, i: nat, a: Assignment)
    requires Built(cs, sites, more) && i < |sites|
    ensures Halves(cs, sites[i].e, sites[i].f, sites[i].x, sites[i].p, sites[i].l1, sites[i].l2)
    ensures Eval(more[i].bdd, a) <==> FourTrue(cs, sites[i].e, sites[i].f, a)
  {
    var s := sites[i];
    assert SiteBuilt(cs, sites, more, i);
    HalvesAreFunction(cs, s.e, s.f, s.x, s.p, s.l1, s.l2, a);
  }

  lemma UsedTrue(cs: seq<seq<int>>, e: Entry, f: Entry, x: int, p: int, l1: int, l2: int, k: nat, a: Assignment)
    requires Halves(cs, e, f, x, p, l1, l2) && FourTrue(cs, e, f, a) && Uses(cs, e, f, x, l1, l2, k)
    requires k < |cs| && Proper(cs[k])
    ensures ClauseTrue(cs[k], a)
  {
    if Extra(cs, x, l2, l1, k) || Extra(cs, -x, -l2, -l1, k) {
      ExtraImplied(cs, e, f, x, p, l1, l2, k, a);
    }
  }

  lemma MarkedTrue(cs: seq<seq<int>>, was: seq<Clause>, sites: seq<Site>, more: seq<Function>, now: seq<Clause>, k: nat, a: Assignment)
    requires cs == Lits(was) && ThreeInput(cs) && Built(cs, sites, more) && Marked(cs, sites, was, now)
    requires k < |now| && now[k].subsumed && !was[k].subsumed && Holds(more, a)
    ensures ClauseTrue(cs[k], a)
  {
    var i :| 0 <= i < |sites| && Uses(cs, sites[i].e, sites[i].f, sites[i].x, sites[i].l1, sites[i].l2, k);
    SiteValue(cs, sites, more, i, a);
    UsedTrue(cs, sites[i].e, sites[i].f, sites[i].x, sites[i].p, sites[i].l1, sites[i].l2, k, a);
  }

  lemma IteEqualsSound(fs: seq<Function>, was: seq<Clause>, sites: seq<Site>, more: seq<Function>, now: seq<Clause>)
    requires ThreeInput(Lits(was)) && Droppable(fs, was)
    requires Built(Lits(was), sites, more) && Marked(Lits(was), sites, was, now)
    ensures Searched(fs, was, fs + more, now)
  {
    var cs := Lits(was);
    assert Lits(now) == cs;
    forall k, a: Assignment | 0 <= k < |now| && now[k].subsumed && !was[k].subsumed && Holds(more, a)
      ensures ClauseTrue(was[k].lits, a)
    {
      MarkedTrue(cs, was, sites, more, now, k, a);
    }
    forall a: Assignment | AllTrue(cs, a) ensures Holds(more, a) {
      forall i | 0 <= i < |more| ensures Eval(more[i].bdd, a) {
        SiteValue(cs, sites, more, i, a);
      }
    }
    SearchSound(fs, was, more, now);
  }

  // 1 is 4 if 2 and 3 otherwise, in four clauses, and !1 | 3 | 3 after them.
  const DOUBLED: seq<seq<int>> := [[-1, 2, 3], [1, 2, -3], [-1, -2, 4], [1, -2, -4], [-1, 3, 3]]

  lemma DoubledHits(r: nat)
    requires r < 2
    ensures !Meets(DOUBLED, 1, -1, [1, -2, -4], r)
    ensures Hits([1, 2, -3], [-1, 2, 3], 1, 1, 3) == 2 && Hits([1, -2, -4], [-1, -2, 4], 1, -1, 3) == 2
  {
    HitsAre([1, 2, -3], [-1, 2, 3], 1, 1);
    HitsAre([1, -2, -4], [-1, -2, 4], 1, -1);
    HitsAre([1, -2, -4], [-1, 2, 3], 1, -1);
  }

  lemma HitsAre(c: seq<int>, d: seq<int>, x: int, s: int)
    requires |c| == 3
    ensures Hits(c, d, x, s, 3) == (if SameAt(c, d, x, s, 0) || OppositeAt(c, d, x, 0) then 1 else 0)
              + (if SameAt(c, d, x, s, 1) || OppositeAt(c, d, x, 1) then 1 else 0)
              + (if SameAt(c, d, x, s, 2) || OppositeAt(c, d, x, 2) then 1 else 0)
  {
    assert Hits(c, d, x, s, 0) == 0;
    assert Hits(c, d, x, s, 1) == if SameAt(c, d, x, s, 0) || OppositeAt(c, d, x, 0) then 1 else 0;
  }

  lemma NegativesThree(c: seq<int>)
    requires |c| == 3
    ensures Negatives(c) == (if c[0] < 0 then 1 else 0) + (if c[1] < 0 then 1 else 0) + (if c[2] < 0 then 1 else 0)
  {
    var d := Front(c);
    var e := Front(d);
    assert Front(e) == [] && Last(e) == c[0] && Last(d) == c[1] && Last(c) == c[2];
    assert Negatives(e) == if c[0] < 0 then 1 else 0;
  }

  lemma DoubledSite()
    ensures IteAt(DOUBLED, 1, Entry(1, 0, 1, 2), Entry(3, 2, 1, 2))
  {
    NegativesThree(DOUBLED[1]);
    NegativesThree(DOUBLED[3]);
    DoubledHits(0);
    DoubledHits(1);
  }

  lemma DoubledHalves()
    ensures Halves(DOUBLED, Entry(1, 0, 1, 2), Entry(3, 2, 1, 2), 1, 2, -3, -4)
  {
  }

  // The four are found at variable 1, and the fifth is marked with them; but the four
  // allow 1, 2 and 4 without 3, which the fifth forbids.
  lemma DoubledExample(a: Assignment)
    requires forall v :: v in a <==> v == 1 || v == 2 || v == 4
    ensures var e, f := Entry(1, 0, 1, 2), Entry(3, 2, 1, 2);
            && IteAt(DOUBLED, 1, e, f) && Halves(DOUBLED, e, f, 1, 2, -3, -4) && Uses(DOUBLED, e, f, 1, -3, -4, 4)
            && FourTrue(DOUBLED, e, f, a) && !ClauseTrue(DOUBLED[4], a)
  {
    DoubledSite();
    DoubledHalves();
    AmongThree(DOUBLED[4], 4, 3);
    HalvesTrue(DOUBLED, Entry(1, 0, 1, 2), Entry(3, 2, 1, 2), 1, 2, -3, -4, a);
  }
}
