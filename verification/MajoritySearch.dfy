// find_and_build_majvequals (src/formats/cnf.cc): six three-literal clauses
// over four variables that say v0 is the majority of three negated literals.

module MajoritySearch {
  import opened Bdd
  import opened Clauses
  import opened ClauseOrder
  import opened ClauseStore
  import opened XorSearch
  import opened ThreeLists

  // Four literals over different variables, sorted as abscompfunc sorts.
  predicate Quad(o: seq<int>) {
    |o| == 4 && Proper(o)
  }

  // The three literals left when position m is taken out.
  function Triple(o: seq<int>, m: nat): seq<int>
    requires |o| == 4 && m < 4
  {
    if m == 0 then [o[1], o[2], o[3]]
    else if m == 1 then [o[0], o[2], o[3]]
    else if m == 2 then [o[0], o[1], o[3]]
    else [o[0], o[1], o[2]]
  }

  function Negated(o: seq<int>): seq<int> {
    seq(|o|, k requires 0 <= k < |o| => -o[k])
  }

  // pattern_majv_equals.
  predicate Pattern(c: seq<int>, o: seq<int>)
    requires |o| == 4
  {
    |c| == 3 &&
    ((c[0] == o[0] && c[1] == o[1] && c[2] == o[2]) ||
     (c[0] == o[0] && c[1] == o[1] && c[2] == o[3]) ||
     (c[0] == o[0] && c[1] == o[2] && c[2] == o[3]) ||
     (c[0] == o[1] && c[1] == o[2] && c[2] == o[3]))
  }

  lemma PatternTriple(c: seq<int>, o: seq<int>) returns (m: nat)
    requires |o| == 4 && Pattern(c, o)
    ensures m < 4 && c == Triple(o, m)
  {
    m := if c[0] == o[0] && c[1] == o[1] && c[2] == o[2] then 3
         else if c[0] == o[0] && c[1] == o[1] && c[2] == o[3] then 2
         else if c[0] == o[0] && c[1] == o[2] && c[2] == o[3] then 1
         else 0;
  }

  // Three different patterns that contain v0 = o[z] are all there are.
  ghost predicate ThreeOfQuad(cs: seq<seq<int>>, o: seq<int>, lit: int, i: int, j: int, k: int)
    requires |o| == 4
  {
    && Contains3(cs, lit, i) && Contains3(cs, lit, j) && Contains3(cs, lit, k)
    && i != j && j != k && i != k
    && Pattern(cs[i], o) && Pattern(cs[j], o) && Pattern(cs[k], o)
  }

  // The six clauses for v0: three with v0, three with -v0.
  ghost predicate Majority(cs: seq<seq<int>>, v0: int, o: seq<int>, at: seq<int>) {
    && Quad(o) && v0 in o && |at| == 6
    && ThreeOfQuad(cs, o, v0, at[0], at[1], at[2])
    && ThreeOfQuad(cs, Negated(o), -v0, at[3], at[4], at[5])
  }

  // ----- the function -----

  ghost predicate On(o: seq<int>, k: int, a: Assignment)
    requires |o| == 4
  {
    0 <= k < 4 && LitTrue(o[k], a)
  }

  ghost predicate TrueWithout(o: seq<int>, m: int, a: Assignment)
    requires |o| == 4
  {
    (m != 0 && On(o, 0, a)) || (m != 1 && On(o, 1, a)) || (m != 2 && On(o, 2, a)) || (m != 3 && On(o, 3, a))
  }

  // Two of the literals other than o[z] are true.
  ghost predicate TwoTrue(o: seq<int>, z: int, a: Assignment)
    requires |o| == 4
  {
    || (z != 0 && z != 1 && On(o, 0, a) && On(o, 1, a))
    || (z != 0 && z != 2 && On(o, 0, a) && On(o, 2, a))
    || (z != 0 && z != 3 && On(o, 0, a) && On(o, 3, a))
    || (z != 1 && z != 2 && On(o, 1, a) && On(o, 2, a))
    || (z != 1 && z != 3 && On(o, 1, a) && On(o, 3, a))
    || (z != 2 && z != 3 && On(o, 2, a) && On(o, 3, a))
  }

  function MajFunction(v0: int, v1: int, v2: int, v3: int): Function
    requires v0 != 0 && v1 != 0 && v2 != 0 && v3 != 0
  {
    Function(Equ(Var(v0), Ite(Var(-v1), Or(Var(-v2), Var(-v3)), And(Var(-v2), Var(-v3)))), ITE_EQU, v0)
  }

  lemma MajValue(f0: Bdd, f1: Bdd, f2: Bdd, f3: Bdd, a: Assignment)
    ensures Eval(Equ(f0, Ite(f1, Or(f2, f3), And(f2, f3))), a) <==>
            (Eval(f0, a) <==> (Eval(f1, a) && Eval(f2, a)) || (Eval(f1, a) && Eval(f3, a)) || (Eval(f2, a) && Eval(f3, a)))
  {
    OperatorsEval(f2, f3, a);
    IteEval(f1, Or(f2, f3), And(f2, f3), a);
    OperatorsEval(f0, Ite(f1, Or(f2, f3), And(f2, f3)), a);
  }

  lemma MajFunctionValue(v0: int, v1: int, v2: int, v3: int, a: Assignment)
    requires v0 != 0 && v1 != 0 && v2 != 0 && v3 != 0
    ensures Eval(MajFunction(v0, v1, v2, v3).bdd, a) <==>
            (LitTrue(v0, a) <==> !((LitTrue(v1, a) && LitTrue(v2, a)) || (LitTrue(v1, a) && LitTrue(v3, a))
                                   || (LitTrue(v2, a) && LitTrue(v3, a))))
  {
    MajValue(Var(v0), Var(-v1), Var(-v2), Var(-v3), a);
    LiteralValue(v0, a);
    LiteralValue(v1, a);
    LiteralValue(v2, a);
    LiteralValue(v3, a);
  }

  lemma LiteralValue(v: int, a: Assignment)
    requires v != 0
    ensures Eval(Var(v), a) == LitTrue(v, a) && Eval(Var(-v), a) == !LitTrue(v, a)
  {
  }

  lemma TripleTrue(o: seq<int>, m: nat, a: Assignment)
    requires |o| == 4 && m < 4
    ensures ClauseTrue(Triple(o, m), a) <==> TrueWithout(o, m, a)
  {
    var c := Triple(o, m);
    assert ClauseTrue(c, a) <==> LitTrue(c[0], a) || LitTrue(c[1], a) || LitTrue(c[2], a);
  }

  lemma ThreeWithout(o: seq<int>, z: nat, mi: nat, mj: nat, mk: nat, a: Assignment)
    requires |o| == 4 && z < 4 && mi < 4 && mj < 4 && mk < 4
    requires mi != z && mj != z && mk != z && mi != mj && mj != mk && mi != mk
    ensures TrueWithout(o, mi, a) && TrueWithout(o, mj, a) && TrueWithout(o, mk, a) <==>
            On(o, z, a) || TwoTrue(o, z, a)
  {
  }

  lemma TripleWith(o: seq<int>, m: nat, z: nat)
    requires Quad(o) && m < 4 && z < 4
    ensures o[z] in Triple(o, m) <==> m != z
  {
    var c := Triple(o, m);
    assert o[z] in c <==> o[z] == c[0] || o[z] == c[1] || o[z] == c[2];
    assert Abs(o[0]) < Abs(o[1]) < Abs(o[2]) < Abs(o[3]);
  }

  // All patterns with lit = o[z] hold iff lit holds or two others do.
  lemma ThreeTrue(cs: seq<seq<int>>, o: seq<int>, z: nat, i: nat, j: nat, k: nat, a: Assignment)
    requires ThreeInput(cs) && Quad(o) && z < 4 && ThreeOfQuad(cs, o, o[z], i, j, k)
    ensures ClauseTrue(cs[i], a) && ClauseTrue(cs[j], a) && ClauseTrue(cs[k], a) <==>
            On(o, z, a) || TwoTrue(o, z, a)
  {
    var mi := PatternTriple(cs[i], o);
    var mj := PatternTriple(cs[j], o);
    var mk := PatternTriple(cs[k], o);
    StrictDistinct(cs, i, j);
    StrictDistinct(cs, j, k);
    StrictDistinct(cs, i, k);
    TripleWith(o, mi, z);
    TripleWith(o, mj, z);
    TripleWith(o, mk, z);
    TripleTrue(o, mi, a);
    TripleTrue(o, mj, a);
    TripleTrue(o, mk, a);
    ThreeWithout(o, z, mi, mj, mk, a);
  }

  lemma StrictDistinct(cs: seq<seq<int>>, i: nat, j: nat)
    requires ThreeInput(cs) && i < |cs| && j < |cs| && i != j
    ensures cs[i] != cs[j]
  {
    if i < j {
      assert ClauseLess(cs[i], cs[j]);
      LexIrreflexive(Key(cs[i]), Key(cs[j]));
    } else {
      assert ClauseLess(cs[j], cs[i]);
      LexIrreflexive(Key(cs[j]), Key(cs[i]));
    }
  }

  // o lists the four literals.
  ghost predicate Places(o: seq<int>, v0: int, v1: int, v2: int, v3: int, z: nat, i: nat, j: nat, k: nat) {
    && |o| == 4 && z < 4 && i < 4 && j < 4 && k < 4
    && z != i && z != j && z != k && i != j && i != k && j != k
    && o[z] == v0 && o[i] == v1 && o[j] == v2 && o[k] == v3
  }

  ghost predicate Arranged(o: seq<int>, v0: int, v1: int, v2: int, v3: int) {
    exists z, i, j, k :: Places(o, v0, v1, v2, v3, z, i, j, k)
  }

  lemma TwoOfThree(o: seq<int>, v0: int, v1: int, v2: int, v3: int, z: nat, i: nat, j: nat, k: nat, a: Assignment)
    requires Places(o, v0, v1, v2, v3, z, i, j, k)
    ensures TwoTrue(o, z, a) <==> (On(o, i, a) && On(o, j, a)) || (On(o, i, a) && On(o, k, a)) || (On(o, j, a) && On(o, k, a))
  {
  }

  lemma NegatedQuad(o: seq<int>, a: Assignment)
    requires Quad(o)
    ensures Quad(Negated(o))
    ensures forall k :: 0 <= k < 4 ==> (On(Negated(o), k, a) <==> !On(o, k, a))
  {
    forall k | 0 <= k < 4 ensures On(Negated(o), k, a) <==> !On(o, k, a) {
      assert o[k] != 0;
    }
  }

  // Of three literals two are true or two are false, never both.
  lemma NegatedTwoTrue(o: seq<int>, z: nat, a: Assignment)
    requires Quad(o) && z < 4
    ensures Quad(Negated(o)) && (On(Negated(o), z, a) <==> !On(o, z, a))
    ensures TwoTrue(Negated(o), z, a) <==> !TwoTrue(o, z, a)
  {
    NegatedQuad(o, a);
  }

  lemma ThreeNegated(cs: seq<seq<int>>, o: seq<int>, z: nat, i: nat, j: nat, k: nat, a: Assignment)
    requires ThreeInput(cs) && Quad(o) && z < 4 && ThreeOfQuad(cs, Negated(o), -o[z], i, j, k)
    ensures ClauseTrue(cs[i], a) && ClauseTrue(cs[j], a) && ClauseTrue(cs[k], a) <==>
            !On(o, z, a) || !TwoTrue(o, z, a)
  {
    NegatedTwoTrue(o, z, a);
    ThreeTrue(cs, Negated(o), z, i, j, k, a);
  }

  predicate SixInRange(cs: seq<seq<int>>, at: seq<int>) {
    && |at| == 6
    && 0 <= at[0] < |cs| && 0 <= at[1] < |cs| && 0 <= at[2] < |cs|
    && 0 <= at[3] < |cs| && 0 <= at[4] < |cs| && 0 <= at[5] < |cs|
  }

  ghost predicate SixHold(cs: seq<seq<int>>, at: seq<int>, a: Assignment)
    requires SixInRange(cs, at)
  {
    && ClauseTrue(cs[at[0]], a) && ClauseTrue(cs[at[1]], a) && ClauseTrue(cs[at[2]], a)
    && ClauseTrue(cs[at[3]], a) && ClauseTrue(cs[at[4]], a) && ClauseTrue(cs[at[5]], a)
  }

  lemma SixTrue(cs: seq<seq<int>>, o: seq<int>, z: nat, at: seq<int>, a: Assignment)
    requires ThreeInput(cs) && |o| == 4 && z < 4 && Majority(cs, o[z], o, at)
    ensures SixInRange(cs, at)
    ensures SixHold(cs, at, a) <==> (On(o, z, a) <==> !TwoTrue(o, z, a))
  {
    ThreeTrue(cs, o, z, at[0], at[1], at[2], a);
    ThreeNegated(cs, o, z, at[3], at[4], at[5], a);
  }

  lemma FunctionTrue(o: seq<int>, v0: int, v1: int, v2: int, v3: int, z: nat, i: nat, j: nat, k: nat, a: Assignment)
    requires Quad(o) && Places(o, v0, v1, v2, v3, z, i, j, k)
    ensures v0 != 0 && v1 != 0 && v2 != 0 && v3 != 0
    ensures Eval(MajFunction(v0, v1, v2, v3).bdd, a) <==> (On(o, z, a) <==> !TwoTrue(o, z, a))
  {
    assert o[z] != 0 && o[i] != 0 && o[j] != 0 && o[k] != 0;
    TwoOfThree(o, v0, v1, v2, v3, z, i, j, k, a);
    MajFunctionValue(v0, v1, v2, v3, a);
  }

  // The six clauses say exactly what the function says.
  lemma SixAreFunction(cs: seq<seq<int>>, v0: int, v1: int, v2: int, v3: int, o: seq<int>, at: seq<int>, a: Assignment)
    requires ThreeInput(cs) && Majority(cs, v0, o, at) && Arranged(o, v0, v1, v2, v3)
    ensures v0 != 0 && v1 != 0 && v2 != 0 && v3 != 0
    ensures SixInRange(cs, at)
    ensures Eval(MajFunction(v0, v1, v2, v3).bdd, a) <==> SixHold(cs, at, a)
  {
    var z, i, j, k :| Places(o, v0, v1, v2, v3, z, i, j, k);
    FunctionTrue(o, v0, v1, v2, v3, z, i, j, k, a);
    SixTrue(cs, o, z, at, a);
  }

  // ----- from two clauses to the four literals -----

  function RestOf(c: seq<int>, v0: int): (int, int)
    requires |c| == 3
  {
    if c[0] == v0 then (c[1], c[2]) else if c[1] == v0 then (c[0], c[2]) else (c[0], c[1])
  }

  datatype Third = NoThird | Third(v3: int)

  function ThirdOf(c: seq<int>, v0: int, v1: int, v2: int): Third
    requires |c| == 3
  {
    var (a, b) := RestOf(c, v0);
    if a == v1 then Third(b) else if b == v1 then Third(a)
    else if a == v2 then Third(b) else if b == v2 then Third(a)
    else NoThird
  }

  predicate OneOf(x: int, v0: int, v1: int, v2: int, v3: int) {
    x == v0 || x == v1 || x == v2 || x == v3
  }

  ghost predicate SameFour(o: seq<int>, v0: int, v1: int, v2: int, v3: int) {
    && |o| == 4
    && v0 in o && v1 in o && v2 in o && v3 in o
    && forall x :: x in o ==> OneOf(x, v0, v1, v2, v3)
  }

  // Two different clauses of the six with v0 determine the four literals.
  lemma PairForces(c: seq<int>, d: seq<int>, o: seq<int>, v0: int)
    requires Quad(o) && v0 in o && Pattern(c, o) && Pattern(d, o) && c != d && v0 in c && v0 in d
    ensures var (v1, v2) := RestOf(c, v0);
            ThirdOf(d, v0, v1, v2).Third? && SameFour(o, v0, v1, v2, ThirdOf(d, v0, v1, v2).v3)
  {
    var m := PatternTriple(c, o);
    var l := PatternTriple(d, o);
    assert Abs(o[0]) < Abs(o[1]) < Abs(o[2]) < Abs(o[3]);
    assert forall x :: x in o <==> x == o[0] || x == o[1] || x == o[2] || x == o[3];
  }

  lemma {:induction false} ProperUnique(s: seq<int>, t: seq<int>)
    requires forall i, j :: 0 <= i < j < |s| ==> Abs(s[i]) < Abs(s[j])
    requires forall i, j :: 0 <= i < j < |t| ==> Abs(t[i]) < Abs(t[j])
    requires |s| == |t| && forall x :: x in s <==> x in t
    ensures s == t
  {
    if s != [] {
      assert s[0] in t && t[0] in s;
      assert s[0] == t[0];
      forall x ensures x in s[1..] <==> x in t[1..] {
        assert x in s[1..] <==> x in s && x != s[0];
        assert x in t[1..] <==> x in t && x != t[0];
      }
      ProperUnique(s[1..], t[1..]);
    }
  }

  lemma FourArranged(o: seq<int>, v0: int, v1: int, v2: int, v3: int)
    requires Quad(o) && SameFour(o, v0, v1, v2, v3)
    ensures Arranged(o, v0, v1, v2, v3)
  {
    var z: nat :| z < 4 && o[z] == v0;
    var i: nat :| i < 4 && o[i] == v1;
    var j: nat :| j < 4 && o[j] == v2;
    var k: nat :| k < 4 && o[k] == v3;
    assert Abs(o[0]) < Abs(o[1]) < Abs(o[2]) < Abs(o[3]);
    assert o[0] in o && o[1] in o && o[2] in o && o[3] in o;
    assert Places(o, v0, v1, v2, v3, z, i, j, k);
  }

  method SortFour(v0: int, v1: int, v2: int, v3: int) returns (order: seq<int>)
    ensures |order| == 4 && SortedByVariable(order) && SameFour(order, v0, v1, v2, v3)
  {
    var four := [v0, v1, v2, v3];
    order := SortLiterals(four);
    assert |multiset(order)| == |multiset(four)|;
    forall x ensures x in order <==> OneOf(x, v0, v1, v2, v3) {
      assert x in order <==> x in multiset(order);
      assert x in multiset(four) <==> x in four;
    }
  }

  // ----- searching -----

  method FirstPattern(cs: seq<seq<int>>, list: seq<nat>, from: nat, to: nat, o: seq<int>) returns (k: nat)
    requires |o| == 4 && from <= to <= |list| && forall q :: 0 <= q < |list| ==> list[q] < |cs|
    ensures from <= k <= to
    ensures k < to ==> Pattern(cs[list[k]], o)
    ensures forall q :: from <= q < k ==> !Pattern(cs[list[q]], o)
  {
    k := from;
    while k < to && !Pattern(cs[list[k]], o)
      invariant from <= k <= to
      invariant forall q :: from <= q < k ==> !Pattern(cs[list[q]], o)
    {
      k := k + 1;
    }
  }

  ghost predicate Patterns3(cs: seq<seq<int>>, list: seq<nat>, o: seq<int>, i: int, j: int, k: int)
    requires |o| == 4 && forall q :: 0 <= q < |list| ==> list[q] < |cs|
  {
    0 <= i < j < k < |list| && Pattern(cs[list[i]], o) && Pattern(cs[list[j]], o) && Pattern(cs[list[k]], o)
  }

  // The three consecutive scans of three_neg.
  method ThreePatterns(cs: seq<seq<int>>, list: seq<nat>, o: seq<int>) returns (found: bool, i: nat, j: nat, k: nat)
    requires |o| == 4 && |list| >= 3 && forall q :: 0 <= q < |list| ==> list[q] < |cs|
    ensures found ==> Patterns3(cs, list, o, i, j, k)
    ensures !found ==> forall p, q, r :: !Patterns3(cs, list, o, p, q, r)
  {
    found, j, k := false, 0, 0;
    i := FirstPattern(cs, list, 0, |list| - 2, o);
    if i == |list| - 2 { return; }
    j := FirstPattern(cs, list, i + 1, |list| - 1, o);
    if j == |list| - 1 { return; }
    k := FirstPattern(cs, list, j + 1, |list|, o);
    found := k < |list|;
  }

  ghost predicate Lists(cs: seq<seq<int>>, v0: int, pos: seq<nat>, neg: seq<nat>) {
    && pos == ThreeOf(cs, v0, |cs|) && neg == ThreeOf(cs, -v0, |cs|)
    && (forall q :: 0 <= q < |pos| ==> Contains3(cs, v0, pos[q]))
    && (forall q :: 0 <= q < |neg| ==> Contains3(cs, -v0, neg[q]))
  }

  ghost predicate Shape(cs: seq<seq<int>>, v0: int, pos: seq<nat>, neg: seq<nat>, o: seq<int>,
                        i: int, j: int, k: int, p: int, q: int, r: int)
    requires Lists(cs, v0, pos, neg)
  {
    Quad(o) && v0 in o && Patterns3(cs, pos, o, i, j, k) && Patterns3(cs, neg, Negated(o), p, q, r)
  }

  lemma ShapeIsMajority(cs: seq<seq<int>>, v0: int, pos: seq<nat>, neg: seq<nat>, o: seq<int>,
                        i: nat, j: nat, k: nat, p: nat, q: nat, r: nat)
    requires Lists(cs, v0, pos, neg) && Shape(cs, v0, pos, neg, o, i, j, k, p, q, r)
    ensures Majority(cs, v0, o, [pos[i], pos[j], pos[k], neg[p], neg[q], neg[r]])
  {
    ThreeOfMeaning(cs, v0, |cs|);
    ThreeOfMeaning(cs, -v0, |cs|);
  }

  lemma SortedPositions(cs: seq<seq<int>>, lit: int, list: seq<nat>, o: seq<int>, i: int, j: int, k: int)
    returns (p: nat, q: nat, r: nat)
    requires |o| == 4 && list == ThreeOf(cs, lit, |cs|) && ThreeOfQuad(cs, o, lit, i, j, k)
    ensures forall q :: 0 <= q < |list| ==> list[q] < |cs|
    ensures Patterns3(cs, list, o, p, q, r)
  {
    ThreeOfMeaning(cs, lit, |cs|);
    forall q | 0 <= q < |list| ensures list[q] < |cs| {
      assert list[q] in list;
    }
    assert i in list && j in list && k in list;
    var pi: nat :| pi < |list| && list[pi] == i;
    var pj: nat :| pj < |list| && list[pj] == j;
    var pk: nat :| pk < |list| && list[pk] == k;
    p := if pi < pj && pi < pk then pi else if pj < pk then pj else pk;
    r := if pi > pj && pi > pk then pi else if pj > pk then pj else pk;
    q := if pi != p && pi != r then pi else if pj != p && pj != r then pj else pk;
  }

  lemma MajorityIsShape(cs: seq<seq<int>>, v0: int, pos: seq<nat>, neg: seq<nat>, o: seq<int>, at: seq<int>)
    returns (i: nat, j: nat, k: nat, p: nat, q: nat, r: nat)
    requires Lists(cs, v0, pos, neg) && Majority(cs, v0, o, at)
    ensures Shape(cs, v0, pos, neg, o, i, j, k, p, q, r)
  {
    i, j, k := SortedPositions(cs, v0, pos, o, at[0], at[1], at[2]);
    p, q, r := SortedPositions(cs, -v0, neg, Negated(o), at[3], at[4], at[5]);
  }

  // What the middle loop finds out about the pair of positions (i, j).
  ghost predicate NoShape(cs: seq<seq<int>>, v0: int, pos: seq<nat>, neg: seq<nat>, i: int, j: int)
    requires Lists(cs, v0, pos, neg)
  {
    forall o, k, p, q, r :: !Shape(cs, v0, pos, neg, o, i, j, k, p, q, r)
  }

  ghost predicate Result(cs: seq<seq<int>>, v0: int, v1: int, v2: int, v3: int, o: seq<int>, at: seq<nat>) {
    Majority(cs, v0, o, at) && Arranged(o, v0, v1, v2, v3)
  }

  lemma PatternOfSubset(c: seq<int>, o: seq<int>)
    requires Quad(o) && |c| == 3 && Proper(c) && c[0] in o && c[1] in o && c[2] in o
    ensures Pattern(c, o)
  {
    assert Abs(o[0]) < Abs(o[1]) < Abs(o[2]) < Abs(o[3]);
    assert Abs(c[0]) < Abs(c[1]) < Abs(c[2]);
    assert forall x :: x in o <==> x == o[0] || x == o[1] || x == o[2] || x == o[3];
  }

  lemma ThirdMembers(c: seq<int>, v0: int, v1: int, v2: int)
    requires |c| == 3 && v0 in c && ThirdOf(c, v0, v1, v2).Third?
    ensures forall x :: x in c ==> OneOf(x, v0, v1, v2, ThirdOf(c, v0, v1, v2).v3)
  {
    assert forall x :: x in c <==> x == c[0] || x == c[1] || x == c[2];
  }

  lemma RestMembers(c: seq<int>, v0: int)
    requires |c| == 3 && v0 in c
    ensures forall x :: x in c <==> x == v0 || x == RestOf(c, v0).0 || x == RestOf(c, v0).1
  {
    assert forall x :: x in c <==> x == c[0] || x == c[1] || x == c[2];
  }

  // Four different variables keep their order strict.
  lemma QuadSpreads(o: seq<int>, order: seq<int>, v0: int, v1: int, v2: int, v3: int)
    requires Quad(o) && SameFour(o, v0, v1, v2, v3)
    requires SortedByVariable(order) && SameFour(order, v0, v1, v2, v3)
    ensures Abs(order[0]) < Abs(order[1]) < Abs(order[2]) < Abs(order[3])
  {
    assert o[0] in o && o[1] in o && o[2] in o && o[3] in o;
    assert o[0] in order && o[1] in order && o[2] in order && o[3] in order;
    var j0 :| 0 <= j0 < 4 && order[j0] == o[0];
    var j1 :| 0 <= j1 < 4 && order[j1] == o[1];
    var j2 :| 0 <= j2 < 4 && order[j2] == o[2];
    var j3 :| 0 <= j3 < 4 && order[j3] == o[3];
    assert Abs(order[j0]) < Abs(order[j1]) < Abs(order[j2]) < Abs(order[j3]);
    assert j0 < j1 < j2 < j3;
  }

  method TryOrder(cs: seq<seq<int>>, v0: int, pos: seq<nat>, neg: seq<nat>, i: nat, j: nat, order: seq<int>)
    returns (found: bool, at: seq<nat>)
    requires Lists(cs, v0, pos, neg) && i < j < |pos| && |neg| >= 3
    requires Quad(order) && v0 in order && Pattern(cs[pos[i]], order) && Pattern(cs[pos[j]], order)
    ensures found ==> Majority(cs, v0, order, at)
    ensures !found ==> forall k, p, q, r :: !Shape(cs, v0, pos, neg, order, i, j, k, p, q, r)
  {
    found, at := false, [];
    var k := FirstPattern(cs, pos, j + 1, |pos|, order);
    if k == |pos| {
      return;
    }
    var p, q, r;
    found, p, q, r := ThreePatterns(cs, neg, Negated(order));
    if found {
      assert Shape(cs, v0, pos, neg, order, i, j, k, p, q, r);
      ShapeIsMajority(cs, v0, pos, neg, order, i, j, k, p, q, r);
      at := [pos[i], pos[j], pos[k], neg[p], neg[q], neg[r]];
    }
  }

  lemma ShapeForces(cs: seq<seq<int>>, v0: int, pos: seq<nat>, neg: seq<nat>, o: seq<int>,
                    i: nat, j: nat, k: int, p: int, q: int, r: int)
    requires ThreeInput(cs) && Lists(cs, v0, pos, neg) && Shape(cs, v0, pos, neg, o, i, j, k, p, q, r)
    ensures var (v1, v2) := RestOf(cs[pos[i]], v0);
            var third := ThirdOf(cs[pos[j]], v0, v1, v2);
            third.Third? && SameFour(o, v0, v1, v2, third.v3)
  {
    ThreeOfMeaning(cs, v0, |cs|);
    StrictDistinct(cs, pos[i], pos[j]);
    PairForces(cs[pos[i]], cs[pos[j]], o, v0);
  }

  method TryPair(cs: seq<seq<int>>, v0: int, pos: seq<nat>, neg: seq<nat>, i: nat, j: nat)
    returns (found: bool, v1: int, v2: int, v3: int, order: seq<int>, at: seq<nat>)
    requires ThreeInput(cs) && Lists(cs, v0, pos, neg) && i < j < |pos| && |neg| >= 3
    ensures found ==> Result(cs, v0, v1, v2, v3, order, at)
    ensures !found ==> NoShape(cs, v0, pos, neg, i, j)
  {
    var c1, c2 := cs[pos[i]], cs[pos[j]];
    var rest := RestOf(c1, v0);
    found, v1, v2, v3, order, at := false, rest.0, rest.1, 0, [], [];
    forall o, k, p, q, r | Shape(cs, v0, pos, neg, o, i, j, k, p, q, r)
      ensures ThirdOf(c2, v0, v1, v2).Third? && SameFour(o, v0, v1, v2, ThirdOf(c2, v0, v1, v2).v3)
    {
      ShapeForces(cs, v0, pos, neg, o, i, j, k, p, q, r);
    }
    var third := ThirdOf(c2, v0, v1, v2);
    if third.NoThird? {
      return;
    }
    v3 := third.v3;
    order := SortFour(v0, v1, v2, v3);
    forall o | Quad(o) && SameFour(o, v0, v1, v2, v3)
      ensures Abs(order[0]) < Abs(order[1]) < Abs(order[2]) < Abs(order[3])
    {
      QuadSpreads(o, order, v0, v1, v2, v3);
    }
    if Abs(order[0]) == Abs(order[1]) || Abs(order[1]) == Abs(order[2]) || Abs(order[2]) == Abs(order[3]) {
      return;
    }
    RestMembers(c1, v0);
    ThirdMembers(c2, v0, v1, v2);
    OrderIsQuad(c1, c2, order, v0, v1, v2, v3);
    forall o | Quad(o) && SameFour(o, v0, v1, v2, v3) ensures o == order {
      ProperUnique(o, order);
    }
    found, at := TryOrder(cs, v0, pos, neg, i, j, order);
    FourArranged(order, v0, v1, v2, v3);
  }

  lemma OrderIsQuad(c1: seq<int>, c2: seq<int>, order: seq<int>, v0: int, v1: int, v2: int, v3: int)
    requires SortedByVariable(order) && SameFour(order, v0, v1, v2, v3)
    requires Abs(order[0]) != Abs(order[1]) && Abs(order[1]) != Abs(order[2]) && Abs(order[2]) != Abs(order[3])
    requires |c1| == 3 && Proper(c1) && |c2| == 3 && Proper(c2)
    requires forall x :: x in c1 <==> x == v0 || x == v1 || x == v2
    requires forall x :: x in c2 ==> OneOf(x, v0, v1, v2, v3)
    requires v3 != 0
    ensures Quad(order) && Pattern(c1, order) && Pattern(c2, order)
  {
    assert v0 in c1 && v1 in c1 && v2 in c1;
    OrderIsProper(order, v0, v1, v2, v3);
    assert c1[0] in c1 && c1[1] in c1 && c1[2] in c1;
    PatternOfSubset(c1, order);
    MembersOfFour(c2, order, v0, v1, v2, v3);
    PatternOfSubset(c2, order);
  }

  lemma OrderIsProper(order: seq<int>, v0: int, v1: int, v2: int, v3: int)
    requires SortedByVariable(order) && SameFour(order, v0, v1, v2, v3)
    requires Abs(order[0]) != Abs(order[1]) && Abs(order[1]) != Abs(order[2]) && Abs(order[2]) != Abs(order[3])
    requires v0 != 0 && v1 != 0 && v2 != 0 && v3 != 0
    ensures Quad(order)
  {
    forall k | 0 <= k < 4 ensures order[k] != 0 {
      assert order[k] in order;
    }
  }

  lemma MembersOfFour(c: seq<int>, order: seq<int>, v0: int, v1: int, v2: int, v3: int)
    requires |c| == 3 && SameFour(order, v0, v1, v2, v3) && forall x :: x in c ==> OneOf(x, v0, v1, v2, v3)
    ensures c[0] in order && c[1] in order && c[2] in order
  {
    assert c[0] in c && c[1] in c && c[2] in c;
    assert OneOf(c[0], v0, v1, v2, v3) && OneOf(c[1], v0, v1, v2, v3) && OneOf(c[2], v0, v1, v2, v3);
  }

  ghost predicate NoMajority(cs: seq<seq<int>>, v0: int) {
    forall o, at :: !Majority(cs, v0, o, at)
  }

  // All pairs of positions before (i, j) are fruitless.
  ghost predicate Fruitless(cs: seq<seq<int>>, v0: int, pos: seq<nat>, neg: seq<nat>, i: int, j: int)
    requires Lists(cs, v0, pos, neg)
  {
    forall i0, j0 :: 0 <= i0 < j0 < |pos| - 1 && (i0 < i || (i0 == i && j0 < j)) ==> NoShape(cs, v0, pos, neg, i0, j0)
  }

  lemma FruitlessStep(cs: seq<seq<int>>, v0: int, pos: seq<nat>, neg: seq<nat>, i: nat, j: nat)
    requires Lists(cs, v0, pos, neg) && Fruitless(cs, v0, pos, neg, i, j) && NoShape(cs, v0, pos, neg, i, j)
    ensures Fruitless(cs, v0, pos, neg, i, j + 1)
  {
    forall i0, j0 | 0 <= i0 < j0 < |pos| - 1 && (i0 < i || (i0 == i && j0 < j + 1))
      ensures NoShape(cs, v0, pos, neg, i0, j0)
    {
      assert (i0 == i && j0 == j) || i0 < i || (i0 == i && j0 < j);
    }
  }

  lemma FruitlessRow(cs: seq<seq<int>>, v0: int, pos: seq<nat>, neg: seq<nat>, i: nat)
    requires Lists(cs, v0, pos, neg) && Fruitless(cs, v0, pos, neg, i, |pos| - 1)
    ensures Fruitless(cs, v0, pos, neg, i + 1, 0)
  {
  }

  lemma NoShapeAt(cs: seq<seq<int>>, v0: int, pos: seq<nat>, neg: seq<nat>, o: seq<int>,
                  i: nat, j: nat, k: nat, p: nat, q: nat, r: nat)
    requires Lists(cs, v0, pos, neg) && NoShape(cs, v0, pos, neg, i, j)
    ensures !Shape(cs, v0, pos, neg, o, i, j, k, p, q, r)
  {
  }

  lemma NothingFound(cs: seq<seq<int>>, v0: int, pos: seq<nat>, neg: seq<nat>)
    requires Lists(cs, v0, pos, neg) && Fruitless(cs, v0, pos, neg, |pos| - 2, 0)
    ensures NoMajority(cs, v0)
  {
    forall o, at ensures !Majority(cs, v0, o, at) {
      if Majority(cs, v0, o, at) {
        var i, j, k, p, q, r := MajorityIsShape(cs, v0, pos, neg, o, at);
        NoShapeAt(cs, v0, pos, neg, o, i, j, k, p, q, r);
      }
    }
  }

  lemma TooFew(cs: seq<seq<int>>, v0: int, pos: seq<nat>, neg: seq<nat>)
    requires Lists(cs, v0, pos, neg) && (|pos| < 3 || |neg| < 3)
    ensures NoMajority(cs, v0)
  {
    forall o, at ensures !Majority(cs, v0, o, at) {
      if Majority(cs, v0, o, at) {
        var i, j, k, p, q, r := MajorityIsShape(cs, v0, pos, neg, o, at);
      }
    }
  }

  // The search for one variable: it succeeds exactly when six clauses exist.
  method SearchVariable(cs: seq<seq<int>>, v0: int, pos: seq<nat>, neg: seq<nat>)
    returns (found: bool, v1: int, v2: int, v3: int, order: seq<int>, at: seq<nat>)
    requires ThreeInput(cs) && Lists(cs, v0, pos, neg)
    ensures found ==> Result(cs, v0, v1, v2, v3, order, at)
    ensures !found ==> NoMajority(cs, v0)
  {
    found, v1, v2, v3, order, at := false, 0, 0, 0, [], [];
    if |pos| < 3 || |neg| < 3 {
      TooFew(cs, v0, pos, neg);
      return;
    }
    var i := 0;
    while i < |pos| - 2 && !found
      invariant 0 <= i <= |pos| - 2
      invariant found ==> Result(cs, v0, v1, v2, v3, order, at)
      invariant !found ==> Fruitless(cs, v0, pos, neg, i, 0)
      decreases |pos| - i
    {
      found, v1, v2, v3, order, at := SearchRow(cs, v0, pos, neg, i);
      i := i + 1;
    }
    if !found {
      NothingFound(cs, v0, pos, neg);
    }
  }

  method SearchRow(cs: seq<seq<int>>, v0: int, pos: seq<nat>, neg: seq<nat>, i: nat)
    returns (found: bool, v1: int, v2: int, v3: int, order: seq<int>, at: seq<nat>)
    requires ThreeInput(cs) && Lists(cs, v0, pos, neg) && |neg| >= 3 && i < |pos| - 2
    requires Fruitless(cs, v0, pos, neg, i, 0)
    ensures found ==> Result(cs, v0, v1, v2, v3, order, at)
    ensures !found ==> Fruitless(cs, v0, pos, neg, i + 1, 0)
  {
    found, v1, v2, v3, order, at := false, 0, 0, 0, [], [];
    var j := i + 1;
    while j < |pos| - 1 && !found
      invariant i < j <= |pos| - 1
      invariant found ==> Result(cs, v0, v1, v2, v3, order, at)
      invariant !found ==> Fruitless(cs, v0, pos, neg, i, j)
      decreases |pos| - j
    {
      found, v1, v2, v3, order, at := TryPair(cs, v0, pos, neg, i, j);
      if !found {
        FruitlessStep(cs, v0, pos, neg, i, j);
      }
      j := j + 1;
    }
    if !found {
      FruitlessRow(cs, v0, pos, neg, i);
    }
  }

  // ----- the whole search -----

  datatype Site = Site(v0: int, v1: int, v2: int, v3: int, order: seq<int>, at: seq<nat>)

  ghost predicate SiteOk(cs: seq<seq<int>>, s: Site) {
    && Result(cs, s.v0, s.v1, s.v2, s.v3, s.order, s.at)
    && s.v0 != 0 && s.v1 != 0 && s.v2 != 0 && s.v3 != 0
  }

  // Every variable below bound that has six clauses is there, once.
  ghost predicate Complete(cs: seq<seq<int>>, sites: seq<Site>, bound: int) {
    && (forall i, j :: 0 <= i < j < |sites| ==> sites[i].v0 < sites[j].v0)
    && (forall i :: 0 <= i < |sites| ==> 1 <= sites[i].v0 < bound)
    && forall v :: 1 <= v < bound ==> NoMajority(cs, v) || exists i :: 0 <= i < |sites| && sites[i].v0 == v
  }

  ghost predicate SiteBuilt(cs: seq<seq<int>>, sites: seq<Site>, more: seq<Function>, i: int)
    requires 0 <= i < |sites| == |more|
  {
    var s := sites[i];
    SiteOk(cs, s) && more[i] == MajFunction(s.v0, s.v1, s.v2, s.v3)
  }

  ghost predicate Built(cs: seq<seq<int>>, sites: seq<Site>, more: seq<Function>) {
    && |more| == |sites|
    && forall i {:trigger SiteBuilt(cs, sites, more, i)} :: 0 <= i < |sites| ==> SiteBuilt(cs, sites, more, i)
  }

  predicate AmongSix(at: seq<nat>, k: int) {
    |at| == 6 && (k == at[0] || k == at[1] || k == at[2] || k == at[3] || k == at[4] || k == at[5])
  }

  ghost predicate Taken(sites: seq<Site>, k: int) {
    exists i :: 0 <= i < |sites| && AmongSix(sites[i].at, k)
  }

  ghost predicate Marked(cs: seq<seq<int>>, sites: seq<Site>, was: seq<Clause>, now: seq<Clause>) {
    && |was| == |now| == |cs|
    && forall k :: 0 <= k < |cs| ==>
         && now[k].lits == cs[k]
         && now[k].subsumed == (was[k].subsumed || Taken(sites, k))
  }

  ghost predicate SixMarked(now: seq<Clause>, now': seq<Clause>, at: seq<nat>) {
    && |now'| == |now|
    && forall k {:trigger now'[k]} :: 0 <= k < |now| ==>
         now'[k].lits == now[k].lits && now'[k].subsumed == (now[k].subsumed || AmongSix(at, k))
  }

  method MarkSix(p: array<Clause>, at: seq<nat>, ghost cs: seq<seq<int>>)
    requires SixInRange(cs, at) && |cs| <= p.Length
    modifies p
    ensures SixMarked(old(p[..|cs|]), p[..|cs|], at)
  {
    MarkThree(p, at[0], at[1], at[2]);
    MarkThree(p, at[3], at[4], at[5]);
  }

  method MarkThree(p: array<Clause>, i: nat, j: nat, k: nat)
    requires i < p.Length && j < p.Length && k < p.Length
    modifies p
    ensures forall l :: 0 <= l < p.Length ==>
              p[l] == if l == i || l == j || l == k then old(p[l]).(subsumed := true) else old(p[l])
  {
    p[i] := p[i].(subsumed := true);
    p[j] := p[j].(subsumed := true);
    p[k] := p[k].(subsumed := true);
  }

  lemma TakenAppend(sites: seq<Site>, s: Site, k: int)
    ensures Taken(sites + [s], k) <==> Taken(sites, k) || AmongSix(s.at, k)
  {
    assert (sites + [s])[|sites|] == s;
    if Taken(sites, k) {
      var i :| 0 <= i < |sites| && AmongSix(sites[i].at, k);
      assert (sites + [s])[i] == sites[i];
    }
  }

  lemma MarkedAppend(cs: seq<seq<int>>, sites: seq<Site>, s: Site, was: seq<Clause>, now: seq<Clause>, now': seq<Clause>)
    requires Marked(cs, sites, was, now) && SixMarked(now, now', s.at)
    ensures Marked(cs, sites + [s], was, now')
  {
    forall k { TakenAppend(sites, s, k); }
  }

  lemma CompleteStep(cs: seq<seq<int>>, sites: seq<Site>, s: Site, v0: int)
    requires Complete(cs, sites, v0) && 1 <= v0
    ensures s.v0 == v0 ==> Complete(cs, sites + [s], v0 + 1)
    ensures NoMajority(cs, v0) ==> Complete(cs, sites, v0 + 1)
  {
    var more := sites + [s];
    assert more[|sites|] == s;
    forall v | 1 <= v < v0 && !NoMajority(cs, v) ensures exists i :: 0 <= i < |more| && more[i].v0 == v {
      var i :| 0 <= i < |sites| && sites[i].v0 == v;
      assert more[i] == sites[i];
    }
  }

  ghost predicate State(cs: seq<seq<int>>, was: seq<Clause>, sites: seq<Site>, more: seq<Function>,
                        now: seq<Clause>, bound: int) {
    Built(cs, sites, more) && Complete(cs, sites, bound) && Marked(cs, sites, was, now)
  }

  // What was added to the functions built was added to the functions.
  ghost predicate Grows(fs: seq<Function>, more: seq<Function>, fs': seq<Function>, more': seq<Function>) {
    more <= more' && fs' == fs + more'[|more|..]
  }

  lemma GrowsMore(fs: seq<Function>, fs0: seq<Function>, more0: seq<Function>, fs1: seq<Function>, more1: seq<Function>)
    requires fs0 == fs + more0 && Grows(fs0, more0, fs1, more1)
    ensures fs1 == fs + more1
  {
  }

  // The six clauses found become one function.
  method TakeSix(p: array<Clause>, cs: seq<seq<int>>, v0: int, s: Site, fs: seq<Function>,
                 ghost was: seq<Clause>, ghost sites: seq<Site>, ghost more: seq<Function>)
    returns (fs': seq<Function>, ghost sites': seq<Site>, ghost more': seq<Function>)
    requires 1 <= v0 == s.v0 && |cs| <= p.Length && SiteOk(cs, s) && SixInRange(cs, s.at)
    requires State(cs, was, sites, more, p[..|cs|], v0)
    modifies p
    ensures State(cs, was, sites', more', p[..|cs|], v0 + 1)
    ensures Grows(fs, more, fs', more')
  {
    ghost var now := p[..|cs|];
    MarkSix(p, s.at, cs);
    StateFound(cs, was, sites, more, now, p[..|cs|], s);
    var f := MajFunction(s.v0, s.v1, s.v2, s.v3);
    fs' := fs + [f];
    sites', more' := sites + [s], more + [f];
  }

  method SearchAt(p: array<Clause>, cs: seq<seq<int>>, v0: nat, pos: seq<nat>, neg: seq<nat>, fs: seq<Function>,
                  ghost was: seq<Clause>, ghost sites: seq<Site>, ghost more: seq<Function>)
    returns (fs': seq<Function>, ghost sites': seq<Site>, ghost more': seq<Function>)
    requires ThreeInput(cs) && Lists(cs, v0, pos, neg) && 1 <= v0 && |cs| <= p.Length
    requires State(cs, was, sites, more, p[..|cs|], v0)
    modifies p
    ensures State(cs, was, sites', more', p[..|cs|], v0 + 1)
    ensures Grows(fs, more, fs', more')
  {
    fs', sites', more' := fs, sites, more;
    var found, v1, v2, v3, order, at := SearchVariable(cs, v0, pos, neg);
    if found {
      var s := Site(v0, v1, v2, v3, order, at);
      ResultInRange(cs, s);
      fs', sites', more' := TakeSix(p, cs, v0, s, fs, was, sites, more);
    } else {
      StateSkip(cs, was, sites, more, p[..|cs|], v0);
    }
  }

  // One function for every variable that has six clauses, in order; exactly
  // the clauses of these sixes are marked.
  method FindAndBuildMajvEquals(p: array<Clause>, n: nat, fs: seq<Function>, vars: nat)
    returns (fs': seq<Function>, ghost sites: seq<Site>, ghost more: seq<Function>)
    requires n <= p.Length && ThreeInput(Lits(p[..n])) && InRange(Lits(p[..n]), vars)
    modifies p
    ensures fs' == fs + more
    ensures State(old(Lits(p[..n])), old(p[..n]), sites, more, p[..n], vars + 1)
  {
    ghost var was := p[..n];
    var cs := Lits(p[..n]);
    var pos, neg := BuildThreeLists(cs, vars);
    fs', sites, more := fs, [], [];
    // Variable 0 occurs in no clause: its lists are empty.
    for v0 := 1 to vars + 1
      invariant Listed(cs, pos[..], neg[..], vars, |cs|)
      invariant fs' == fs + more && State(cs, was, sites, more, p[..n], v0)
    {
      ListsAt(cs, pos[..], neg[..], vars, v0);
      ghost var fs0, more0 := fs', more;
      fs', sites, more := SearchAt(p, cs, v0, pos[v0], neg[v0], fs', was, sites, more);
      GrowsMore(fs, fs0, more0, fs', more);
    }
  }

  lemma StateFound(cs: seq<seq<int>>, was: seq<Clause>, sites: seq<Site>, more: seq<Function>,
                   now: seq<Clause>, now': seq<Clause>, s: Site)
    requires State(cs, was, sites, more, now, s.v0) && SiteOk(cs, s) && 1 <= s.v0
    requires SixMarked(now, now', s.at)
    ensures State(cs, was, sites + [s], more + [MajFunction(s.v0, s.v1, s.v2, s.v3)], now', s.v0 + 1)
  {
    CompleteStep(cs, sites, s, s.v0);
    MarkedAppend(cs, sites, s, was, now, now');
    BuiltAppend(cs, sites, more, s);
  }

  lemma StateSkip(cs: seq<seq<int>>, was: seq<Clause>, sites: seq<Site>, more: seq<Function>,
                  now: seq<Clause>, v0: int)
    requires State(cs, was, sites, more, now, v0) && NoMajority(cs, v0)
    ensures State(cs, was, sites, more, now, v0 + 1)
  {
  }

  lemma BuiltAppend(cs: seq<seq<int>>, sites: seq<Site>, more: seq<Function>, s: Site)
    requires Built(cs, sites, more) && SiteOk(cs, s)
    ensures Built(cs, sites + [s], more + [MajFunction(s.v0, s.v1, s.v2, s.v3)])
  {
    var f := MajFunction(s.v0, s.v1, s.v2, s.v3);
    forall i | 0 <= i < |sites + [s]| ensures SiteBuilt(cs, sites + [s], more + [f], i) {
      assert i < |sites| ==> SiteBuilt(cs, sites, more, i);
    }
  }

  lemma AllContain(cs: seq<seq<int>>, lit: int)
    ensures forall q :: 0 <= q < |ThreeOf(cs, lit, |cs|)| ==> Contains3(cs, lit, ThreeOf(cs, lit, |cs|)[q])
  {
    forall q | 0 <= q < |ThreeOf(cs, lit, |cs|)| ensures Contains3(cs, lit, ThreeOf(cs, lit, |cs|)[q]) {
      ThreeOfAt(cs, lit, q);
    }
  }

  lemma ListsAt(cs: seq<seq<int>>, pos: seq<seq<nat>>, neg: seq<seq<nat>>, vars: nat, v0: int)
    requires Listed(cs, pos, neg, vars, |cs|) && 1 <= v0 <= vars
    ensures Lists(cs, v0, pos[v0], neg[v0])
  {
    assert ListOf(pos, neg, v0) == ThreeOf(cs, v0, |cs|);
    assert ListOf(pos, neg, -v0) == ThreeOf(cs, -v0, |cs|);
    AllContain(cs, v0);
    AllContain(cs, -v0);
  }

  lemma ResultInRange(cs: seq<seq<int>>, s: Site)
    requires ThreeInput(cs) && Result(cs, s.v0, s.v1, s.v2, s.v3, s.order, s.at)
    ensures SiteOk(cs, s) && SixInRange(cs, s.at)
  {
    SixAreFunction(cs, s.v0, s.v1, s.v2, s.v3, s.order, s.at, iset{});
  }

  // The search keeps the meaning.
  lemma SiteValue(cs: seq<seq<int>>, sites: seq<Site>, more: seq<Function>, i: nat, a: Assignment)
    requires ThreeInput(cs) && Built(cs, sites, more) && i < |sites|
    ensures SixInRange(cs, sites[i].at) && (Eval(more[i].bdd, a) <==> SixHold(cs, sites[i].at, a))
  {
    var s := sites[i];
    assert SiteBuilt(cs, sites, more, i);
    SixAreFunction(cs, s.v0, s.v1, s.v2, s.v3, s.order, s.at, a);
  }

  lemma MajvEqualsSound(fs: seq<Function>, was: seq<Clause>, sites: seq<Site>, more: seq<Function>, now: seq<Clause>)
    requires ThreeInput(Lits(was)) && Droppable(fs, was)
    requires Built(Lits(was), sites, more) && Marked(Lits(was), sites, was, now)
    ensures Searched(fs, was, fs + more, now)
  {
    var cs := Lits(was);
    assert Lits(now) == cs;
    forall k, a: Assignment | 0 <= k < |now| && now[k].subsumed && !was[k].subsumed && Holds(more, a)
      ensures ClauseTrue(was[k].lits, a)
    {
      var i :| 0 <= i < |sites| && AmongSix(sites[i].at, k);
      SiteValue(cs, sites, more, i, a);
    }
    forall a: Assignment | AllTrue(cs, a) ensures Holds(more, a) {
      forall i | 0 <= i < |more| ensures Eval(more[i].bdd, a) {
        SiteValue(cs, sites, more, i, a);
      }
    }
    SearchSound(fs, was, more, now);
  }
}
