// Functions that equate a literal with the conjunction of others: how they are
// recognised (src/utils/bdd.cc), how their literals are found again
// (src/formats/smurf.cc) and the records printed for them (src/formats/bdd2cnf.cc).

module AndClauses {
  import opened Basics
  import opened Bdd
  import opened Clauses
  import opened Cubes
  import opened TruthTable

  // functionType and equalityVble; every other type is Plain.
  datatype Label = Plain | AndLabel(equality: int) | OrLabel(equality: int)

  function Abs(x: int): nat { if x < 0 then -x else x }

  // The value at which the equality variable makes the function a conjunction.
  function Torf(kind: Label): bool
    requires !kind.Plain?
  {
    if kind.AndLabel? then kind.equality > 0 else kind.equality <= 0
  }

  function Signed(v: nat, torf: bool): int { if torf then v as int else -(v as int) }

  // ----- the literals -----

  // One value of u makes t false.
  predicate Forced(t: Bdd, u: nat) {
    SetVariable(t, u, true) == False || SetVariable(t, u, false) == False
  }

  function LiteralFor(t: Bdd, u: nat, v: nat, torf: bool): int {
    if u == v then Signed(v, torf) else if SetVariable(t, u, true) == False then -(u as int) else u
  }

  ghost predicate Literals(ls: seq<int>, t: Bdd, vars: seq<nat>, v: nat, torf: bool) {
    |ls| == |vars| && forall k :: 0 <= k < |vars| ==> ls[k] == LiteralFor(t, vars[k], v, torf)
  }

  ghost predicate AllForced(t: Bdd, vars: seq<nat>, v: nat) {
    forall k :: 0 <= k < |vars| && vars[k] != v ==> Forced(t, vars[k])
  }

  // getANDLiterals; None is one of its exits.
  method GetAndLiterals(f: Bdd, vars: seq<nat>, v: nat, torf: bool) returns (r: Option<seq<int>>)
    ensures r.Some? <==> v in vars && AllForced(SetVariable(f, v, torf), vars, v)
    ensures r.Some? ==> Literals(r.value, SetVariable(f, v, torf), vars, v, torf)
  {
    var trueAnd := SetVariable(f, v, torf);
    var literals: seq<int>, validated := [], false;
    for x := 0 to |vars|
      invariant |literals| == x && (validated <==> v in vars[..x]) && AllForced(trueAnd, vars[..x], v)
      invariant forall k :: 0 <= k < x ==> literals[k] == LiteralFor(trueAnd, vars[k], v, torf)
    {
      if vars[x] == v {
        literals, validated := literals + [Signed(v, torf)], true;
      } else if SetVariable(trueAnd, vars[x], true) == False {
        literals := literals + [-(vars[x] as int)];
      } else if SetVariable(trueAnd, vars[x], false) == False {
        literals := literals + [vars[x]];
      } else {
        return None;
      }
    }
    assert vars[..|vars|] == vars;
    return if validated then Some(literals) else None;
  }

  // getEquiv.
  method GetEquiv(vars: seq<nat>, v: nat) returns (i: nat)
    requires v in vars
    ensures i < |vars| && vars[i] == v
  {
    i := 0;
    while vars[i] != v
      invariant i < |vars| && v !in vars[..i]
      decreases |vars| - i
    {
      assert v in vars[i..];
      i := i + 1;
    }
  }

  // ----- the records -----

  function LongRecord(ls: seq<int>, equiv: nat): (c: Cube)
    ensures |c| == |ls|
  {
    seq(|ls|, k requires 0 <= k < |ls| => if (ls[k] > 0 && k != equiv) || (ls[k] < 0 && k == equiv) then 1 else 0)
  }

  function ShortRecord(ls: seq<int>, equiv: nat, i: nat): (c: Cube)
    ensures |c| == |ls|
  {
    seq(|ls|, j requires 0 <= j < |ls| =>
      if j == i then if ls[j] > 0 then 0 else 1 else if j == equiv then if ls[j] > 0 then 1 else 0 else 2)
  }

  // The long record stays last, the short ones come in front.
  function Records(ls: seq<int>, equiv: nat, n: nat): seq<Cube> {
    if n == 0 then [LongRecord(ls, equiv)]
    else if n - 1 == equiv then Records(ls, equiv, n - 1)
    else [ShortRecord(ls, equiv, n - 1)] + Records(ls, equiv, n - 1)
  }

  method MakeRecords(ls: seq<int>, equiv: nat) returns (reduced0: seq<Cube>)
    ensures reduced0 == Records(ls, equiv, |ls|)
  {
    reduced0 := [LongRecord(ls, equiv)];
    for i := 0 to |ls|
      invariant reduced0 == Records(ls, equiv, i)
    {
      if i != equiv {
        reduced0 := [ShortRecord(ls, equiv, i)] + reduced0;
      }
    }
  }

  // The literals are signs of the variables.
  ghost predicate SignsOf(ls: seq<int>, vars: seq<nat>) {
    |ls| == |vars| && forall k :: 0 <= k < |vars| ==> vars[k] >= 1 && (ls[k] == vars[k] || ls[k] == -(vars[k] as int))
  }

  ghost predicate OthersHold(ls: seq<int>, equiv: nat, a: Assignment) {
    forall k :: 0 <= k < |ls| && k != equiv ==> LitTrue(ls[k], a)
  }

  lemma LongMeaning(ls: seq<int>, vars: seq<nat>, equiv: nat, a: Assignment)
    requires SignsOf(ls, vars) && equiv < |ls|
    ensures ClauseTrue(ClauseOf(vars, LongRecord(ls, equiv)), a) <==> (OthersHold(ls, equiv, a) ==> LitTrue(ls[equiv], a))
  {
    var c, p := LongRecord(ls, equiv), PointIn(vars, a);
    ClauseExcludes(vars, c, a);
    forall k | 0 <= k < |ls| ensures c[k] == p[k] <==> (LitTrue(ls[k], a) <==> k != equiv) {
    }
    if OthersHold(ls, equiv, a) && !LitTrue(ls[equiv], a) {
      assert Covers(c, p);
    }
    if Covers(c, p) {
      assert c[equiv] == p[equiv];
    }
  }

  lemma ShortMeaning(ls: seq<int>, vars: seq<nat>, equiv: nat, i: nat, a: Assignment)
    requires SignsOf(ls, vars) && equiv < |ls| && i < |ls| && i != equiv
    ensures ClauseTrue(ClauseOf(vars, ShortRecord(ls, equiv, i)), a) <==> (LitTrue(ls[equiv], a) ==> LitTrue(ls[i], a))
  {
    var c, p := ShortRecord(ls, equiv, i), PointIn(vars, a);
    ClauseExcludes(vars, c, a);
    assert c[i] == p[i] <==> !LitTrue(ls[i], a);
    assert c[equiv] == p[equiv] <==> LitTrue(ls[equiv], a);
    if LitTrue(ls[equiv], a) && !LitTrue(ls[i], a) {
      assert Covers(c, p);
    }
  }

  ghost predicate RecordsHold(vars: seq<nat>, cs: seq<Cube>, a: Assignment) {
    forall k :: 0 <= k < |cs| ==> |cs[k]| == |vars| && ClauseTrue(ClauseOf(vars, cs[k]), a)
  }

  // What the long record says with the short records before n.
  ghost predicate RecordsSayUpTo(ls: seq<int>, equiv: nat, n: nat, a: Assignment)
    requires equiv < |ls| && n <= |ls|
  {
    && (OthersHold(ls, equiv, a) ==> LitTrue(ls[equiv], a))
    && forall i :: 0 <= i < n && i != equiv ==> LitTrue(ls[equiv], a) ==> LitTrue(ls[i], a)
  }

  lemma {:induction false} RecordsMean(ls: seq<int>, vars: seq<nat>, equiv: nat, n: nat, a: Assignment)
    requires SignsOf(ls, vars) && equiv < |ls| && n <= |ls|
    ensures RecordsHold(vars, Records(ls, equiv, n), a) <==> RecordsSayUpTo(ls, equiv, n, a)
  {
    RecordsUnfold(ls, equiv, n);
    if n == 0 {
      LongAlone(ls, vars, equiv, a);
    } else {
      RecordsMean(ls, vars, equiv, n - 1, a);
      if n - 1 != equiv {
        OneMoreRecord(ls, vars, equiv, n, Records(ls, equiv, n - 1), a);
      }
    }
  }

  lemma RecordsUnfold(ls: seq<int>, equiv: nat, n: nat)
    requires equiv < |ls| && n <= |ls|
    ensures n == 0 ==> Records(ls, equiv, n) == [LongRecord(ls, equiv)]
    ensures n > 0 ==> Records(ls, equiv, n) ==
                      if n - 1 == equiv then Records(ls, equiv, n - 1) else [ShortRecord(ls, equiv, n - 1)] + Records(ls, equiv, n - 1)
  {
  }

  lemma LongAlone(ls: seq<int>, vars: seq<nat>, equiv: nat, a: Assignment)
    requires SignsOf(ls, vars) && equiv < |ls|
    ensures RecordsHold(vars, [LongRecord(ls, equiv)], a) <==> RecordsSayUpTo(ls, equiv, 0, a)
  {
    LongMeaning(ls, vars, equiv, a);
    FirstRecord(vars, [LongRecord(ls, equiv)], a);
  }

  lemma OneMoreRecord(ls: seq<int>, vars: seq<nat>, equiv: nat, n: nat, cs: seq<Cube>, a: Assignment)
    requires SignsOf(ls, vars) && equiv < |ls| && 0 < n <= |ls| && n - 1 != equiv
    requires RecordsHold(vars, cs, a) <==> RecordsSayUpTo(ls, equiv, n - 1, a)
    ensures RecordsHold(vars, [ShortRecord(ls, equiv, n - 1)] + cs, a) <==> RecordsSayUpTo(ls, equiv, n, a)
  {
    var c := ShortRecord(ls, equiv, n - 1);
    ShortMeaning(ls, vars, equiv, n - 1, a);
    FirstRecord(vars, [c] + cs, a);
    assert ([c] + cs)[1..] == cs;
  }

  lemma {:induction false} RecordsAreCubes(ls: seq<int>, equiv: nat, n: nat)
    requires equiv < |ls| && n <= |ls|
    ensures forall k :: 0 <= k < |Records(ls, equiv, n)| ==> IsCube(Records(ls, equiv, n)[k], |ls|)
  {
    RecordsUnfold(ls, equiv, n);
    if n > 0 {
      RecordsAreCubes(ls, equiv, n - 1);
    }
  }

  lemma FirstRecord(vars: seq<nat>, cs: seq<Cube>, a: Assignment)
    requires cs != [] && |cs[0]| == |vars|
    ensures RecordsHold(vars, cs, a) <==> ClauseTrue(ClauseOf(vars, cs[0]), a) && RecordsHold(vars, cs[1..], a)
  {
    if ClauseTrue(ClauseOf(vars, cs[0]), a) && RecordsHold(vars, cs[1..], a) {
      forall k | 0 <= k < |cs| ensures |cs[k]| == |vars| && ClauseTrue(ClauseOf(vars, cs[k]), a) {
        assert k > 0 ==> cs[k] == cs[1..][k - 1];
      }
    }
    if RecordsHold(vars, cs, a) {
      forall k | 0 <= k < |cs[1..]| ensures |cs[1..][k]| == |vars| && ClauseTrue(ClauseOf(vars, cs[1..][k]), a) {
        assert cs[1..][k] == cs[k + 1];
      }
    }
  }

  // ----- what the records of a function say -----

  // The equality literal is the conjunction of the others.
  ghost predicate Says(f: Bdd, v: nat, torf: bool, a: Assignment) {
    var t := SetVariable(f, v, torf);
    LitTrue(Signed(v, torf), a) <==> forall u :: u in Support(f) && u != v ==> LitTrue(LiteralFor(t, u, v, torf), a)
  }

  lemma RecordsSay(f: Bdd, ls: seq<int>, v: nat, torf: bool, equiv: nat, a: Assignment)
    requires Robdd(f) && Literals(ls, SetVariable(f, v, torf), Vars(f), v, torf) && equiv < |Vars(f)| && Vars(f)[equiv] == v
    ensures forall k :: 0 <= k < |Records(ls, equiv, |ls|)| ==> IsCube(Records(ls, equiv, |ls|)[k], |Vars(f)|)
    ensures RecordsHold(Vars(f), Records(ls, equiv, |ls|), a) <==> Says(f, v, torf, a)
  {
    var vars, t := Vars(f), SetVariable(f, v, torf);
    VarsSupport(f);
    SupportBelowTop(f);
    forall k | 0 <= k < |vars| ensures vars[k] >= 1 {
      assert vars[k] in vars;
    }
    RecordsMean(ls, vars, equiv, |ls|, a);
    RecordsAreCubes(ls, equiv, |ls|);
    assert OthersHold(ls, equiv, a) <==> forall u :: u in Support(f) && u != v ==> LitTrue(LiteralFor(t, u, v, torf), a) by {
      OthersAre(ls, t, vars, v, torf, equiv, Support(f), a);
    }
  }

  lemma OthersAre(ls: seq<int>, t: Bdd, vars: seq<nat>, v: nat, torf: bool, equiv: nat, support: set<nat>, a: Assignment)
    requires Literals(ls, t, vars, v, torf) && Ascending(vars) && equiv < |vars| && vars[equiv] == v
    requires forall u :: u in vars <==> u in support
    requires forall k :: 0 <= k < |vars| ==> vars[k] >= 1
    ensures forall u :: u in support ==> u >= 1
    ensures OthersHold(ls, equiv, a) <==> forall u :: u in support && u != v ==> LitTrue(LiteralFor(t, u, v, torf), a)
  {
    if OthersHold(ls, equiv, a) {
      forall u | u in support && u != v ensures LitTrue(LiteralFor(t, u, v, torf), a) {
        var k: nat :| k < |vars| && vars[k] == u;
        assert LitTrue(ls[k], a);
      }
    }
    if forall u :: u in support && u != v ==> LitTrue(LiteralFor(t, u, v, torf), a) {
      forall k | 0 <= k < |ls| && k != equiv ensures LitTrue(ls[k], a) {
        assert vars[k] in support && vars[k] != v;
      }
    }
  }

  // ----- when that is the function -----

  // The function is a conjunction where the equality literal holds, and its negation elsewhere.
  ghost predicate Labelled(f: Bdd, v: nat, torf: bool) {
    SetVariable(f, v, torf) != False && SetVariable(f, v, !torf) == Not(SetVariable(f, v, torf))
  }

  ghost predicate OthersForced(f: Bdd, v: nat, torf: bool) {
    forall u :: u in Support(f) && u != v ==> Forced(SetVariable(f, v, torf), u)
  }

  ghost predicate OthersTrue(f: Bdd, v: nat, torf: bool, a: Assignment) {
    forall u :: u in Support(f) && u != v ==> LitTrue(LiteralFor(SetVariable(f, v, torf), u, v, torf), a)
  }

  lemma WithItself(a: Assignment, v: nat)
    ensures WithVariable(a, v, v in a) == a
  {
  }

  // All others forced: the restriction holds at most where their literals do.
  lemma ForcedImplies(f: Bdd, v: nat, torf: bool, a: Assignment)
    requires Robdd(f) && OthersForced(f, v, torf)
    ensures Eval(SetVariable(f, v, torf), a) ==> OthersTrue(f, v, torf, a)
  {
    var t := SetVariable(f, v, torf);
    SetVariableRobdd(f, v, torf);
    SupportBelowTop(f);
    if Eval(t, a) {
      forall u | u in Support(f) && u != v ensures LitTrue(LiteralFor(t, u, v, torf), a) {
        SetVariableEval(t, u, u in a, a);
        WithItself(a, u);
      }
    }
  }

  lemma ForcedMeaning(f: Bdd, v: nat, torf: bool, a: Assignment)
    requires Robdd(f) && OthersForced(f, v, torf)
    requires SetVariable(f, v, torf) != False
    ensures Eval(SetVariable(f, v, torf), a) <==> OthersTrue(f, v, torf, a)
  {
    var t := SetVariable(f, v, torf);
    SetVariableRobdd(f, v, torf);
    SupportBelowTop(f);
    ForcedImplies(f, v, torf, a);
    if OthersTrue(f, v, torf, a) {
      Canonicity(t, False);
      var b: Assignment :| Eval(t, b);
      ForcedImplies(f, v, torf, b);
      forall u | u in Support(t) ensures u in a <==> u in b {
        assert u in Support(f) && u != v;
        assert LitTrue(LiteralFor(t, u, v, torf), a) && LitTrue(LiteralFor(t, u, v, torf), b);
      }
      EvalSupport(t, a, b);
    }
  }

  // The function at a, by the value of v.
  lemma AtVariable(f: Bdd, v: nat, torf: bool, a: Assignment)
    requires Robdd(f) && v >= 1
    ensures Eval(f, a) == if LitTrue(Signed(v, torf), a) then Eval(SetVariable(f, v, torf), a) else Eval(SetVariable(f, v, !torf), a)
  {
    SetVariableEval(f, v, v in a, a);
    WithItself(a, v);
  }

  lemma LabelledSays(f: Bdd, v: nat, torf: bool, a: Assignment)
    requires Robdd(f) && v in Support(f) && OthersForced(f, v, torf)
    requires Labelled(f, v, torf)
    ensures Eval(f, a) <==> Says(f, v, torf, a)
  {
    SupportBelowTop(f);
    AtVariable(f, v, torf, a);
    ForcedMeaning(f, v, torf, a);
    OperatorsEval(SetVariable(f, v, torf), True, a);
  }

  // Some assignment makes the equality literal and all others true.
  lemma SomeTrue(f: Bdd, v: nat, torf: bool) returns (a: Assignment)
    requires Robdd(f) && v in Support(f)
    ensures LitTrue(Signed(v, torf), a) && OthersTrue(f, v, torf, a)
  {
    var t := SetVariable(f, v, torf);
    a := iset u: nat | u in Support(f) && LiteralFor(t, u, v, torf) > 0;
    SupportBelowTop(f);
    assert v in a <==> LiteralFor(t, v, v, torf) > 0;
  }

  // The others do not see the equality variable.
  lemma OthersApart(f: Bdd, v: nat, torf: bool, a: Assignment, b: bool)
    requires Robdd(f)
    ensures OthersTrue(f, v, torf, a) <==> OthersTrue(f, v, torf, WithVariable(a, v, b))
  {
    var t := SetVariable(f, v, torf);
    SupportBelowTop(f);
    forall u | u in Support(f) && u != v
      ensures LitTrue(LiteralFor(t, u, v, torf), a) <==> LitTrue(LiteralFor(t, u, v, torf), WithVariable(a, v, b))
    {
      assert u in a <==> u in WithVariable(a, v, b);
    }
  }

  // The records are the function exactly when it is labelled rightly.
  lemma SaysExactly(f: Bdd, v: nat, torf: bool)
    requires Robdd(f) && v in Support(f) && OthersForced(f, v, torf)
    ensures (forall a: Assignment :: Eval(f, a) <==> Says(f, v, torf, a)) <==> Labelled(f, v, torf)
  {
    var t, t' := SetVariable(f, v, torf), SetVariable(f, v, !torf);
    SupportBelowTop(f);
    SetVariableRobdd(f, v, torf);
    SetVariableRobdd(f, v, !torf);
    if Labelled(f, v, torf) {
      forall a: Assignment ensures Eval(f, a) <==> Says(f, v, torf, a) {
        LabelledSays(f, v, torf, a);
      }
    }
    if forall a: Assignment :: Eval(f, a) <==> Says(f, v, torf, a) {
      var b := SomeTrue(f, v, torf);
      assert Says(f, v, torf, b);
      AtVariable(f, v, torf, b);
      assert Eval(t, b);
      assert t != False;
      forall a: Assignment ensures Eval(t', a) == Eval(Not(t), a) {
        Opposite(f, v, torf, a);
      }
      IteRobdd(t, False, True);
      Canonicity(t', Not(t));
    }
  }

  lemma Opposite(f: Bdd, v: nat, torf: bool, a: Assignment)
    requires Robdd(f) && v in Support(f) && OthersForced(f, v, torf)
    requires SetVariable(f, v, torf) != False
    requires var c := WithVariable(a, v, !torf); Eval(f, c) <==> Says(f, v, torf, c)
    ensures Eval(SetVariable(f, v, !torf), a) == Eval(Not(SetVariable(f, v, torf)), a)
  {
    var c := WithVariable(a, v, !torf);
    SupportBelowTop(f);
    SetVariableEval(f, v, !torf, a);
    OthersApart(f, v, torf, a, !torf);
    ForcedMeaning(f, v, torf, a);
    OperatorsEval(SetVariable(f, v, torf), True, a);
    assert !LitTrue(Signed(v, torf), c);
  }

  // ----- recognising such functions -----

  // One value of u makes f the constant c.
  ghost predicate ForcedTo(f: Bdd, u: nat, c: Bdd) {
    SetVariable(f, u, true) == c || SetVariable(f, u, false) == c
  }

  ghost predicate AllForcedTo(f: Bdd, c: Bdd) {
    forall u {:trigger ForcedTo(f, u, c)} :: u in Support(f) ==> ForcedTo(f, u, c)
  }

  // A conjunction of at least two literals: every variable decides alone.
  ghost predicate Conjunction(f: Bdd) {
    f != False && |Support(f)| >= 2 && AllForcedTo(f, False)
  }

  ghost predicate Disjunction(f: Bdd) {
    f != True && |Support(f)| >= 2 && AllForcedTo(f, True)
  }

  lemma ChainForced(f: Bdd, next: Bdd, c: Bdd, u: nat, b: bool)
    requires f.Node? && u < f.v && !c.Node? && ((f.hi == c && next == f.lo) || (f.lo == c && next == f.hi))
    ensures SetVariable(f, u, b) == c <==> SetVariable(next, u, b) == c
  {
  }

  // A node with the constant on one side.
  lemma ChainStep(f: Bdd, next: Bdd, c: Bdd)
    requires Robdd(f) && f.Node? && !c.Node? && ((f.hi == c && next == f.lo) || (f.lo == c && next == f.hi))
    ensures Robdd(next) && next != c && |Support(f)| == 1 + |Support(next)|
    ensures AllForcedTo(f, c) <==> AllForcedTo(next, c)
  {
    SupportBelowTop(next);
    assert Support(f) == {f.v} + Support(next) && f.v !in Support(next);
    if AllForcedTo(f, c) {
      forall u | u in Support(next) ensures ForcedTo(next, u, c) {
        assert ForcedTo(f, u, c);
        ChainForced(f, next, c, u, true);
        ChainForced(f, next, c, u, false);
      }
    }
    if AllForcedTo(next, c) {
      forall u | u in Support(f) ensures ForcedTo(f, u, c) {
        if u != f.v {
          assert ForcedTo(next, u, c);
          ChainForced(f, next, c, u, true);
          ChainForced(f, next, c, u, false);
        }
      }
    }
  }

  lemma ChainBreaks(f: Bdd, c: Bdd)
    requires f.Node? && f.hi != c && f.lo != c
    ensures !AllForcedTo(f, c)
  {
    assert f.v in Support(f) && !ForcedTo(f, f.v, c);
  }

  // isAND.
  method IsAnd(f: Bdd) returns (r: bool)
    requires Robdd(f)
    ensures r <==> Conjunction(f)
  {
    if f == True || f == False {
      return false;
    }
    var bdd, size := f, 0;
    while bdd != True
      invariant Robdd(bdd) && bdd != False && |Support(f)| == size + |Support(bdd)|
      invariant AllForcedTo(f, False) <==> AllForcedTo(bdd, False)
      decreases bdd
    {
      if bdd.hi == False {
        ChainStep(bdd, bdd.lo, False);
        bdd := bdd.lo;
      } else if bdd.lo == False {
        ChainStep(bdd, bdd.hi, False);
        bdd := bdd.hi;
      } else {
        ChainBreaks(bdd, False);
        return false;
      }
      size := size + 1;
    }
    r := size > 1;
  }

  // isOR.
  method IsOr(f: Bdd) returns (r: bool)
    requires Robdd(f)
    ensures r <==> Disjunction(f)
  {
    if f == True || f == False {
      return false;
    }
    var bdd, size := f, 0;
    while bdd != False
      invariant Robdd(bdd) && bdd != True && |Support(f)| == size + |Support(bdd)|
      invariant AllForcedTo(f, True) <==> AllForcedTo(bdd, True)
      decreases bdd
    {
      if bdd.hi == True {
        ChainStep(bdd, bdd.lo, True);
        bdd := bdd.lo;
      } else if bdd.lo == True {
        ChainStep(bdd, bdd.hi, True);
        bdd := bdd.hi;
      } else {
        ChainBreaks(bdd, True);
        return false;
      }
      size := size + 1;
    }
    r := size > 1;
  }

  ghost predicate EquatesAnd(f: Bdd, v: nat) {
    && v >= 1 && Conjunction(SetVariable(f, v, true)) && Disjunction(SetVariable(f, v, false))
    && f == Equ(Var(v), SetVariable(f, v, true))
  }

  ghost predicate EquatesOr(f: Bdd, v: nat) {
    && v >= 1 && Disjunction(SetVariable(f, v, true)) && Conjunction(SetVariable(f, v, false))
    && f == Equ(Var(v), SetVariable(f, v, true))
  }

  // The two tests of one variable.
  method TestVariable(f: Bdd, v: nat) returns (r: int)
    requires Robdd(f) && v >= 1
    ensures r == if EquatesAnd(f, v) then v as int else if EquatesOr(f, v) then -(v as int) else 0
  {
    var tEqu, fEqu := SetVariable(f, v, true), SetVariable(f, v, false);
    SetVariableRobdd(f, v, true);
    SetVariableRobdd(f, v, false);
    var tAnd := IsAnd(tEqu);
    var fOr := IsOr(fEqu);
    if tAnd && fOr && f == Equ(Var(v), tEqu) {
      return v;
    }
    var tOr := IsOr(tEqu);
    var fAnd := IsAnd(fEqu);
    r := if tOr && fAnd && f == Equ(Var(v), tEqu) then -(v as int) else 0;
  }

  // isAND_EQU: a variable for AND=, a negated one for OR=, 0 for neither.
  method IsAndEqu(f: Bdd, vars: seq<nat>) returns (r: int)
    requires Robdd(f) && forall k :: 0 <= k < |vars| ==> vars[k] >= 1
    ensures r > 0 ==> r in vars && EquatesAnd(f, r)
    ensures r < 0 ==> -r in vars && EquatesOr(f, -r)
    ensures r == 0 ==> forall k :: 0 <= k < |vars| ==> !EquatesAnd(f, vars[k]) && !EquatesOr(f, vars[k])
  {
    r := 0;
    for x := 0 to |vars|
      invariant r == 0 && forall k :: 0 <= k < x ==> !EquatesAnd(f, vars[k]) && !EquatesOr(f, vars[k])
    {
      r := TestVariable(f, vars[x]);
      if r != 0 {
        return;
      }
    }
  }

  // findandset_fnType, for these two kinds.
  function LabelFor(r: int): Label {
    if r > 0 then AndLabel(r) else if r < 0 then OrLabel(-r) else Plain
  }

  lemma EquSupport(v: nat, t: Bdd)
    requires v >= 1 && Robdd(t)
    ensures Support(Equ(Var(v), t)) <= {v} + Support(t)
  {
    IteRobdd(t, False, True);
    IteRobdd(Var(v), Not(t), t);
    IteRobdd(Xor(Var(v), t), False, True);
  }

  // The other half of an equation is the negation of this one.
  lemma EquHalves(f: Bdd, v: nat)
    requires Robdd(f) && v >= 1 && f == Equ(Var(v), SetVariable(f, v, true))
    ensures SetVariable(f, v, false) == Not(SetVariable(f, v, true))
  {
    var t, e := SetVariable(f, v, true), SetVariable(f, v, false);
    SetVariableRobdd(f, v, true);
    SetVariableRobdd(f, v, false);
    IteRobdd(t, False, True);
    forall a: Assignment ensures Eval(e, a) == Eval(Not(t), a) {
      var b := a - iset{v};
      SetVariableEval(f, v, false, a);
      OperatorsEval(Var(v), t, b);
      OperatorsEval(t, True, a);
      EvalSupport(t, a, b);
    }
    Canonicity(e, Not(t));
  }

  lemma NotNot(t: Bdd)
    requires Robdd(t)
    ensures Not(Not(t)) == t && Support(t) <= Support(Not(t))
  {
    IteRobdd(t, False, True);
    IteRobdd(Not(t), False, True);
    forall a: Assignment ensures Eval(Not(Not(t)), a) == Eval(t, a) {
      OperatorsEval(t, True, a);
      OperatorsEval(Not(t), True, a);
    }
    Canonicity(Not(Not(t)), t);
  }

  lemma RecognisedAnd(f: Bdd, v: nat)
    requires Robdd(f) && EquatesAnd(f, v)
    ensures Labelled(f, v, true) && OthersForced(f, v, true)
  {
    var t := SetVariable(f, v, true);
    SetVariableRobdd(f, v, true);
    EquHalves(f, v);
    EquSupport(v, t);
    forall u | u in Support(f) && u != v ensures Forced(t, u) {
      assert ForcedTo(t, u, False);
    }
  }

  lemma RecognisedOr(f: Bdd, v: nat)
    requires Robdd(f) && EquatesOr(f, v)
    ensures Labelled(f, v, false) && OthersForced(f, v, false)
  {
    var t, e := SetVariable(f, v, true), SetVariable(f, v, false);
    SetVariableRobdd(f, v, true);
    EquHalves(f, v);
    EquSupport(v, t);
    NotNot(t);
    forall u | u in Support(f) && u != v ensures Forced(e, u) {
      assert ForcedTo(e, u, False);
    }
  }

  // What is recognised is labelled rightly, and its literals are found.
  lemma RecognisedRight(f: Bdd, vars: seq<nat>, r: int)
    requires Robdd(f) && (r > 0 ==> EquatesAnd(f, r)) && (r < 0 ==> EquatesOr(f, -r)) && r != 0
    ensures var kind := LabelFor(r);
            Abs(kind.equality) == Abs(r) && Labelled(f, Abs(r), Torf(kind)) && OthersForced(f, Abs(r), Torf(kind))
  {
    if r > 0 {
      RecognisedAnd(f, r);
    } else {
      RecognisedOr(f, -r);
    }
  }
}
