// aiger_reencode (src/formats/aiger.c), from the check whether anything is to be
// done to the types of the renumbered variables.

module ReencodeAig {
  import opened AigGraph
  import opened Arithmetic
  import opened AigModel
  import opened AigSemantics
  import opened ReencodeWalk
  import opened Reencode
  import opened AndList
  import opened Renumbering

  // What the walks leave: every leaf coded first, then the gates of the cone.
  ghost predicate Walked(n: Aig, types: seq<Type>, g: Graph, code: seq<nat>, order: seq<nat>, rank: map<nat, nat>) {
    && TypesMatch(n, types) && AllDefined(n, types) && g == Gates(n, types)
    && Numbered(g, code, order, rank, |order| + 1) && Ranked(g, rank)
    && LeafVars(n) <= order
    && (forall k: nat :: |LeafVars(n)| <= k < |order| ==> IsGate(g, order[k]))
    && forall v: nat :: v <= n.maxvar && (types[v].input || types[v].latch) ==> code[Var2Lit(v)] != 0
  }

  lemma AndsInCode(n: Aig, types: seq<Type>, code: seq<nat>)
    requires TypesMatch(n, types) && AllDefined(n, types) && |code| == 2 * (n.maxvar + 1)
    ensures InCode(code, n.ands)
  {
    forall i | 0 <= i < |n.ands| ensures n.ands[i].lhs < |code| && n.ands[i].rhs0 < |code| && n.ands[i].rhs1 < |code| {
      assert AndMatch(n, types, i);
    }
  }

  lemma EvenLit(lit: nat)
    requires lit % 2 == 0
    ensures lit == Var2Lit(Lit2Var(lit))
  {
  }

  // Where a coded variable stands in the order.
  lemma PlaceOf(code: seq<nat>, order: seq<nat>, maxvar: nat, v: nat) returns (k: nat)
    requires Codes(code, order, maxvar) && 1 <= v <= maxvar && code[Var2Lit(v)] != 0
    ensures k < |order| && order[k] == v && code[Var2Lit(v)] == 2 * (k + 1)
  {
    assert CodedRight(code, order, v);
    k := code[Var2Lit(v)] / 2 - 1;
    assert code[Var2Lit(order[k])] == 2 * (k + 1);
  }

  lemma PrefixAt(s: seq<nat>, t: seq<nat>, k: nat)
    requires s <= t && k < |s|
    ensures t[k] == s[k]
  {
  }

  lemma AfterLeaves(n: Aig, types: seq<Type>, order: seq<nat>, k: nat)
    requires TypesMatch(n, types) && LeafVars(n) <= order && k < |order|
    requires 1 <= order[k] <= n.maxvar && types[order[k]].and
    ensures |LeafVars(n)| <= k
  {
    LeafVarsDistinct(n, types);
    assert TypeMatch(n, types[order[k]], order[k]);
    if k < |LeafVars(n)| {
      PrefixAt(LeafVars(n), order, k);
    }
  }

  // A coded AND has the code of its place in the order, after the leaves.
  lemma CodedAnd(n: Aig, types: seq<Type>, g: Graph, code: seq<nat>, order: seq<nat>, rank: map<nat, nat>, j: nat) returns (k: nat)
    requires Walked(n, types, g, code, order, rank) && j < |n.ands|
    requires n.ands[j].lhs < |code| && code[n.ands[j].lhs] != 0
    ensures |LeafVars(n)| <= k < |order| && order[k] == Lit2Var(n.ands[j].lhs)
    ensures code[n.ands[j].lhs] == 2 * (k + 1)
    ensures types[order[k]].and && types[order[k]].idx == j
  {
    assert AndMatch(n, types, j);
    var v := Lit2Var(n.ands[j].lhs);
    EvenLit(n.ands[j].lhs);
    k := PlaceOf(code, order, n.maxvar, v);
    AfterLeaves(n, types, order, k);
  }

  // And the gate at a place of the order is such an AND.
  lemma AndOfOrder(n: Aig, types: seq<Type>, g: Graph, code: seq<nat>, order: seq<nat>, rank: map<nat, nat>, k: nat)
    requires Walked(n, types, g, code, order, rank) && |LeafVars(n)| <= k < |order|
    ensures order[k] < |types| && types[order[k]].and && types[order[k]].idx < |n.ands|
    ensures n.ands[types[order[k]].idx].lhs == Var2Lit(order[k])
    ensures Var2Lit(order[k]) < |code| && code[Var2Lit(order[k])] == 2 * (k + 1)
    ensures order[k] in rank && rank[order[k]] == k + 1
  {
    assert IsGate(g, order[k]);
    assert TypeMatch(n, types[order[k]], order[k]);
  }

  lemma AndCodesDiffer(n: Aig, types: seq<Type>, g: Graph, code: seq<nat>, order: seq<nat>, rank: map<nat, nat>)
    requires Walked(n, types, g, code, order, rank) && InCode(code, n.ands)
    ensures CodesDiffer(code, n.ands)
  {
    forall i: nat, j: nat | i < j < |n.ands| && code[n.ands[i].lhs] != 0 ensures code[n.ands[i].lhs] != code[n.ands[j].lhs] {
      if code[n.ands[j].lhs] != 0 {
        var k := CodedAnd(n, types, g, code, order, rank, i);
        var l := CodedAnd(n, types, g, code, order, rank, j);
        assert k != l;
      }
    }
  }

  lemma PlaceWithin(k: nat, from: nat, to: nat)
    requires from <= k < to
    ensures Within(2 * (k + 1), 2 * (from + 1), to - from)
  {
    assert 2 * (k + 1) == Step(2 * (from + 1), k - from);
  }

  lemma KeptPlace(n: Aig, types: seq<Type>, g: Graph, code: seq<nat>, order: seq<nat>, rank: map<nat, nat>, x: And) returns (k: nat)
    requires Walked(n, types, g, code, order, rank) && InCode(code, n.ands) && x in KeepCoded(code, n.ands)
    ensures |LeafVars(n)| <= k < |order| && x.lhs == 2 * (k + 1)
  {
    var j := KeepCodedFrom(code, n.ands, x);
    k := CodedAnd(n, types, g, code, order, rank, j);
  }

  // The kept ANDs, sorted, have consecutive left-hand sides.
  lemma SortedAnds(n: Aig, types: seq<Type>, g: Graph, code: seq<nat>, order: seq<nat>, rank: map<nat, nat>)
    requires Walked(n, types, g, code, order, rank) && InCode(code, n.ands)
    ensures var s := SortLhs(KeepCoded(code, n.ands));
            |s| == |order| - |LeafVars(n)| && forall i: nat :: i < |s| ==> s[i].lhs == Step(2 * (|LeafVars(n)| + 1), i)
    ensures forall x :: x in SortLhs(KeepCoded(code, n.ands)) ==> x in KeepCoded(code, n.ands)
  {
    var kept := KeepCoded(code, n.ands);
    var s, base, m := SortLhs(kept), 2 * (|LeafVars(n)| + 1), |order| - |LeafVars(n)|;
    AndCodesDiffer(n, types, g, code, order, rank);
    KeepCodedDistinct(code, n.ands);
    SortLhsSorts(kept);
    forall i | 0 <= i < |s| ensures Within(s[i].lhs, base, m) {
      assert s[i] in kept;
      var k := KeptPlace(n, types, g, code, order, rank, s[i]);
      PlaceWithin(k, |LeafVars(n)|, |order|);
    }
    forall i: nat | i < m ensures Occurs(s, Step(base, i)) {
      var k := |LeafVars(n)| + i;
      AndOfOrder(n, types, g, code, order, rank, k);
      KeepCodedHas(code, n.ands, types[order[k]].idx);
      var y := Recode(code, n.ands[types[order[k]].idx]);
      assert y in s && y.lhs == Step(base, i);
      var j :| 0 <= j < |s| && s[j] == y;
    }
    Consecutive(s, base, m);
  }

  // Each right-hand side of a numbered AND is coded below it.
  lemma ChildCoded(n: Aig, types: seq<Type>, g: Graph, code: seq<nat>, order: seq<nat>, rank: map<nat, nat>, k: nat, rhs: nat)
    requires Walked(n, types, g, code, order, rank) && |LeafVars(n)| <= k < |order|
    requires IsChild(g, order[k], Lit2Var(rhs)) && Defined(types, n.maxvar, rhs)
    ensures CodedLit(code, rhs) && Lit2Var(code[rhs]) <= k
  {
    AndOfOrder(n, types, g, code, order, rank, k);
    assert RankedAt(g, rank, order[k]);
    var v := Lit2Var(rhs);
    assert v != 0 && types[v].and ==> IsGate(g, v);
    assert CodedLit(code, rhs);
    var p := LitCode(code, order, n.maxvar, rhs);
  }

  // Which AND has a given code.
  lemma KeptAt(n: Aig, types: seq<Type>, g: Graph, code: seq<nat>, order: seq<nat>, rank: map<nat, nat>, x: And, k: nat) returns (j: nat)
    requires Walked(n, types, g, code, order, rank) && InCode(code, n.ands) && x in KeepCoded(code, n.ands)
    requires x.lhs == 2 * (k + 1) && k < |order|
    ensures j < |n.ands| && types[order[k]].and && types[order[k]].idx == j && x == Recode(code, n.ands[j])
    ensures |LeafVars(n)| <= k
  {
    j := KeepCodedFrom(code, n.ands, x);
    var l := CodedAnd(n, types, g, code, order, rank, j);
    assert l == k;
  }

  lemma ChildrenOfOrder(n: Aig, types: seq<Type>, g: Graph, code: seq<nat>, order: seq<nat>, rank: map<nat, nat>, k: nat)
    requires Walked(n, types, g, code, order, rank) && |LeafVars(n)| <= k < |order|
    requires types[order[k]].and && types[order[k]].idx < |n.ands|
    ensures var was := n.ands[types[order[k]].idx];
            CodedLit(code, was.rhs0) && CodedLit(code, was.rhs1) && Lit2Var(code[was.rhs0]) <= k && Lit2Var(code[was.rhs1]) <= k
  {
    var was := n.ands[types[order[k]].idx];
    assert IsGate(g, order[k]) && g[order[k]] == GateOf(types, n.ands, order[k]);
    assert Defined(types, n.maxvar, was.rhs0) && Defined(types, n.maxvar, was.rhs1);
    ChildCoded(n, types, g, code, order, rank, k, was.rhs0);
    ChildCoded(n, types, g, code, order, rank, k, was.rhs1);
  }

  lemma AndsRenumbered(n: Aig, types: seq<Type>, g: Graph, code: seq<nat>, order: seq<nat>, rank: map<nat, nat>, n': Aig, i: nat, k: nat)
    requires Walked(n, types, g, code, order, rank) && InCode(code, n.ands)
    requires n'.ands == SortLhs(KeepCoded(code, n.ands))
    requires i < |n'.ands| && k == |LeafVars(n)| + i < |order|
    ensures AndRenumbered(n, types, n', code, order, i, k)
    ensures n'.ands[i].lhs >= n'.ands[i].rhs0 >= n'.ands[i].rhs1
  {
    SortedAnds(n, types, g, code, order, rank);
    var and := n'.ands[i];
    assert and in n'.ands && and.lhs == Step(2 * (|LeafVars(n)| + 1), i);
    var j := KeptAt(n, types, g, code, order, rank, and, k);
    ChildrenOfOrder(n, types, g, code, order, rank, k);
    RecodeBelow(code, n.ands[j], k);
  }

  lemma RecodeBelow(code: seq<nat>, was: And, k: nat)
    requires was.lhs < |code| && CodedLit(code, was.rhs0) && CodedLit(code, was.rhs1)
    requires Lit2Var(code[was.rhs0]) <= k && Lit2Var(code[was.rhs1]) <= k && code[was.lhs] == 2 * (k + 1)
    ensures var and := Recode(code, was);
            Lit2Var(and.rhs0) <= k && Lit2Var(and.rhs1) <= k && and.lhs == Var2Lit(k + 1) && and.lhs >= and.rhs0 >= and.rhs1
  {
  }

  lemma InputCode(n: Aig, types: seq<Type>, g: Graph, code: seq<nat>, order: seq<nat>, rank: map<nat, nat>, k: nat)
    requires Walked(n, types, g, code, order, rank) && k < |LeafVars(n)|
    ensures k < |n.inputs| ==> n.inputs[k] < |code| && code[n.inputs[k]] == Var2Lit(k + 1)
    ensures k >= |n.inputs| ==> n.latches[k - |n.inputs|].lit < |code| && code[n.latches[k - |n.inputs|].lit] == Var2Lit(k + 1)
  {
    PrefixAt(LeafVars(n), order, k);
    assert LeafVars(n)[k] == LeafVar(n, k);
    assert 1 <= order[k] <= n.maxvar && code[Var2Lit(order[k])] == 2 * (k + 1);
    if k < |n.inputs| {
      assert InputMatch(n, types, k);
      EvenLit(n.inputs[k]);
    } else {
      assert LatchMatch(n, types, k - |n.inputs|);
      EvenLit(n.latches[k - |n.inputs|].lit);
    }
  }

  // ----- the types of the new variables -----

  function Clear(t: Type): Type { t.(input := false, latch := false, and := false, idx := 0) }

  method ClearTypes(a: Aiger)
    requires a.maxvar < |a.types|
    modifies a`types
    ensures |a.types| == |old(a.types)|
    ensures forall v :: 0 <= v < |a.types| ==>
              a.types[v] == if 1 <= v <= a.maxvar then Clear(old(a.types)[v]) else old(a.types)[v]
  {
    var i := 1;
    while i <= a.maxvar
      invariant 1 <= i <= a.maxvar + 1 && |a.types| == |old(a.types)|
      invariant forall v :: 0 <= v < |a.types| ==>
                  a.types[v] == if 1 <= v < i then Clear(old(a.types)[v]) else old(a.types)[v]
    {
      a.types := a.types[i := a.types[i].(input := false, latch := false, and := false, idx := 0)];
      i := i + 1;
    }
  }

  method TypeAnds(a: Aiger, ghost base: nat)
    requires base + |a.ands| < |a.types| && forall i: nat :: i < |a.ands| ==> a.ands[i].lhs == Var2Lit(base + i + 1)
    modifies a`types
    ensures |a.types| == |old(a.types)|
    ensures forall v: nat :: v < |a.types| ==>
              a.types[v] == if base < v <= base + |a.ands| then old(a.types)[v].(and := true, idx := v - base - 1) else old(a.types)[v]
  {
    var i: nat := 0;
    while i < |a.ands|
      invariant 0 <= i <= |a.ands| && |a.types| == |old(a.types)|
      invariant forall v: nat :: v < |a.types| ==>
                  a.types[v] == if base < v <= base + i then old(a.types)[v].(and := true, idx := v - base - 1) else old(a.types)[v]
    {
      var v := Lit2Var(a.ands[i].lhs);
      assert v == base + i + 1;
      a.types := a.types[v := a.types[v].(and := true, idx := i)];
      i := i + 1;
    }
  }

  method TypeInputs(a: Aiger, code: array<nat>)
    requires |a.inputs| < |a.types|
    requires forall i: nat :: i < |a.inputs| ==> a.inputs[i] < code.Length && code[a.inputs[i]] == Var2Lit(i + 1)
    modifies a`types, a`inputs
    ensures |a.inputs| == |old(a.inputs)| && forall i: nat :: i < |a.inputs| ==> a.inputs[i] == Var2Lit(i + 1)
    ensures |a.types| == |old(a.types)|
    ensures forall v: nat :: v < |a.types| ==>
              a.types[v] == if 0 < v <= |a.inputs| then old(a.types)[v].(input := true, idx := v - 1) else old(a.types)[v]
  {
    var i: nat := 0;
    while i < |a.inputs|
      invariant 0 <= i <= |a.inputs| == |old(a.inputs)| && |a.types| == |old(a.types)|
      invariant forall k: nat :: k < |a.inputs| ==> a.inputs[k] == if k < i then Var2Lit(k + 1) else old(a.inputs)[k]
      invariant forall v: nat :: v < |a.types| ==>
                  a.types[v] == if 0 < v <= i then old(a.types)[v].(input := true, idx := v - 1) else old(a.types)[v]
    {
      a.inputs := a.inputs[i := code[a.inputs[i]]];
      var v := Lit2Var(a.inputs[i]);
      assert v == i + 1;
      a.types := a.types[v := a.types[v].(input := true, idx := i)];
      i := i + 1;
    }
  }

  method TypeLatches(a: Aiger, code: array<nat>, ghost base: nat)
    requires base + |a.latches| < |a.types|
    requires forall i: nat :: i < |a.latches| ==> a.latches[i].lit < code.Length && code[a.latches[i].lit] == Var2Lit(base + i + 1)
    modifies a`types, a`latches
    ensures |a.latches| == |old(a.latches)|
    ensures forall i: nat :: i < |a.latches| ==> a.latches[i] == Latch(Var2Lit(base + i + 1), old(a.latches)[i].next)
    ensures |a.types| == |old(a.types)|
    ensures forall v: nat :: v < |a.types| ==>
              a.types[v] == if base < v <= base + |a.latches| then old(a.types)[v].(latch := true, idx := v - base - 1) else old(a.types)[v]
  {
    var i: nat := 0;
    while i < |a.latches|
      invariant 0 <= i <= |a.latches| == |old(a.latches)| && |a.types| == |old(a.types)|
      invariant forall k: nat :: k < |a.latches| ==>
                  a.latches[k] == if k < i then Latch(Var2Lit(base + k + 1), old(a.latches)[k].next) else old(a.latches)[k]
      invariant forall v: nat :: v < |a.types| ==>
                  a.types[v] == if base < v <= base + i then old(a.types)[v].(latch := true, idx := v - base - 1) else old(a.types)[v]
    {
      a.latches := a.latches[i := a.latches[i].(lit := code[a.latches[i].lit])];
      var v := Lit2Var(a.latches[i].lit);
      assert v == base + i + 1;
      a.types := a.types[v := a.types[v].(latch := true, idx := i)];
      i := i + 1;
    }
  }

  // Variables 1.. by kind: inputs, latches, ANDs.
  ghost predicate Kinds(types: seq<Type>, i: nat, l: nat, a: nat) {
    && i + l + a < |types| && !types[0].input && !types[0].latch && !types[0].and
    && forall v: nat :: 1 <= v <= i + l + a ==> KindAt(types[v], i, l, v)
  }

  ghost predicate KindAt(t: Type, i: nat, l: nat, v: nat) {
    && (t.input <==> v <= i) && (t.latch <==> i < v <= i + l) && (t.and <==> i + l < v)
    && t.idx == v - 1 - if v <= i then 0 else if v <= i + l then i else i + l
  }

  method ResetTypes(a: Aiger, code: array<nat>)
    requires a.maxvar == |a.inputs| + |a.latches| + |a.ands| < |a.types|
    requires !a.types[0].input && !a.types[0].latch && !a.types[0].and
    requires forall i: nat :: i < |a.inputs| ==> a.inputs[i] < code.Length && code[a.inputs[i]] == Var2Lit(i + 1)
    requires forall i: nat :: i < |a.latches| ==> a.latches[i].lit < code.Length && code[a.latches[i].lit] == Var2Lit(|a.inputs| + i + 1)
    requires forall i: nat :: i < |a.ands| ==> a.ands[i].lhs == Var2Lit(|a.inputs| + |a.latches| + i + 1)
    modifies a`types, a`inputs, a`latches
    ensures |a.inputs| == |old(a.inputs)| && forall i: nat :: i < |a.inputs| ==> a.inputs[i] == Var2Lit(i + 1)
    ensures |a.latches| == |old(a.latches)|
    ensures forall i: nat :: i < |a.latches| ==> a.latches[i] == Latch(Var2Lit(|a.inputs| + i + 1), old(a.latches)[i].next)
    ensures Kinds(a.types, |a.inputs|, |a.latches|, |a.ands|) && |a.types| == |old(a.types)|
    ensures forall v: nat :: v < |a.types| ==> a.types[v].onstack == old(a.types)[v].onstack && a.types[v].mark == old(a.types)[v].mark
  {
    ClearTypes(a);
    TypeAnds(a, |a.inputs| + |a.latches|);
    TypeInputs(a, code);
    TypeLatches(a, code, |a.inputs|);
  }

  // ----- the renumbered AIG is well-formed again -----

  ghost predicate RootsBelow(n: Aig) {
    && (forall i :: 0 <= i < |n.latches| ==> Lit2Var(n.latches[i].next) <= n.maxvar)
    && forall i :: 0 <= i < |n.outputs| ==> Lit2Var(n.outputs[i]) <= n.maxvar
  }

  ghost predicate ChildrenFirst(n: Aig) {
    forall i: nat :: i < |n.ands| ==> Lit2Var(n.ands[i].rhs0) < Lit2Var(n.ands[i].lhs) && Lit2Var(n.ands[i].rhs1) < Lit2Var(n.ands[i].lhs)
  }

  lemma KindsMatch(n: Aig, types: seq<Type>)
    requires Reencoded(n) && Kinds(types, |n.inputs|, |n.latches|, |n.ands|)
    requires n.maxvar == |n.inputs| + |n.latches| + |n.ands|
    ensures TypesMatch(n, types)
  {
    forall v: nat | 1 <= v <= n.maxvar ensures TypeMatch(n, types[v], v) {
      assert KindAt(types[v], |n.inputs|, |n.latches|, v);
    }
    forall i: nat | i < |n.inputs| ensures InputMatch(n, types, i) {
      assert KindAt(types[i + 1], |n.inputs|, |n.latches|, i + 1);
    }
    forall i: nat | i < |n.latches| ensures LatchMatch(n, types, i) {
      var v := |n.inputs| + i + 1;
      assert KindAt(types[v], |n.inputs|, |n.latches|, v);
    }
    forall i: nat | i < |n.ands| ensures AndMatch(n, types, i) {
      var v := |n.inputs| + |n.latches| + i + 1;
      assert KindAt(types[v], |n.inputs|, |n.latches|, v);
    }
  }

  lemma KindsDefined(types: seq<Type>, i: nat, l: nat, a: nat, v: nat)
    requires Kinds(types, i, l, a) && v <= i + l + a
    ensures DefinedVar(types, i + l + a, v)
  {
    if v > 0 {
      assert KindAt(types[v], i, l, v);
    }
  }

  lemma KindsWellFormed(n: Aig, types: seq<Type>)
    requires Reencoded(n) && Kinds(types, |n.inputs|, |n.latches|, |n.ands|)
    requires n.maxvar == |n.inputs| + |n.latches| + |n.ands| && RootsBelow(n) && ChildrenFirst(n)
    ensures WellFormed(n, types)
  {
    KindsMatch(n, types);
    forall lit: nat | Lit2Var(lit) <= n.maxvar ensures Defined(types, n.maxvar, lit) {
      KindsDefined(types, |n.inputs|, |n.latches|, |n.ands|, Lit2Var(lit));
    }
    OrderedRanks(n, types, Gates(n, types));
  }

  // Children with smaller variables: the variables are ranks.
  lemma OrderedRanks(n: Aig, types: seq<Type>, g: Graph)
    requires TypesMatch(n, types) && AllDefined(n, types) && g == Gates(n, types) && ChildrenFirst(n)
    ensures exists rank: map<nat, nat> :: RanksAll(g, rank)
  {
    OrderedRanked(n, types, g, NumberRank(g, n.maxvar));
    RanksEvery(g, n.maxvar);
  }

  ghost function NumberRank(g: Graph, maxvar: nat): (rank: map<nat, nat>)
    ensures RankIsNumber(g, maxvar, rank)
  {
    map v: nat | 1 <= v <= maxvar && IsGate(g, v) :: v
  }

  lemma RanksEvery(g: Graph, maxvar: nat)
    requires |g| == maxvar + 1 && WfGraph(g) && Ranked(g, NumberRank(g, maxvar))
    ensures exists rank: map<nat, nat> :: RanksAll(g, rank)
  {
    assert RanksAll(g, NumberRank(g, maxvar));
  }

  ghost predicate RankIsNumber(g: Graph, maxvar: nat, rank: map<nat, nat>) {
    && (forall w: nat :: w in rank <==> 1 <= w <= maxvar && IsGate(g, w))
    && forall w: nat :: w in rank ==> rank[w] == w
  }

  lemma OrderedRanked(n: Aig, types: seq<Type>, g: Graph, rank: map<nat, nat>)
    requires TypesMatch(n, types) && AllDefined(n, types) && g == Gates(n, types) && ChildrenFirst(n)
    requires RankIsNumber(g, n.maxvar, rank)
    ensures Ranked(g, rank)
  {
    forall v | v in rank ensures IsGate(g, v) && RankedAt(g, rank, v) {
      OrderedAt(n, types, g, rank, v);
    }
  }

  lemma OrderedAt(n: Aig, types: seq<Type>, g: Graph, rank: map<nat, nat>, v: nat)
    requires TypesMatch(n, types) && AllDefined(n, types) && g == Gates(n, types) && ChildrenFirst(n)
    requires RankIsNumber(g, n.maxvar, rank) && v in rank
    ensures RankedAt(g, rank, v)
  {
    assert TypeMatch(n, types[v], v);
    var k := types[v].idx;
    assert Lit2Var(n.ands[k].lhs) == v;
    forall c | IsChild(g, v, c) && IsGate(g, c) ensures c in rank && rank[c] < rank[v] {
      assert c != 0;
    }
  }

  // ----- places -----

  // Variables occur once in the order, so there are no more of them than before.
  lemma OrderBound(code: seq<nat>, order: seq<nat>, maxvar: nat)
    requires Codes(code, order, maxvar)
    ensures Once(order, maxvar) && |order| <= maxvar
  {
    forall i: nat, j: nat | i < j < |order| ensures order[i] != order[j] {
      assert code[Var2Lit(order[i])] == 2 * (i + 1) && code[Var2Lit(order[j])] == 2 * (j + 1);
    }
    OnceBound(order, maxvar);
  }

  // ----- aiger_reencode -----

  lemma ChildDefined(n: Aig, types: seq<Type>, u: nat, v: nat)
    requires TypesMatch(n, types) && AllDefined(n, types) && IsChild(Gates(n, types), u, v) && v != 0
    ensures types[v].input || types[v].latch || types[v].and
  {
    assert TypeMatch(n, types[u], u);
    var and := n.ands[types[u].idx];
    assert Defined(types, n.maxvar, and.rhs0) && Defined(types, n.maxvar, and.rhs1);
  }

  lemma AndOnly(n: Aig, types: seq<Type>, v: nat)
    requires TypesMatch(n, types) && v <= n.maxvar && types[v].and
    ensures !types[v].input && !types[v].latch
  {
    assert v >= 1 ==> TypeMatch(n, types[v], v);
  }

  lemma AllChildrenDefined(n: Aig, types: seq<Type>)
    requires TypesMatch(n, types) && AllDefined(n, types)
    ensures forall u: nat, v: nat :: IsChild(Gates(n, types), u, v) && v != 0 ==> types[v].input || types[v].latch || types[v].and
  {
    forall u: nat, v: nat | IsChild(Gates(n, types), u, v) && v != 0 ensures types[v].input || types[v].latch || types[v].and {
      ChildDefined(n, types, u, v);
    }
  }

  lemma WellFormedAcyclic(n: Aig, types: seq<Type>)
    requires WellFormed(n, types)
    ensures !Cyclic(Gates(n, types))
  {
    var rank: map<nat, nat> :| RanksAll(Gates(n, types), rank);
    RankedAcyclic(Gates(n, types), rank);
  }

  lemma SoundStart(n: Aig, types: seq<Type>, g: Graph)
    requires WellFormed(n, types) && g == Gates(n, types)
    ensures Sound(types, n.ands, n.maxvar, g)
  {
    WellFormedAcyclic(n, types);
    AllChildrenDefined(n, types);
    forall v: nat | v <= n.maxvar && types[v].and ensures !types[v].input && !types[v].latch {
      AndOnly(n, types, v);
    }
  }

  // With the leaves coded and no gate, the walks can start.
  lemma LeavesReady(n: Aig, types: seq<Type>, g: Graph, code: seq<nat>)
    requires TypesMatch(n, types) && AllDefined(n, types) && g == Gates(n, types) && Codes(code, LeafVars(n), n.maxvar)
    requires Sound(types, n.ands, n.maxvar, g) && forall v :: 0 <= v < |types| ==> !types[v].onstack
    ensures Ready(types, n.ands, n.maxvar, g, code, LeafVars(n), map[], 2 * (|LeafVars(n)| + 1))
  {
    forall v: nat | IsGate(g, v) ensures code[Var2Lit(v)] == 0 {
      GateUncoded(n, types, g, code, v);
    }
    forall v: nat | v <= n.maxvar && (types[v].input || types[v].latch) ensures code[Var2Lit(v)] != 0 {
      LeafCoded(n, types, code, v);
    }
  }

  lemma GateUncoded(n: Aig, types: seq<Type>, g: Graph, code: seq<nat>, v: nat)
    requires TypesMatch(n, types) && AllDefined(n, types) && g == Gates(n, types) && Codes(code, LeafVars(n), n.maxvar)
    requires IsGate(g, v)
    ensures code[Var2Lit(v)] == 0
  {
    LeafVarsDistinct(n, types);
    assert TypeMatch(n, types[v], v);
    assert v !in LeafVars(n);
    Uncoded(code, LeafVars(n), n.maxvar, v);
  }

  lemma LeafCoded(n: Aig, types: seq<Type>, code: seq<nat>, v: nat)
    requires TypesMatch(n, types) && Codes(code, LeafVars(n), n.maxvar)
    requires v <= n.maxvar && (types[v].input || types[v].latch)
    ensures code[Var2Lit(v)] != 0
  {
    LeafVarsDistinct(n, types);
    var leaves := LeafVars(n);
    var k :| 0 <= k < |leaves| && leaves[k] == v;
    assert code[Var2Lit(leaves[k])] == 2 * (k + 1);
  }

  method CodeLeaves(a: Aiger, code: array<nat>, ghost g: Graph) returns (new_: nat)
    requires WellFormed(Public(a), a.types) && g == Gates(Public(a), a.types)
    requires Unstacked(a.types)
    requires Codes(code[..], [], a.maxvar)
    modifies code
    ensures Ready(a.types, a.ands, a.maxvar, g, code[..], LeafVars(Public(a)), map[], new_)
  {
    LeafVarsDistinct(Public(a), a.types);
    SoundStart(Public(a), a.types, g);
    new_ := CodeInputs(a, code, LeafVars(Public(a)));
    new_ := CodeLatches(a, new_, code, LeafVars(Public(a)));
    LeavesReady(Public(a), a.types, g, code[..]);
  }

  function Roots(n: Aig): seq<nat> { Nexts(n.latches) + n.outputs }

  lemma RootsDefined(n: Aig, types: seq<Type>)
    requires AllDefined(n, types)
    ensures AllDefinedIn(types, n.maxvar, Nexts(n.latches)) && AllDefinedIn(types, n.maxvar, n.outputs)
  {
  }

  // Codes for everything the next-state functions and outputs depend on.
  method WalkAll(a: Aiger, code: array<nat>, ghost g: Graph)
    returns (new_: nat, ghost order: seq<nat>, ghost rank: map<nat, nat>)
    requires WellFormed(Public(a), a.types) && g == Gates(Public(a), a.types)
    requires Unstacked(a.types)
    requires Codes(code[..], [], a.maxvar)
    modifies a`types, a`latches, a`outputs, code
    ensures a.types == old(a.types) && new_ == 2 * (|order| + 1)
    ensures Walked(old(Public(a)), a.types, g, code[..], order, rank)
    ensures ConeSoFar(g, Roots(old(Public(a))), order, |LeafVars(old(Public(a)))|, rank)
    ensures |a.latches| == |old(a.latches)| && forall i :: 0 <= i < |a.latches| ==> a.latches[i].lit == old(a.latches)[i].lit
    ensures Recoded(code[..], Nexts(old(a.latches)), Nexts(a.latches)) && Recoded(code[..], old(a.outputs), a.outputs)
  {
    ghost var n := Public(a);
    RootsDefined(n, a.types);
    new_ := CodeLeaves(a, code, g);
    assert ConeSoFar(g, [], LeafVars(n), |LeafVars(n)|, map[]);
    new_, order, rank := ReencodeNexts(a, new_, code, g, LeafVars(n), map[]);
    ghost var was, orderWas := code[..], order;
    new_, order, rank := ReencodeOutputs(a, new_, code, g, order, rank, Nexts(n.latches), |LeafVars(n)|);
    forall i | 0 <= i < |n.latches|
      ensures CodedLit(code[..], Nexts(n.latches)[i]) && Nexts(a.latches)[i] == code[Nexts(n.latches)[i]]
    {
      assert CodedLit(was, Nexts(n.latches)[i]) && Nexts(a.latches)[i] == was[Nexts(n.latches)[i]];
      CodedLitKept(was, orderWas, code[..], order, a.maxvar, Nexts(n.latches)[i]);
    }
  }

  // The AIG under its new numbers, before and after the types are redone.
  ghost predicate Rebuilt(n: Aig, n': Aig, code: seq<nat>, order: seq<nat>) {
    && InCode(code, n.ands) && n'.ands == SortLhs(KeepCoded(code, n.ands)) && n'.maxvar == |order|
    && |n'.inputs| == |n.inputs| && (forall i: nat :: i < |n.inputs| ==> n'.inputs[i] == Var2Lit(i + 1))
    && |n'.latches| == |n.latches| && (forall i: nat :: i < |n.latches| ==> n'.latches[i].lit == Var2Lit(|n.inputs| + i + 1))
    && Recoded(code, Nexts(n.latches), Nexts(n'.latches)) && Recoded(code, n.outputs, n'.outputs)
  }

  lemma RebuiltRenumbered(n: Aig, types: seq<Type>, g: Graph, code: seq<nat>, order: seq<nat>, rank: map<nat, nat>, n': Aig)
    requires Walked(n, types, g, code, order, rank) && Rebuilt(n, n', code, order)
    ensures Renumbered(n, types, n', code, order)
  {
    RebuiltSizes(n, types, g, code, order, rank, n');
    forall i: nat, k: nat | i < |n'.ands| && k == |n.inputs| + |n.latches| + i
      ensures AndRenumbered(n, types, n', code, order, i, k)
    {
      AndsRenumbered(n, types, g, code, order, rank, n', i, k);
    }
    RebuiltReencoded(n, types, g, code, order, rank, n');
  }

  lemma RebuiltSizes(n: Aig, types: seq<Type>, g: Graph, code: seq<nat>, order: seq<nat>, rank: map<nat, nat>, n': Aig)
    requires Walked(n, types, g, code, order, rank) && Rebuilt(n, n', code, order)
    ensures |order| == |n.inputs| + |n.latches| + |n'.ands| && |LeafVars(n)| == |n.inputs| + |n.latches|
    ensures order[..|n.inputs| + |n.latches|] == LeafVars(n)
  {
    SortedAnds(n, types, g, code, order, rank);
  }

  lemma RebuiltReencoded(n: Aig, types: seq<Type>, g: Graph, code: seq<nat>, order: seq<nat>, rank: map<nat, nat>, n': Aig)
    requires Walked(n, types, g, code, order, rank) && Rebuilt(n, n', code, order)
    ensures Reencoded(n')
  {
    RebuiltSizes(n, types, g, code, order, rank, n');
    forall i: nat | i < |n'.ands|
      ensures n'.ands[i].lhs == Var2Lit(|n.inputs| + |n.latches| + i + 1) && n'.ands[i].lhs >= n'.ands[i].rhs0 >= n'.ands[i].rhs1
    {
      AndsRenumbered(n, types, g, code, order, rank, n', i, |n.inputs| + |n.latches| + i);
    }
  }

  lemma RenumberedWellFormed(n: Aig, types: seq<Type>, n': Aig, code: seq<nat>, order: seq<nat>, types': seq<Type>)
    requires Renumbered(n, types, n', code, order) && Kinds(types', |n'.inputs|, |n'.latches|, |n'.ands|)
    ensures WellFormed(n', types')
  {
    forall i | 0 <= i < |n'.latches| ensures Lit2Var(n'.latches[i].next) <= n'.maxvar {
      assert CodedLit(code, Nexts(n.latches)[i]) && Nexts(n'.latches)[i] == code[Nexts(n.latches)[i]];
      var k := LitCode(code, order, n.maxvar, Nexts(n.latches)[i]);
    }
    forall i | 0 <= i < |n'.outputs| ensures Lit2Var(n'.outputs[i]) <= n'.maxvar {
      var k := LitCode(code, order, n.maxvar, n.outputs[i]);
    }
    forall i: nat | i < |n'.ands|
      ensures Lit2Var(n'.ands[i].rhs0) < Lit2Var(n'.ands[i].lhs) && Lit2Var(n'.ands[i].rhs1) < Lit2Var(n'.ands[i].lhs)
    {
      var k := |n.inputs| + |n.latches| + i;
      assert AndRenumbered(n, types, n', code, order, i, k);
    }
    KindsWellFormed(n', types');
  }

  // Where inputs, latches and kept ANDs go.
  ghost predicate Places(n: Aig, code: seq<nat>, order: seq<nat>) {
    && InCode(code, n.ands)
    && (forall i: nat :: i < |n.inputs| ==> n.inputs[i] < |code| && code[n.inputs[i]] == Var2Lit(i + 1))
    && (forall i: nat :: i < |n.latches| ==> n.latches[i].lit < |code| && code[n.latches[i].lit] == Var2Lit(|n.inputs| + i + 1))
    && var s := SortLhs(KeepCoded(code, n.ands));
       && |n.inputs| + |n.latches| + |s| == |order| <= n.maxvar
       && forall i: nat :: i < |s| ==> s[i].lhs == Var2Lit(|n.inputs| + |n.latches| + i + 1)
  }

  lemma WalkedPlaces(n: Aig, types: seq<Type>, g: Graph, code: seq<nat>, order: seq<nat>, rank: map<nat, nat>)
    requires Walked(n, types, g, code, order, rank)
    ensures Places(n, code, order)
  {
    AndsInCode(n, types, code);
    SortedAnds(n, types, g, code, order, rank);
    OrderBound(code, order, n.maxvar);
    forall i: nat | i < |n.inputs| ensures n.inputs[i] < |code| && code[n.inputs[i]] == Var2Lit(i + 1) {
      InputCode(n, types, g, code, order, rank, i);
    }
    forall i: nat | i < |n.latches| ensures n.latches[i].lit < |code| && code[n.latches[i].lit] == Var2Lit(|n.inputs| + i + 1) {
      InputCode(n, types, g, code, order, rank, |n.inputs| + i);
    }
    StepLits(SortLhs(KeepCoded(code, n.ands)), |n.inputs| + |n.latches|);
  }

  lemma StepLits(s: seq<And>, base: nat)
    requires forall i: nat :: i < |s| ==> s[i].lhs == Step(2 * (base + 1), i)
    ensures forall i: nat :: i < |s| ==> s[i].lhs == Var2Lit(base + i + 1)
  {
  }

  lemma OddHalf(k: nat)
    ensures Lit2Var(2 * (k + 1) - 1) == k
  {
  }

  // From the codes to the renumbered AIG.
  method Rebuild(a: Aiger, code: array<nat>, new_: nat, ghost n: Aig, ghost order: seq<nat>)
    requires Places(n, code[..], order) && new_ == 2 * (|order| + 1)
    requires a.inputs == n.inputs && a.ands == n.ands && n.maxvar < |a.types|
    requires !a.types[0].input && !a.types[0].latch && !a.types[0].and
    requires |a.latches| == |n.latches| && forall i :: 0 <= i < |a.latches| ==> a.latches[i].lit == n.latches[i].lit
    requires Recoded(code[..], Nexts(n.latches), Nexts(a.latches)) && Recoded(code[..], n.outputs, a.outputs)
    modifies a`ands, a`maxvar, a`types, a`inputs, a`latches
    ensures Rebuilt(n, Public(a), code[..], order)
    ensures Kinds(a.types, |a.inputs|, |a.latches|, |a.ands|) && |a.types| == |old(a.types)|
    ensures forall v: nat :: v < |a.types| ==> a.types[v].onstack == old(a.types)[v].onstack && a.types[v].mark == old(a.types)[v].mark
  {
    Compact(a, code);
    a.ands := SortLhs(a.ands);
    a.maxvar := Lit2Var(new_ - 1);
    OddHalf(|order|);
    assert forall i: nat :: i < |a.ands| ==> a.ands[i].lhs == Var2Lit(|a.inputs| + |a.latches| + i + 1);
    ghost var nexts := Nexts(a.latches);
    ResetTypes(a, code);
    assert Nexts(a.latches) == nexts;
  }

  ghost predicate Unstacked(types: seq<Type>) {
    forall v :: 0 <= v < |types| ==> !types[v].onstack
  }

  // Everything known about n', the result of renumbering n.
  ghost predicate Result(n: Aig, types: seq<Type>, n': Aig, types': seq<Type>, code: seq<nat>, order: seq<nat>)
    requires TypesMatch(n, types) && AllDefined(n, types)
  {
    && Renumbered(n, types, n', code, order) && WellFormed(n', types') && Equivalent(n, n')
    && Once(order, n.maxvar) && |order| <= n.maxvar && OnlyCone(n, types, order)
  }

  lemma ResultSizes(n: Aig, types: seq<Type>, n': Aig, types': seq<Type>, code: seq<nat>, order: seq<nat>)
    requires TypesMatch(n, types) && AllDefined(n, types) && Result(n, types, n', types', code, order)
    ensures n'.maxvar == |n'.inputs| + |n'.latches| + |n'.ands| <= n.maxvar && |n'.outputs| == |n.outputs|
  {
  }

  lemma AllRenumbering(n: Aig, types: seq<Type>, g: Graph, code: seq<nat>, order: seq<nat>, rank: map<nat, nat>, n': Aig, types': seq<Type>)
    requires Walked(n, types, g, code, order, rank) && ConeSoFar(g, Roots(n), order, |LeafVars(n)|, rank)
    requires Rebuilt(n, n', code, order) && Kinds(types', |n'.inputs|, |n'.latches|, |n'.ands|)
    ensures Result(n, types, n', types', code, order)
  {
    RebuiltRenumbered(n, types, g, code, order, rank, n');
    RenumberedWellFormed(n, types, n', code, order, types');
    RenumberedEquivalent(n, types, n', code, order);
    OrderBound(code, order, n.maxvar);
    ConeOnly(n, types, g, code, order, rank);
  }

  // The part of aiger_reencode after the early return.
  method Renumber(a: Aiger) returns (ghost code': seq<nat>, ghost order: seq<nat>)
    requires WellFormed(Public(a), a.types) && Unstacked(a.types)
    modifies a`maxvar, a`inputs, a`latches, a`outputs, a`ands, a`types
    ensures Result(old(Public(a)), old(a.types), Public(a), a.types, code', order) && Unstacked(a.types)
  {
    ghost var n, types, g := Public(a), a.types, Gates(Public(a), a.types);
    var code := new nat[2 * (a.maxvar + 1)](_ => 0);
    code[1] := 1;
    var new_;
    ghost var rank;
    new_, order, rank := WalkAll(a, code, g);
    code' := code[..];
    WalkedPlaces(n, types, g, code', order, rank);
    Rebuild(a, code, new_, n, order);
    AllRenumbering(n, types, g, code', order, rank, Public(a), a.types);
  }

  // Renumbers everything the next-state functions and outputs depend on, drops the
  // rest, and keeps the behaviour.
  method AigerReencode(a: Aiger) returns (ghost code': seq<nat>, ghost order: seq<nat>)
    requires a.error.None? && WellFormed(Public(a), a.types) && Unstacked(a.types)
    modifies a`maxvar, a`inputs, a`latches, a`outputs, a`ands, a`types
    ensures WellFormed(Public(a), a.types) && Unstacked(a.types)
    ensures Reencoded(Public(a)) && Equivalent(old(Public(a)), Public(a))
    ensures old(Reencoded(Public(a))) ==> Public(a) == old(Public(a)) && a.types == old(a.types)
    ensures !old(Reencoded(Public(a))) ==> Result(old(Public(a)), old(a.types), Public(a), a.types, code', order)
    ensures !old(Reencoded(Public(a))) ==> a.maxvar == |a.inputs| + |a.latches| + |a.ands| <= old(a.maxvar)
    ensures |a.outputs| == old(|a.outputs|)
  {
    var done := IsReencoded(Public(a));
    if done {
      SameItself(Public(a), a.types);
      code', order := [], [];
    } else {
      code', order := Renumber(a);
      ResultSizes(old(Public(a)), old(a.types), Public(a), a.types, code', order);
    }
  }

  lemma SameItself(n: Aig, types: seq<Type>)
    requires WellFormed(n, types)
    ensures Equivalent(n, n)
  {
    forall ins: seq<bool>, state: seq<bool>, val: Valuation, val': Valuation | Run(n, ins, state, val) && Run(n, ins, state, val')
      ensures SameResults(n, val, n, val')
    {
      RunUnique(n, types, ins, state, val, val');
    }
  }

  // After the leaves, the order lists the gates of the cone and nothing else.
  ghost predicate OnlyCone(n: Aig, types: seq<Type>, order: seq<nat>)
    requires TypesMatch(n, types) && AllDefined(n, types)
  {
    && (forall k: nat :: |LeafVars(n)| <= k < |order| ==> IsGate(Gates(n, types), order[k]) && InCone(Gates(n, types), Roots(n), order[k]))
    && forall v: nat :: IsGate(Gates(n, types), v) && InCone(Gates(n, types), Roots(n), v) ==> v in order
  }

  lemma ConeOnly(n: Aig, types: seq<Type>, g: Graph, code: seq<nat>, order: seq<nat>, rank: map<nat, nat>)
    requires Walked(n, types, g, code, order, rank) && ConeSoFar(g, Roots(n), order, |LeafVars(n)|, rank)
    ensures OnlyCone(n, types, order)
  {
    forall v: nat | IsGate(g, v) && InCone(g, Roots(n), v) ensures v in order {
      ConeExactly(g, Roots(n), order, |LeafVars(n)|, rank, v);
      if v in rank {
        RankCoded(g, code, order, rank, |order| + 1, v);
        var k := PlaceOf(code, order, n.maxvar, v);
      }
    }
  }

  lemma RankCoded(g: Graph, code: seq<nat>, order: seq<nat>, rank: map<nat, nat>, clock: nat, v: nat)
    requires Numbered(g, code, order, rank, clock) && WfGraph(g) && v in rank
    ensures 1 <= v < |g| && Var2Lit(v) < |code| && code[Var2Lit(v)] != 0
  {
  }
}
