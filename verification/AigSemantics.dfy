// What an AIG computes: the values of its next-state functions and outputs,
// given the values of its inputs and latches.

module AigSemantics {
  import opened AigGraph
  import opened AigModel

  // The public part of an AIG as a value.
  datatype Aig = Aig(maxvar: nat, inputs: seq<nat>, latches: seq<Latch>, outputs: seq<nat>, ands: seq<And>)

  function Public(a: Aiger): Aig
    reads a
  {
    Aig(a.maxvar, a.inputs, a.latches, a.outputs, a.ands)
  }

  // ----- well-formedness -----

  ghost predicate IsVar(lit: nat, maxvar: nat) {
    lit % 2 == 0 && 1 <= Lit2Var(lit) <= maxvar
  }

  ghost predicate InputMatch(n: Aig, types: seq<Type>, i: nat)
    requires i < |n.inputs|
  {
    && IsVar(n.inputs[i], n.maxvar) && n.maxvar < |types|
    && types[Lit2Var(n.inputs[i])].input && types[Lit2Var(n.inputs[i])].idx == i
  }

  ghost predicate LatchMatch(n: Aig, types: seq<Type>, i: nat)
    requires i < |n.latches|
  {
    && IsVar(n.latches[i].lit, n.maxvar) && n.maxvar < |types|
    && types[Lit2Var(n.latches[i].lit)].latch && types[Lit2Var(n.latches[i].lit)].idx == i
  }

  ghost predicate AndMatch(n: Aig, types: seq<Type>, i: nat)
    requires i < |n.ands|
  {
    && IsVar(n.ands[i].lhs, n.maxvar) && n.maxvar < |types|
    && types[Lit2Var(n.ands[i].lhs)].and && types[Lit2Var(n.ands[i].lhs)].idx == i
  }

  ghost predicate TypeMatch(n: Aig, t: Type, v: nat) {
    && !(t.input && t.latch) && !(t.input && t.and) && !(t.latch && t.and)
    && (t.input ==> t.idx < |n.inputs| && n.inputs[t.idx] == Var2Lit(v))
    && (t.latch ==> t.idx < |n.latches| && n.latches[t.idx].lit == Var2Lit(v))
    && (t.and ==> t.idx < |n.ands| && n.ands[t.idx].lhs == Var2Lit(v))
  }

  // Types and definitions agree, every variable is defined at most once.
  ghost predicate TypesMatch(n: Aig, types: seq<Type>) {
    && n.maxvar < |types| && !types[0].input && !types[0].latch && !types[0].and
    && (forall i: nat :: i < |n.inputs| ==> InputMatch(n, types, i))
    && (forall i: nat :: i < |n.latches| ==> LatchMatch(n, types, i))
    && (forall i: nat :: i < |n.ands| ==> AndMatch(n, types, i))
    && forall v: nat :: 1 <= v <= n.maxvar ==> TypeMatch(n, types[v], v)
  }

  // What aiger_check establishes before it looks for cycles.
  ghost predicate AllDefined(n: Aig, types: seq<Type>) {
    && (forall i :: 0 <= i < |n.latches| ==> Defined(types, n.maxvar, n.latches[i].next))
    && (forall i :: 0 <= i < |n.outputs| ==> Defined(types, n.maxvar, n.outputs[i]))
    && forall i :: 0 <= i < |n.ands| ==> Defined(types, n.maxvar, n.ands[i].rhs0) && Defined(types, n.maxvar, n.ands[i].rhs1)
  }

  ghost predicate RanksAll(g: Graph, rank: map<nat, nat>) {
    Ranked(g, rank) && forall v: nat :: IsGate(g, v) ==> v in rank
  }

  lemma DefinedFit(n: Aig, types: seq<Type>)
    requires TypesMatch(n, types) && AllDefined(n, types)
    ensures TypesFit(types, n.ands, n.maxvar)
  {
    forall v | 0 <= v <= n.maxvar && types[v].and
      ensures types[v].idx < |n.ands|
      ensures Lit2Var(n.ands[types[v].idx].rhs0) <= n.maxvar && Lit2Var(n.ands[types[v].idx].rhs1) <= n.maxvar
    {
      assert TypeMatch(n, types[v], v);
    }
  }

  ghost function Gates(n: Aig, types: seq<Type>): (g: Graph)
    requires TypesMatch(n, types) && AllDefined(n, types)
    ensures |g| == n.maxvar + 1 && WfGraph(g)
  {
    DefinedFit(n, types);
    GatesOf(types, n.ands, n.maxvar)
  }

  ghost predicate WellFormed(n: Aig, types: seq<Type>) {
    TypesMatch(n, types) && AllDefined(n, types) && exists rank: map<nat, nat> :: RanksAll(Gates(n, types), rank)
  }

  // ----- meaning -----

  // The set of variables that are true.
  type Valuation = iset<nat>

  ghost predicate True(lit: nat, val: Valuation) {
    (Lit2Var(lit) in val) != (lit % 2 == 1)
  }

  // val is what the AIG computes from the inputs and the state, taken by position.
  ghost predicate Run(n: Aig, ins: seq<bool>, state: seq<bool>, val: Valuation) {
    && |ins| == |n.inputs| && |state| == |n.latches| && 0 !in val
    && (forall i :: 0 <= i < |n.inputs| ==> (True(n.inputs[i], val) <==> ins[i]))
    && (forall i :: 0 <= i < |n.latches| ==> (True(n.latches[i].lit, val) <==> state[i]))
    && forall i :: 0 <= i < |n.ands| ==> (True(n.ands[i].lhs, val) <==> True(n.ands[i].rhs0, val) && True(n.ands[i].rhs1, val))
  }

  // Same next state and same outputs.
  ghost predicate SameResults(n: Aig, val: Valuation, n': Aig, val': Valuation) {
    && |n'.latches| == |n.latches| && |n'.outputs| == |n.outputs|
    && (forall i :: 0 <= i < |n.latches| ==> (True(n'.latches[i].next, val') <==> True(n.latches[i].next, val)))
    && forall i :: 0 <= i < |n.outputs| ==> (True(n'.outputs[i], val') <==> True(n.outputs[i], val))
  }

  // Equal behaviour for every input and every state.
  ghost predicate Equivalent(n: Aig, n': Aig) {
    && |n'.inputs| == |n.inputs| && |n'.latches| == |n.latches| && |n'.outputs| == |n.outputs|
    && forall ins: seq<bool>, state: seq<bool>, val: Valuation, val': Valuation ::
         Run(n, ins, state, val) && Run(n', ins, state, val') ==> SameResults(n, val, n', val')
  }

  // ----- a well-formed AIG computes exactly one value for every variable -----

  ghost function Value(n: Aig, types: seq<Type>, g: Graph, rank: map<nat, nat>, ins: seq<bool>, state: seq<bool>, v: nat): bool
    requires TypesMatch(n, types) && AllDefined(n, types) && g == Gates(n, types) && RanksAll(g, rank)
    requires |ins| == |n.inputs| && |state| == |n.latches|
    decreases if v in rank then rank[v] + 1 else 0
  {
    if v == 0 || v > n.maxvar then false
    else
      assert TypeMatch(n, types[v], v);
      if types[v].input then ins[types[v].idx]
      else if types[v].latch then state[types[v].idx]
      else if types[v].and then
        assert IsGate(g, v) && RankedAt(g, rank, v);
        var and := n.ands[types[v].idx];
        assert IsChild(g, v, Lit2Var(and.rhs0)) && IsChild(g, v, Lit2Var(and.rhs1));
        (Value(n, types, g, rank, ins, state, Lit2Var(and.rhs0)) != (and.rhs0 % 2 == 1))
        && (Value(n, types, g, rank, ins, state, Lit2Var(and.rhs1)) != (and.rhs1 % 2 == 1))
      else false
  }

  // The values satisfy each definition.
  lemma ValueInput(n: Aig, types: seq<Type>, g: Graph, rank: map<nat, nat>, ins: seq<bool>, state: seq<bool>, i: nat)
    requires TypesMatch(n, types) && AllDefined(n, types) && g == Gates(n, types) && RanksAll(g, rank)
    requires |ins| == |n.inputs| && |state| == |n.latches| && i < |n.inputs|
    ensures n.inputs[i] % 2 == 0 && Value(n, types, g, rank, ins, state, Lit2Var(n.inputs[i])) == ins[i]
  {
    assert InputMatch(n, types, i);
  }

  lemma ValueLatch(n: Aig, types: seq<Type>, g: Graph, rank: map<nat, nat>, ins: seq<bool>, state: seq<bool>, i: nat)
    requires TypesMatch(n, types) && AllDefined(n, types) && g == Gates(n, types) && RanksAll(g, rank)
    requires |ins| == |n.inputs| && |state| == |n.latches| && i < |n.latches|
    ensures n.latches[i].lit % 2 == 0 && Value(n, types, g, rank, ins, state, Lit2Var(n.latches[i].lit)) == state[i]
  {
    assert LatchMatch(n, types, i);
    assert TypeMatch(n, types[Lit2Var(n.latches[i].lit)], Lit2Var(n.latches[i].lit));
  }

  lemma ValueAnd(n: Aig, types: seq<Type>, g: Graph, rank: map<nat, nat>, ins: seq<bool>, state: seq<bool>, i: nat)
    requires TypesMatch(n, types) && AllDefined(n, types) && g == Gates(n, types) && RanksAll(g, rank)
    requires |ins| == |n.inputs| && |state| == |n.latches| && i < |n.ands|
    ensures n.ands[i].lhs % 2 == 0
    ensures Value(n, types, g, rank, ins, state, Lit2Var(n.ands[i].lhs))
            == ((Value(n, types, g, rank, ins, state, Lit2Var(n.ands[i].rhs0)) != (n.ands[i].rhs0 % 2 == 1))
                && (Value(n, types, g, rank, ins, state, Lit2Var(n.ands[i].rhs1)) != (n.ands[i].rhs1 % 2 == 1)))
  {
    assert AndMatch(n, types, i);
    assert TypeMatch(n, types[Lit2Var(n.ands[i].lhs)], Lit2Var(n.ands[i].lhs));
  }

  lemma RunExists(n: Aig, types: seq<Type>, ins: seq<bool>, state: seq<bool>) returns (val: Valuation)
    requires WellFormed(n, types) && |ins| == |n.inputs| && |state| == |n.latches|
    ensures Run(n, ins, state, val)
  {
    var g := Gates(n, types);
    var rank: map<nat, nat> :| RanksAll(g, rank);
    val := iset v: nat | Value(n, types, g, rank, ins, state, v);
    forall i: nat | i < |n.inputs| ensures True(n.inputs[i], val) <==> ins[i] {
      ValueInput(n, types, g, rank, ins, state, i);
    }
    forall i: nat | i < |n.latches| ensures True(n.latches[i].lit, val) <==> state[i] {
      ValueLatch(n, types, g, rank, ins, state, i);
    }
    forall i: nat | i < |n.ands|
      ensures True(n.ands[i].lhs, val) <==> True(n.ands[i].rhs0, val) && True(n.ands[i].rhs1, val)
    {
      ValueAnd(n, types, g, rank, ins, state, i);
    }
  }

  lemma RunUnique(n: Aig, types: seq<Type>, ins: seq<bool>, state: seq<bool>, val: Valuation, val': Valuation)
    requires WellFormed(n, types) && Run(n, ins, state, val) && Run(n, ins, state, val')
    ensures SameResults(n, val, n, val')
  {
    var rank: map<nat, nat> :| RanksAll(Gates(n, types), rank);
    forall lit | Defined(types, n.maxvar, lit) ensures True(lit, val) <==> True(lit, val') {
      SameVariable(n, types, rank, ins, state, val, val', Lit2Var(lit));
    }
  }

  // A run at one variable.
  lemma RunAt(n: Aig, types: seq<Type>, ins: seq<bool>, state: seq<bool>, val: Valuation, v: nat)
    requires TypesMatch(n, types) && 1 <= v <= n.maxvar && Run(n, ins, state, val)
    ensures TypeMatch(n, types[v], v)
    ensures types[v].input ==> (v in val <==> ins[types[v].idx])
    ensures types[v].latch ==> (v in val <==> state[types[v].idx])
    ensures types[v].and ==> (v in val <==> True(n.ands[types[v].idx].rhs0, val) && True(n.ands[types[v].idx].rhs1, val))
  {
    assert TypeMatch(n, types[v], v);
    var k := types[v].idx;
    if types[v].input {
      assert True(n.inputs[k], val) <==> ins[k];
    } else if types[v].latch {
      assert True(n.latches[k].lit, val) <==> state[k];
    } else if types[v].and {
      assert True(n.ands[k].lhs, val) <==> True(n.ands[k].rhs0, val) && True(n.ands[k].rhs1, val);
    }
  }

  // The children of a ranked gate come first.
  lemma ChildRanks(n: Aig, types: seq<Type>, rank: map<nat, nat>, v: nat)
    requires TypesMatch(n, types) && AllDefined(n, types) && RanksAll(Gates(n, types), rank)
    requires 1 <= v <= n.maxvar && types[v].and
    ensures v in rank && types[v].idx < |n.ands|
    ensures DefinedVar(types, n.maxvar, Lit2Var(n.ands[types[v].idx].rhs0))
    ensures DefinedVar(types, n.maxvar, Lit2Var(n.ands[types[v].idx].rhs1))
    ensures var and := n.ands[types[v].idx];
            (Lit2Var(and.rhs0) in rank ==> rank[Lit2Var(and.rhs0)] < rank[v])
            && (Lit2Var(and.rhs1) in rank ==> rank[Lit2Var(and.rhs1)] < rank[v])
  {
    assert TypeMatch(n, types[v], v);
    var g := Gates(n, types);
    assert IsGate(g, v) && RankedAt(g, rank, v);
    var and := n.ands[types[v].idx];
    assert IsChild(g, v, Lit2Var(and.rhs0)) && IsChild(g, v, Lit2Var(and.rhs1));
    assert Defined(types, n.maxvar, and.rhs0) && Defined(types, n.maxvar, and.rhs1);
  }

  lemma {:induction false} SameVariable(n: Aig, types: seq<Type>, rank: map<nat, nat>, ins: seq<bool>, state: seq<bool>,
                                        val: Valuation, val': Valuation, v: nat)
    requires TypesMatch(n, types) && AllDefined(n, types) && RanksAll(Gates(n, types), rank)
    requires Run(n, ins, state, val) && Run(n, ins, state, val')
    requires DefinedVar(types, n.maxvar, v)
    ensures v in val <==> v in val'
    decreases if v in rank then rank[v] + 1 else 0
  {
    if v != 0 {
      RunAt(n, types, ins, state, val, v);
      RunAt(n, types, ins, state, val', v);
      if types[v].and {
        ChildRanks(n, types, rank, v);
        SameVariable(n, types, rank, ins, state, val, val', Lit2Var(n.ands[types[v].idx].rhs0));
        SameVariable(n, types, rank, ins, state, val, val', Lit2Var(n.ands[types[v].idx].rhs1));
      }
    }
  }
}
