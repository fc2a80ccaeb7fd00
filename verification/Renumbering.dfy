// The AIG before and after renumbering: what aiger_reencode (src/formats/aiger.c)
// makes of it, and why it computes the same.

module Renumbering {
  import opened AigGraph
  import opened AigModel
  import opened AigSemantics
  import opened ReencodeWalk
  import opened Reencode
  import opened AndList

  // The new number of a coded literal has the position of its variable and its sign.
  lemma LitCode(code: seq<nat>, order: seq<nat>, maxvar: nat, lit: nat) returns (k: nat)
    requires Codes(code, order, maxvar) && CodedLit(code, lit)
    ensures code[lit] % 2 == lit % 2 && Lit2Var(code[lit]) == k <= |order|
    ensures Lit2Var(lit) == 0 ==> k == 0
    ensures Lit2Var(lit) != 0 ==> k >= 1 && order[k - 1] == Lit2Var(lit)
  {
    k := Lit2Var(code[lit]);
    var v := Lit2Var(lit);
    assert lit == Var2Lit(v) || lit == Var2Lit(v) + 1;
    if v != 0 {
      assert CodedRight(code, order, v);
      var j := code[Var2Lit(v)] / 2 - 1;
      assert code[Var2Lit(order[j])] == 2 * (j + 1);
    }
  }

  // The i-th AND of n' is the variable at place k, with renumbered right-hand sides.
  ghost predicate AndRenumbered(n: Aig, types: seq<Type>, n': Aig, code: seq<nat>, order: seq<nat>, i: nat, k: nat)
    requires i < |n'.ands| && k < |order|
  {
    var and := n'.ands[i];
    && order[k] < |types| && types[order[k]].and && types[order[k]].idx < |n.ands|
    && var was := n.ands[types[order[k]].idx];
       && was.lhs < |code| && CodedLit(code, was.rhs0) && CodedLit(code, was.rhs1)
       && and == Recode(code, was) && and.lhs == Var2Lit(k + 1)
       && Lit2Var(and.rhs0) <= k && Lit2Var(and.rhs1) <= k
  }

  // n' is n with variable order[k] renumbered k + 1, and ANDs outside order left out.
  ghost predicate Renumbered(n: Aig, types: seq<Type>, n': Aig, code: seq<nat>, order: seq<nat>) {
    && Codes(code, order, n.maxvar) && n'.maxvar == |order|
    && |n'.inputs| == |n.inputs| && |n'.latches| == |n.latches|
    && |order| == |n.inputs| + |n.latches| + |n'.ands| && order[..|n.inputs| + |n.latches|] == LeafVars(n)
    && Reencoded(n')
    && Recoded(code, Nexts(n.latches), Nexts(n'.latches)) && Recoded(code, n.outputs, n'.outputs)
    && forall i: nat, k: nat :: i < |n'.ands| && k == |n.inputs| + |n.latches| + i ==> AndRenumbered(n, types, n', code, order, i, k)
  }

  // ----- equal values -----

  lemma LeafSame(n: Aig, types: seq<Type>, n': Aig, code: seq<nat>, order: seq<nat>,
                 ins: seq<bool>, state: seq<bool>, val: Valuation, val': Valuation, k: nat)
    requires Renumbered(n, types, n', code, order) && k < |n.inputs| + |n.latches|
    requires TypesMatch(n, types)
    requires Run(n, ins, state, val) && Run(n', ins, state, val')
    ensures order[k] in val <==> k + 1 in val'
  {
    assert order[k] == LeafVars(n)[k] == LeafVar(n, k);
    if k < |n.inputs| {
      assert InputMatch(n, types, k);
      assert True(n.inputs[k], val) <==> ins[k];
      assert True(n'.inputs[k], val') <==> ins[k];
    } else {
      var i: nat := k - |n.inputs|;
      assert LatchMatch(n, types, i);
      assert True(n.latches[i].lit, val) <==> state[i];
      assert True(n'.latches[i].lit, val') <==> state[i];
    }
  }

  lemma {:induction false} VariableSame(n: Aig, types: seq<Type>, n': Aig, code: seq<nat>, order: seq<nat>,
                                        ins: seq<bool>, state: seq<bool>, val: Valuation, val': Valuation, k: nat)
    requires Renumbered(n, types, n', code, order) && TypesMatch(n, types) && k < |order|
    requires Run(n, ins, state, val) && Run(n', ins, state, val')
    ensures order[k] in val <==> k + 1 in val'
    decreases k, 1
  {
    if k < |n.inputs| + |n.latches| {
      LeafSame(n, types, n', code, order, ins, state, val, val', k);
    } else {
      var i: nat := k - |n.inputs| - |n.latches|;
      var and := n'.ands[i];
      assert AndRenumbered(n, types, n', code, order, i, k);
      var was := n.ands[types[order[k]].idx];
      LiteralSame(n, types, n', code, order, ins, state, val, val', was.rhs0, k);
      LiteralSame(n, types, n', code, order, ins, state, val, val', was.rhs1, k);
      RunAt(n, types, ins, state, val, order[k]);
      assert True(and.lhs, val') <==> True(and.rhs0, val') && True(and.rhs1, val');
    }
  }

  lemma {:induction false} LiteralSame(n: Aig, types: seq<Type>, n': Aig, code: seq<nat>, order: seq<nat>,
                                       ins: seq<bool>, state: seq<bool>, val: Valuation, val': Valuation, lit: nat, bound: nat)
    requires Renumbered(n, types, n', code, order) && TypesMatch(n, types)
    requires Run(n, ins, state, val) && Run(n', ins, state, val')
    requires CodedLit(code, lit) && Lit2Var(code[lit]) <= bound
    ensures True(code[lit], val') <==> True(lit, val)
    decreases bound, 0
  {
    var k := LitCode(code, order, n.maxvar, lit);
    if k > 0 {
      VariableSame(n, types, n', code, order, ins, state, val, val', k - 1);
    }
  }

  // Renumbering keeps the behaviour.
  lemma RenumberedEquivalent(n: Aig, types: seq<Type>, n': Aig, code: seq<nat>, order: seq<nat>)
    requires Renumbered(n, types, n', code, order) && TypesMatch(n, types)
    ensures Equivalent(n, n')
  {
    forall ins: seq<bool>, state: seq<bool>, val: Valuation, val': Valuation | Run(n, ins, state, val) && Run(n', ins, state, val')
      ensures SameResults(n, val, n', val')
    {
      forall i | 0 <= i < |n.latches| ensures True(n'.latches[i].next, val') <==> True(n.latches[i].next, val) {
        assert CodedLit(code, Nexts(n.latches)[i]) && Nexts(n'.latches)[i] == code[Nexts(n.latches)[i]];
        var k := LitCode(code, order, n.maxvar, n.latches[i].next);
        LiteralSame(n, types, n', code, order, ins, state, val, val', n.latches[i].next, k);
      }
      forall i | 0 <= i < |n.outputs| ensures True(n'.outputs[i], val') <==> True(n.outputs[i], val) {
        var k := LitCode(code, order, n.maxvar, n.outputs[i]);
        LiteralSame(n, types, n', code, order, ins, state, val, val', n.outputs[i], k);
      }
    }
  }
}
