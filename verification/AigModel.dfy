// The AIG data structure of src/formats/aiger.c: literals are 2 * variable + sign,
// variable 0 is the constant.

module AigModel {
  import opened AigGraph
  import opened Basics

  datatype And = And(lhs: nat, rhs0: nat, rhs1: nat)
  datatype Latch = Latch(lit: nat, next: nat)

  // idx is the position among the inputs, the latches or the ands.
  datatype Type = Type(input: bool, latch: bool, and: bool, mark: bool, onstack: bool, idx: nat)

  // The public and the private part in one; error holds the variable reported.
  class Aiger {
    var maxvar: nat
    var inputs: seq<nat>
    var latches: seq<Latch>
    var outputs: seq<nat>
    var ands: seq<And>
    var types: seq<Type>
    var error: Option<nat>

    constructor ()
      ensures maxvar == 0 && inputs == [] && latches == [] && outputs == [] && ands == []
      ensures types == [Type(false, false, false, false, false, 0)] && error == None
    {
      maxvar, inputs, latches, outputs, ands := 0, [], [], [], [];
      types, error := [Type(false, false, false, false, false, 0)], None;
    }
  }

  function Lit2Var(lit: nat): nat { lit / 2 }

  // Every variable has its type; gates know their AND and have variables below the bound.
  ghost predicate TypesFit(types: seq<Type>, ands: seq<And>, maxvar: nat) {
    && maxvar < |types| && !types[0].and
    && forall v :: 0 <= v <= maxvar && types[v].and ==>
         && types[v].idx < |ands|
         && Lit2Var(ands[types[v].idx].rhs0) <= maxvar && Lit2Var(ands[types[v].idx].rhs1) <= maxvar
  }

  function GateOf(types: seq<Type>, ands: seq<And>, v: nat): Gate
    requires v < |types| && (types[v].and ==> types[v].idx < |ands|)
  {
    if types[v].and then Gate(Lit2Var(ands[types[v].idx].rhs0), Lit2Var(ands[types[v].idx].rhs1)) else Leaf
  }

  function Var2Lit(v: nat): nat { 2 * v }

  // All AND gates.
  ghost function GatesOf(types: seq<Type>, ands: seq<And>, maxvar: nat): (g: Graph)
    requires TypesFit(types, ands, maxvar)
    ensures |g| == maxvar + 1 && WfGraph(g)
    ensures forall v: nat :: v <= maxvar ==> g[v] == GateOf(types, ands, v)
  {
    seq(maxvar + 1, v requires 0 <= v <= maxvar => GateOf(types, ands, v))
  }

  ghost predicate DefinedVar(types: seq<Type>, maxvar: nat, v: nat) {
    v <= maxvar < |types| && (v == 0 || types[v].input || types[v].latch || types[v].and)
  }

  // aiger_literal_defined.
  ghost predicate Defined(types: seq<Type>, maxvar: nat, lit: nat) {
    DefinedVar(types, maxvar, Lit2Var(lit))
  }
}
