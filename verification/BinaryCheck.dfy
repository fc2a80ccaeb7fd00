// What the final check says of binary AIGER files (src/formats/aiger.c): all variables
// are defined and right-hand sides never lie above, so only a first delta of zero fails.

module BinaryCheck {
  import opened AigGraph
  import opened AigModel
  import opened AigSemantics
  import opened AigerAscii
  import opened AigerBinary
  import opened Basics
  import opened Reencode

  // ----- the shape of what is read -----

  lemma {:induction false} ListBounded(s: seq<nat>, k: nat, maxvar: nat, acc: seq<nat>)
    requires forall i :: 0 <= i < |acc| ==> Lit2Var(acc[i]) <= maxvar
    ensures var r := LiteralList(s, k, maxvar, acc);
            r.Some? ==> |r.value.0| == |acc| + k && forall i :: 0 <= i < |r.value.0| ==> Lit2Var(r.value.0[i]) <= maxvar
    decreases k
  {
    if k > 0 {
      match Literal(s, NEWLINE)
      case None =>
      case Some((v, t)) =>
        if Lit2Var(v) <= maxvar {
          ListBounded(t, k - 1, maxvar, acc + [v]);
        }
    }
  }

  // Consecutive left-hand sides after base, literals descending.
  ghost predicate RowsFrom(ands: seq<And>, base: nat) {
    forall i: nat :: i < |ands| ==> ands[i].lhs == base + 2 * (i + 1) && ands[i].lhs >= ands[i].rhs0 >= ands[i].rhs1
  }

  lemma {:induction false} AndsShaped(s: seq<nat>, k: nat, base: nat, lhs: nat, acc: seq<And>)
    requires RowsFrom(acc, base) && lhs == base + 2 * |acc|
    ensures var r := ParseAnds(s, k, lhs, acc); r.Ands? ==> |r.ands| == |acc| + k && RowsFrom(r.ands, base)
    decreases k
  {
    if k > 0 {
      match ParseAnd(s, lhs + 2)
      case BadAnd =>
      case UndefinedAnd =>
      case OneAnd(and, t) =>
        AndsShaped(t, k - 1, base, lhs + 2, acc + [and]);
    }
  }

  // Numbered in order, every variable defined, every literal in range.
  ghost predicate Complete(n: Aig) {
    && Reencoded(n) && Bounded(n) && n.maxvar == |n.inputs| + |n.latches| + |n.ands|
  }

  lemma BodyComplete(h: Header, s: seq<nat>)
    requires h.maxvar == h.inputs + h.latches + h.ands
    ensures ParseBody(h, s).Read? ==> Complete(ParseBody(h, s).n)
  {
    var nexts := LiteralList(s, h.latches, h.maxvar, []);
    ListBounded(s, h.latches, h.maxvar, []);
    if nexts.Some? {
      var outputs := LiteralList(nexts.value.1, h.outputs, h.maxvar, []);
      ListBounded(nexts.value.1, h.outputs, h.maxvar, []);
      if outputs.Some? {
        var base := Var2Lit(h.inputs + h.latches);
        var ands := ParseAnds(outputs.value.1, h.ands, base, []);
        AndsShaped(outputs.value.1, h.ands, base, base, []);
        if ands.Ands? {
          PartsComplete(ParseBody(h, s).n);
        }
      }
    }
  }

  lemma PartsComplete(n: Aig)
    requires n.maxvar == |n.inputs| + |n.latches| + |n.ands| && RowsFrom(n.ands, Var2Lit(|n.inputs| + |n.latches|))
    requires forall i: nat :: i < |n.inputs| ==> n.inputs[i] == Var2Lit(i + 1)
    requires forall i: nat :: i < |n.latches| ==> n.latches[i].lit == Var2Lit(|n.inputs| + i + 1) && Lit2Var(n.latches[i].next) <= n.maxvar
    requires forall i: nat :: i < |n.outputs| ==> Lit2Var(n.outputs[i]) <= n.maxvar
    ensures Complete(n)
  {
    RowsBounded(n.ands, |n.inputs| + |n.latches|, n.maxvar);
  }

  lemma RowsBounded(ands: seq<And>, base: nat, maxvar: nat)
    requires RowsFrom(ands, Var2Lit(base)) && base + |ands| <= maxvar
    ensures forall i: nat :: i < |ands| ==>
              && ands[i].lhs == Var2Lit(base + i + 1) && Lit2Var(ands[i].rhs0) <= maxvar && Lit2Var(ands[i].rhs1) <= maxvar
  {
  }

  lemma FileComplete(s: seq<nat>)
    ensures ParseFile(s).Read? ==> Complete(ParseFile(s).n)
  {
    if ParseFile(s).Read? {
      var (h, t) := Counts(s[4..]).value;
      SmallW32(h.inputs + h.latches + h.ands);
      BodyComplete(h, t);
    }
  }

  // ----- its types and its gates -----

  // The type of variable v in such an AIG.
  function TypeOf(i: nat, l: nat, v: nat): Type {
    if v == 0 then Type(false, false, false, false, false, 0)
    else if v <= i then Type(true, false, false, false, false, v - 1)
    else if v <= i + l then Type(false, true, false, false, false, v - i - 1)
    else Type(false, false, true, false, false, v - i - l - 1)
  }

  function TypesOf(n: Aig): (types: seq<Type>)
    ensures |types| == n.maxvar + 1
    ensures forall v :: 0 <= v <= n.maxvar ==> types[v] == TypeOf(|n.inputs|, |n.latches|, v)
  {
    seq(n.maxvar + 1, v requires 0 <= v <= n.maxvar => TypeOf(|n.inputs|, |n.latches|, v))
  }

  lemma CompleteTypes(n: Aig)
    requires Complete(n)
    ensures TypesMatch(n, TypesOf(n)) && AllDefined(n, TypesOf(n))
  {
    var types := TypesOf(n);
    forall i: nat | i < |n.inputs| ensures InputMatch(n, types, i) {
      assert Lit2Var(n.inputs[i]) == i + 1;
    }
    forall i: nat | i < |n.latches| ensures LatchMatch(n, types, i) {
      assert Lit2Var(n.latches[i].lit) == |n.inputs| + i + 1;
    }
    forall i: nat | i < |n.ands| ensures AndMatch(n, types, i) {
      assert Lit2Var(n.ands[i].lhs) == |n.inputs| + |n.latches| + i + 1;
    }
    forall v: nat | 1 <= v <= n.maxvar ensures TypeMatch(n, types[v], v) {
    }
    assert forall v: nat :: v <= n.maxvar ==> DefinedVar(types, n.maxvar, v);
  }

  // No AND has its own left-hand side on the right: no first delta is zero.
  ghost predicate Proper(n: Aig) {
    forall i :: 0 <= i < |n.ands| ==> n.ands[i].rhs0 != n.ands[i].lhs
  }

  ghost function OwnRank(n: Aig): map<nat, nat>
    requires Complete(n)
  {
    map v: nat | v <= n.maxvar && IsAnd(n, v) :: v
  }

  predicate IsAnd(n: Aig, v: nat) {
    |n.inputs| + |n.latches| < v
  }

  ghost function AndOf(n: Aig, v: nat): And
    requires Complete(n) && v <= n.maxvar && IsAnd(n, v)
  {
    n.ands[v - |n.inputs| - |n.latches| - 1]
  }

  lemma GateIs(n: Aig, types: seq<Type>, v: nat)
    requires TypesMatch(n, types) && AllDefined(n, types) && v <= n.maxvar
    ensures v < |types| && (types[v].and ==> types[v].idx < |n.ands|) && Gates(n, types)[v] == GateOf(types, n.ands, v)
  {
    DefinedFit(n, types);
  }

  lemma GateAt(n: Aig, v: nat)
    requires Complete(n) && v <= n.maxvar && TypesMatch(n, TypesOf(n)) && AllDefined(n, TypesOf(n))
    ensures Gates(n, TypesOf(n))[v] == if IsAnd(n, v) then Gate(Lit2Var(AndOf(n, v).rhs0), Lit2Var(AndOf(n, v).rhs1)) else Leaf
  {
    GateIs(n, TypesOf(n), v);
  }

  lemma ProperRanked(n: Aig)
    requires Complete(n) && Proper(n)
    ensures WellFormed(n, TypesOf(n))
  {
    CompleteTypes(n);
    var g, rank := Gates(n, TypesOf(n)), OwnRank(n);
    forall v: nat | IsGate(g, v) ensures v in rank {
      GateAt(n, v);
    }
    forall v: nat | v in rank ensures IsGate(g, v) && RankedAt(g, rank, v) {
      GateAt(n, v);
      var and := AndOf(n, v);
      assert and.lhs == Var2Lit(v) && and.rhs1 <= and.rhs0 < and.lhs;
      forall c: nat | IsChild(g, v, c) && IsGate(g, c) ensures c in rank && rank[c] < rank[v] {
        GateAt(n, c);
      }
    }
    assert RanksAll(g, rank);
  }

  lemma SelfLoop(n: Aig, i: nat)
    requires Complete(n) && i < |n.ands| && n.ands[i].rhs0 == n.ands[i].lhs
    ensures !WellFormed(n, TypesOf(n))
  {
    CompleteTypes(n);
    var g, v := Gates(n, TypesOf(n)), |n.inputs| + |n.latches| + i + 1;
    GateAt(n, v);
    assert Lit2Var(n.ands[i].rhs0) == v;
    assert IsChild(g, v, v);
    forall rank: map<nat, nat> ensures !RanksAll(g, rank) {
      assert v in rank ==> !RankedAt(g, rank, v);
    }
  }

  // A file that is read is well formed exactly when no first delta is zero.
  lemma ReadWellFormed(s: seq<nat>)
    requires ParseFile(s).Read?
    ensures (exists types :: WellFormed(ParseFile(s).n, types)) <==> Proper(ParseFile(s).n)
  {
    var n := ParseFile(s).n;
    FileComplete(s);
    CompleteTypes(n);
    WellFormedSome(n, TypesOf(n));
    if Proper(n) {
      ProperRanked(n);
    } else {
      var i: nat :| i < |n.ands| && n.ands[i].rhs0 == n.ands[i].lhs;
      SelfLoop(n, i);
    }
  }
}
