// Reduced ordered binary decision diagrams, as the BDD table keeps them: the
// largest variable is at the root, both terminals carry variable -1, a node
// never has two equal children and equal diagrams are one node.

module Bdd {

  datatype Bdd = False | True | Node(v: nat, hi: Bdd, lo: Bdd)

  // The set of variables that are true; every other variable is false.
  type Assignment = iset<nat>

  predicate Eval(f: Bdd, a: Assignment) {
    match f
    case False => false
    case True => true
    case Node(v, hi, lo) => if v in a then Eval(hi, a) else Eval(lo, a)
  }

  function Top(f: Bdd): (t: int)
  {
    if f.Node? then f.v else -1
  }

  predicate Robdd(f: Bdd) {
    f.Node? ==>
      && 1 <= f.v
      && Top(f.hi) < f.v && Top(f.lo) < f.v
      && f.hi != f.lo
      && Robdd(f.hi) && Robdd(f.lo)
  }

  function Support(f: Bdd): set<nat> {
    if f.Node? then {f.v} + Support(f.hi) + Support(f.lo) else {}
  }

  lemma {:induction false} SupportBelowTop(f: Bdd)
    requires Robdd(f)
    ensures forall v :: v in Support(f) ==> 1 <= v <= Top(f)
  {
    if f.Node? {
      SupportBelowTop(f.hi);
      SupportBelowTop(f.lo);
    }
  }

  // Two assignments that agree on the support give the same value.
  lemma {:induction false} EvalSupport(f: Bdd, a: Assignment, b: Assignment)
    requires forall v :: v in Support(f) ==> (v in a <==> v in b)
    ensures Eval(f, a) == Eval(f, b)
  {
    if f.Node? {
      assert f.v in Support(f);
      EvalSupport(f.hi, a, b);
      EvalSupport(f.lo, a, b);
    }
  }

  // ----- canonicity -----

  // Different reduced diagrams are told apart by some assignment to their
  // variables, so comparing pointers decides equivalence.
  lemma {:induction false} Distinguish(f: Bdd, g: Bdd) returns (a: Assignment)
    requires Robdd(f) && Robdd(g)
    requires f != g
    ensures Eval(f, a) != Eval(g, a)
    decreases f, g
  {
    if !f.Node? && !g.Node? {
      a := iset{};
    } else if f.Node? && Top(g) < f.v {
      var left := f.hi != g;
      a := Distinguish(if left then f.hi else f.lo, g);
      a := Steer(f, g, a, left);
    } else if g.Node? && Top(f) < g.v {
      var left := g.hi != f;
      a := Distinguish(f, if left then g.hi else g.lo);
      a := Steer(g, f, a, left);
    } else {
      var left := f.hi != g.hi;
      a := Distinguish(if left then f.hi else f.lo, if left then g.hi else g.lo);
      var b := if left then a + iset{f.v} else a - iset{f.v};
      BelowIrrelevant(if left then f.hi else f.lo, f.v, a, b);
      BelowIrrelevant(if left then g.hi else g.lo, f.v, a, b);
      a := b;
    }
  }

  lemma BelowIrrelevant(f: Bdd, v: nat, a: Assignment, b: Assignment)
    requires Robdd(f) && Top(f) < v
    requires forall w :: w != v ==> (w in a <==> w in b)
    ensures Eval(f, a) == Eval(f, b)
  {
    SupportBelowTop(f);
    EvalSupport(f, a, b);
  }

  lemma Steer(f: Bdd, g: Bdd, a: Assignment, left: bool) returns (b: Assignment)
    requires Robdd(f) && Robdd(g) && f.Node? && Top(g) < f.v
    requires Eval(if left then f.hi else f.lo, a) != Eval(g, a)
    ensures Eval(f, b) != Eval(g, b)
  {
    b := if left then a + iset{f.v} else a - iset{f.v};
    BelowIrrelevant(if left then f.hi else f.lo, f.v, a, b);
    BelowIrrelevant(g, f.v, a, b);
  }

  lemma Canonicity(f: Bdd, g: Bdd)
    requires Robdd(f) && Robdd(g)
    ensures f == g <==> forall a: Assignment :: Eval(f, a) == Eval(g, a)
  {
    if f != g {
      var a := Distinguish(f, g);
    }
  }

  // ----- the table's constructor and ite -----

  function MkNode(v: nat, hi: Bdd, lo: Bdd): (r: Bdd)
  {
    if hi == lo then hi else Node(v, hi, lo)
  }

  function Size(f: Bdd): nat {
    if f.Node? then 1 + Size(f.hi) + Size(f.lo) else 0
  }

  function Hi(f: Bdd, v: nat): (r: Bdd)
    ensures Size(r) <= Size(f) && (Top(f) == v ==> Size(r) < Size(f))
  {
    if f.Node? && f.v == v then f.hi else f
  }

  function Lo(f: Bdd, v: nat): (r: Bdd)
    ensures Size(r) <= Size(f) && (Top(f) == v ==> Size(r) < Size(f))
  {
    if f.Node? && f.v == v then f.lo else f
  }

  function Max(x: int, y: int): int { if x < y then y else x }

  function TopOf3(f: Bdd, g: Bdd, h: Bdd): nat
    requires f.Node?
  {
    Max(f.v, Max(Top(g), Top(h)))
  }

  // Shannon expansion on the largest top variable.  By Canonicity every
  // shortcut the table's ite takes returns this same node.
  function Ite(f: Bdd, g: Bdd, h: Bdd): Bdd
    decreases Size(f) + Size(g) + Size(h)
  {
    if f.True? then g
    else if f.False? then h
    else
      var v := TopOf3(f, g, h);
      MkNode(v, Ite(Hi(f, v), Hi(g, v), Hi(h, v)), Ite(Lo(f, v), Lo(g, v), Lo(h, v)))
  }

  // One step of the expansion, at a given value of the top variable.
  lemma HalfEval(f: Bdd, v: nat, a: Assignment)
    ensures v in a ==> Eval(Hi(f, v), a) == Eval(f, a)
    ensures v !in a ==> Eval(Lo(f, v), a) == Eval(f, a)
  {
  }

  lemma MkNodeEval(v: nat, hi: Bdd, lo: Bdd, a: Assignment)
    ensures Eval(MkNode(v, hi, lo), a) == if v in a then Eval(hi, a) else Eval(lo, a)
  {
  }

  lemma {:induction false} IteEval(f: Bdd, g: Bdd, h: Bdd, a: Assignment)
    ensures Eval(Ite(f, g, h), a) == if Eval(f, a) then Eval(g, a) else Eval(h, a)
    decreases Size(f) + Size(g) + Size(h)
  {
    if f.Node? {
      var v := TopOf3(f, g, h);
      HalfEval(f, v, a);
      HalfEval(g, v, a);
      HalfEval(h, v, a);
      var hi, lo := Ite(Hi(f, v), Hi(g, v), Hi(h, v)), Ite(Lo(f, v), Lo(g, v), Lo(h, v));
      assert Ite(f, g, h) == MkNode(v, hi, lo);
      MkNodeEval(v, hi, lo, a);
      if v in a {
        IteEval(Hi(f, v), Hi(g, v), Hi(h, v), a);
      } else {
        IteEval(Lo(f, v), Lo(g, v), Lo(h, v), a);
      }
    }
  }

  lemma HalfRobdd(f: Bdd, v: nat)
    requires Robdd(f) && Top(f) <= v
    ensures Robdd(Hi(f, v)) && Top(Hi(f, v)) < v && Support(Hi(f, v)) <= Support(f)
    ensures Robdd(Lo(f, v)) && Top(Lo(f, v)) < v && Support(Lo(f, v)) <= Support(f)
  {
  }

  lemma MkNodeRobdd(v: nat, hi: Bdd, lo: Bdd, s: set<nat>)
    requires v >= 1 && Robdd(hi) && Robdd(lo) && Top(hi) < v && Top(lo) < v
    requires v in s && Support(hi) <= s && Support(lo) <= s
    ensures Robdd(MkNode(v, hi, lo)) && Top(MkNode(v, hi, lo)) <= v && Support(MkNode(v, hi, lo)) <= s
  {
  }

  lemma TopInSupport(f: Bdd)
    ensures f.Node? ==> f.v in Support(f)
  {
  }

  lemma {:induction false} IteRobdd(f: Bdd, g: Bdd, h: Bdd)
    requires Robdd(f) && Robdd(g) && Robdd(h)
    ensures Robdd(Ite(f, g, h))
    ensures Top(Ite(f, g, h)) <= Max(Top(f), Max(Top(g), Top(h)))
    ensures Support(Ite(f, g, h)) <= Support(f) + Support(g) + Support(h)
    decreases Size(f) + Size(g) + Size(h)
  {
    if f.Node? {
      var v := TopOf3(f, g, h);
      var s := Support(f) + Support(g) + Support(h);
      TopInSupport(f);
      TopInSupport(g);
      TopInSupport(h);
      HalfRobdd(f, v);
      HalfRobdd(g, v);
      HalfRobdd(h, v);
      IteRobdd(Hi(f, v), Hi(g, v), Hi(h, v));
      IteRobdd(Lo(f, v), Lo(g, v), Lo(h, v));
      var hi, lo := Ite(Hi(f, v), Hi(g, v), Hi(h, v)), Ite(Lo(f, v), Lo(g, v), Lo(h, v));
      MkNodeRobdd(v, hi, lo, s);
      assert Ite(f, g, h) == MkNode(v, hi, lo);
    }
  }

  // ----- the operations of include/bdd_ite.h -----

  function Var(lit: int): Bdd
    requires lit != 0
  {
    if lit < 0 then Node(-lit, False, True) else Node(lit, True, False)
  }

  function Not(f: Bdd): Bdd { Ite(f, False, True) }
  function And(f: Bdd, g: Bdd): Bdd { Ite(f, g, False) }
  function Or(f: Bdd, g: Bdd): Bdd { Ite(f, True, g) }
  function Xor(f: Bdd, g: Bdd): Bdd { Ite(f, Not(g), g) }
  function Equ(f: Bdd, g: Bdd): Bdd { Not(Xor(f, g)) }
  function Itequ(x: Bdd, y: Bdd, z: Bdd, d: Bdd): Bdd { Equ(d, Ite(x, y, z)) }

  predicate LitTrue(lit: int, a: Assignment) {
    if lit < 0 then -lit !in a else lit in a
  }

  lemma OperatorsEval(f: Bdd, g: Bdd, a: Assignment)
    ensures Eval(Not(f), a) == !Eval(f, a)
    ensures Eval(And(f, g), a) == (Eval(f, a) && Eval(g, a))
    ensures Eval(Or(f, g), a) == (Eval(f, a) || Eval(g, a))
    ensures Eval(Xor(f, g), a) == (Eval(f, a) != Eval(g, a))
    ensures Eval(Equ(f, g), a) == (Eval(f, a) == Eval(g, a))
  {
    IteEval(f, False, True, a);
    IteEval(g, False, True, a);
    IteEval(f, g, False, a);
    IteEval(f, True, g, a);
    IteEval(f, Not(g), g, a);
    IteEval(Xor(f, g), False, True, a);
  }

  lemma AndRobdd(f: Bdd, g: Bdd)
    requires Robdd(f) && Robdd(g)
    ensures Robdd(And(f, g)) && Support(And(f, g)) <= Support(f) + Support(g)
  {
    IteRobdd(f, g, False);
  }

  // ----- existential quantification (src/utils/bdd.cc, _xquantify) -----

  function Exists(f: Bdd, v: nat): Bdd {
    if !f.Node? || v > f.v then f
    else if f.v == v then Or(f.hi, f.lo)
    else MkNode(f.v, Exists(f.hi, v), Exists(f.lo, v))
  }

  lemma {:induction false} ExistsEval(f: Bdd, v: nat, a: Assignment)
    requires Robdd(f)
    ensures Eval(Exists(f, v), a) <==> Eval(f, a + iset{v}) || Eval(f, a - iset{v})
  {
    if !f.Node? {
    } else if v > f.v {
      BelowIrrelevant(f, v, a, a + iset{v});
      BelowIrrelevant(f, v, a, a - iset{v});
    } else if f.v == v {
      OperatorsEval(f.hi, f.lo, a);
      BelowIrrelevant(f.hi, v, a, a + iset{v});
      BelowIrrelevant(f.lo, v, a, a - iset{v});
    } else {
      ExistsEval(f.hi, v, a);
      ExistsEval(f.lo, v, a);
    }
  }

  lemma {:induction false} ExistsRobdd(f: Bdd, v: nat)
    requires Robdd(f)
    ensures Robdd(Exists(f, v)) && Top(Exists(f, v)) <= Top(f)
    ensures Support(Exists(f, v)) <= Support(f) - {v}
  {
    SupportBelowTop(f);
    if !f.Node? || v > f.v {
    } else if f.v == v {
      SupportBelowTop(f.hi);
      SupportBelowTop(f.lo);
      IteRobdd(f.hi, True, f.lo);
    } else {
      ExistsRobdd(f.hi, v);
      ExistsRobdd(f.lo, v);
    }
  }

  // ----- fixing a variable (src/utils/bdd.cc, _set_variable) -----

  function SetVariable(f: Bdd, v: nat, torf: bool): Bdd {
    if !f.Node? || f.v < v then f
    else if f.v == v then if torf then f.hi else f.lo
    else MkNode(f.v, SetVariable(f.hi, v, torf), SetVariable(f.lo, v, torf))
  }

  function WithVariable(a: Assignment, v: nat, torf: bool): Assignment {
    if torf then a + iset{v} else a - iset{v}
  }

  lemma {:induction false} SetVariableEval(f: Bdd, v: nat, torf: bool, a: Assignment)
    requires Robdd(f)
    ensures Eval(SetVariable(f, v, torf), a) == Eval(f, WithVariable(a, v, torf))
  {
    if !f.Node? {
    } else if f.v < v {
      BelowIrrelevant(f, v, a, WithVariable(a, v, torf));
    } else if f.v == v {
      BelowIrrelevant(if torf then f.hi else f.lo, v, a, WithVariable(a, v, torf));
    } else {
      SetVariableEval(f.hi, v, torf, a);
      SetVariableEval(f.lo, v, torf, a);
    }
  }

  lemma {:induction false} SetVariableRobdd(f: Bdd, v: nat, torf: bool)
    requires Robdd(f)
    ensures Robdd(SetVariable(f, v, torf)) && Top(SetVariable(f, v, torf)) <= Top(f)
    ensures Support(SetVariable(f, v, torf)) <= Support(f) - {v}
  {
    SupportBelowTop(f);
    if !f.Node? || f.v < v {
    } else if f.v == v {
      SupportBelowTop(f.hi);
      SupportBelowTop(f.lo);
    } else {
      SetVariableRobdd(f.hi, v, torf);
      SetVariableRobdd(f.lo, v, torf);
    }
  }
}
