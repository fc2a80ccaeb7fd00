// XOR diagrams (src/utils/bdd.cc): nodes like those of a BDD, read as the variable
// times the then child plus the else child, over the field of two elements.

module XorDiagram {
  import opened Bdd

  predicate XEval(x: Bdd, a: Assignment) {
    match x
    case False => false
    case True => true
    case Node(v, t, e) => (v in a && XEval(t, a)) != XEval(e, a)
  }

  // Variables fall from the root, and none is multiplied by zero.
  predicate XForm(x: Bdd) {
    x.Node? ==>
      && 1 <= x.v && Top(x.hi) < x.v && Top(x.lo) < x.v
      && x.hi != False && XForm(x.hi) && XForm(x.lo)
  }

  function XddNot(x: Bdd): Bdd {
    match x
    case False => True
    case True => False
    case Node(v, t, e) => Node(v, t, XddNot(e))
  }

  function ReduceT(v: nat, x: Bdd): (r: Bdd)
    ensures Size(r) <= Size(x) && (Top(x) == v ==> Size(r) < Size(x))
  {
    if x.Node? && x.v == v then x.hi else False
  }

  function ReduceF(v: nat, x: Bdd): (r: Bdd)
    ensures Size(r) <= Size(x) && (Top(x) == v ==> Size(r) < Size(x))
  {
    if x.Node? && x.v == v then x.lo else x
  }

  function XNode(v: nat, t: Bdd, e: Bdd): Bdd {
    if t == False then e else Node(v, t, e)
  }

  function XddXor(x: Bdd, y: Bdd): Bdd
    decreases Size(x) + Size(y)
  {
    if x.False? then y
    else if y.False? then x
    else if x.True? then XddNot(y)
    else if y.True? then XddNot(x)
    else
      var v: nat := if x.v > y.v then x.v else y.v;
      var r := XddXor(ReduceT(v, x), ReduceT(v, y));
      var e := XddXor(ReduceF(v, x), ReduceF(v, y));
      XNode(v, r, e)
  }

  // bdd2xdd: f is v(f1 + f0) + f0.
  function ToXdd(f: Bdd): Bdd {
    match f
    case False => False
    case True => True
    case Node(v, hi, lo) =>
      var e := ToXdd(lo);
      var r := XddXor(ToXdd(hi), e);
      XNode(v, r, e)
  }

  lemma {:induction false} XddNotEval(x: Bdd, a: Assignment)
    ensures XEval(XddNot(x), a) == !XEval(x, a)
  {
    if x.Node? {
      XddNotEval(x.lo, a);
    }
  }

  lemma ReduceEval(v: nat, x: Bdd, a: Assignment)
    ensures XEval(x, a) == ((v in a && XEval(ReduceT(v, x), a)) != XEval(ReduceF(v, x), a))
  {
  }

  lemma {:induction false} XddXorEval(x: Bdd, y: Bdd, a: Assignment)
    ensures XEval(XddXor(x, y), a) == (XEval(x, a) != XEval(y, a))
    decreases Size(x) + Size(y)
  {
    if x.True? {
      XddNotEval(y, a);
    } else if y.True? {
      XddNotEval(x, a);
    } else if x.Node? && y.Node? {
      var v: nat := if x.v > y.v then x.v else y.v;
      ReduceEval(v, x, a);
      ReduceEval(v, y, a);
      XddXorEval(ReduceT(v, x), ReduceT(v, y), a);
      XddXorEval(ReduceF(v, x), ReduceF(v, y), a);
    }
  }

  // The diagram made from a BDD has the BDD's values.
  lemma {:induction false} ToXddEval(f: Bdd, a: Assignment)
    ensures XEval(ToXdd(f), a) == Eval(f, a)
  {
    if f.Node? {
      ToXddEval(f.hi, a);
      ToXddEval(f.lo, a);
      XddXorEval(ToXdd(f.hi), ToXdd(f.lo), a);
    }
  }

  lemma {:induction false} XddNotForm(x: Bdd)
    requires XForm(x)
    ensures XForm(XddNot(x)) && Top(XddNot(x)) == Top(x) && Support(XddNot(x)) == Support(x)
  {
    if x.Node? {
      XddNotForm(x.lo);
    }
  }

  lemma ReduceForm(v: nat, x: Bdd)
    requires XForm(x) && Top(x) <= v
    ensures XForm(ReduceT(v, x)) && Top(ReduceT(v, x)) < v && Support(ReduceT(v, x)) <= Support(x)
    ensures XForm(ReduceF(v, x)) && Top(ReduceF(v, x)) < v && Support(ReduceF(v, x)) <= Support(x)
  {
  }

  lemma XNodeForm(v: nat, t: Bdd, e: Bdd, s: set<nat>)
    requires v >= 1 && XForm(t) && XForm(e) && Top(t) < v && Top(e) < v
    requires v in s && Support(t) <= s && Support(e) <= s
    ensures XForm(XNode(v, t, e)) && Top(XNode(v, t, e)) <= v && Support(XNode(v, t, e)) <= s
  {
  }

  lemma {:induction false} XddXorForm(x: Bdd, y: Bdd)
    requires XForm(x) && XForm(y)
    ensures XForm(XddXor(x, y)) && Top(XddXor(x, y)) <= Max(Top(x), Top(y))
    ensures Support(XddXor(x, y)) <= Support(x) + Support(y)
    decreases Size(x) + Size(y)
  {
    if x.True? {
      XddNotForm(y);
    } else if y.True? {
      XddNotForm(x);
    } else if x.Node? && y.Node? {
      var v: nat := if x.v > y.v then x.v else y.v;
      ReduceForm(v, x);
      ReduceForm(v, y);
      XddXorForm(ReduceT(v, x), ReduceT(v, y));
      XddXorForm(ReduceF(v, x), ReduceF(v, y));
      TopInSupport(x);
      TopInSupport(y);
      var r, e := XddXor(ReduceT(v, x), ReduceT(v, y)), XddXor(ReduceF(v, x), ReduceF(v, y));
      assert XddXor(x, y) == XNode(v, r, e);
      XNodeForm(v, r, e, Support(x) + Support(y));
    }
  }

  lemma {:induction false} ToXddForm(f: Bdd)
    requires Robdd(f)
    ensures XForm(ToXdd(f)) && Top(ToXdd(f)) <= Top(f) && Support(ToXdd(f)) <= Support(f)
  {
    if f.Node? {
      ToXddForm(f.hi);
      ToXddForm(f.lo);
      XddXorForm(ToXdd(f.hi), ToXdd(f.lo));
      XNodeForm(f.v, XddXor(ToXdd(f.hi), ToXdd(f.lo)), ToXdd(f.lo), Support(f));
    }
  }

  // Only the constants become constants.
  lemma ToXddInner(f: Bdd)
    requires Robdd(f) && f.Node?
    ensures ToXdd(f).Node?
  {
    var c := if ToXdd(f).True? then True else False;
    if ToXdd(f) == c {
      forall a: Assignment ensures Eval(f, a) == Eval(c, a) {
        ToXddEval(f, a);
      }
      Canonicity(f, c);
    }
  }
}
