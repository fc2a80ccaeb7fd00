// XOR diagrams as sums of products (src/formats/xorbdd.cc): flattening and
// complementing the list of products.

module XorFlat {
  import opened Arithmetic
  import opened Bdd
  import opened XorDiagram

  // The variables of a product; -1 alone is the constant one.
  type Product = seq<int>

  ghost predicate ProductTrue(p: Product, a: Assignment) {
    forall k :: 0 <= k < |p| && p[k] != -1 ==> p[k] in a
  }

  ghost function Sum(ps: seq<Product>, a: Assignment): bool {
    if ps == [] then false else Sum(ps[..|ps| - 1], a) != ProductTrue(ps[|ps| - 1], a)
  }

  function Multiply(p: Product, v: nat): Product {
    if p == [-1] then [v] else p + [v]
  }

  function MultiplyAll(ps: seq<Product>, v: nat): seq<Product> {
    seq(|ps|, (i: nat) requires i < |ps| => Multiply(ps[i], v))
  }

  function Flat(x: Bdd): seq<Product> {
    match x
    case False => []
    case True => [[-1]]
    case Node(v, t, e) => MultiplyAll(Flat(t), v) + Flat(e)
  }

  // ----- value -----

  lemma {:induction false} SumAppend(ps: seq<Product>, qs: seq<Product>, a: Assignment)
    ensures Sum(ps + qs, a) == (Sum(ps, a) != Sum(qs, a))
  {
    if qs == [] {
      assert ps + qs == ps;
    } else {
      var all := ps + qs;
      assert all[..|all| - 1] == ps + qs[..|qs| - 1] && all[|all| - 1] == qs[|qs| - 1];
      SumAppend(ps, qs[..|qs| - 1], a);
    }
  }

  lemma MultiplyTrue(p: Product, v: nat, a: Assignment)
    ensures ProductTrue(Multiply(p, v), a) == (v in a && ProductTrue(p, a))
  {
    var q := Multiply(p, v);
    assert q[|q| - 1] == v;
    if ProductTrue(q, a) {
      forall k | 0 <= k < |p| && p[k] != -1 ensures p[k] in a {
        assert q[k] == p[k];
      }
    }
  }

  lemma {:induction false} SumMultiply(ps: seq<Product>, v: nat, a: Assignment)
    ensures Sum(MultiplyAll(ps, v), a) == (v in a && Sum(ps, a))
  {
    if ps != [] {
      var front, qs := ps[..|ps| - 1], MultiplyAll(ps, v);
      assert qs[..|qs| - 1] == MultiplyAll(front, v);
      SumMultiply(front, v, a);
      MultiplyTrue(ps[|ps| - 1], v, a);
    }
  }

  // Flattening keeps the value.
  lemma {:induction false} FlatValue(x: Bdd, a: Assignment)
    ensures Sum(Flat(x), a) == XEval(x, a)
  {
    match x {
      case False =>
      case True =>
        assert ProductTrue([-1], a);
        assert [[-1]][..0] == [];
      case Node(v, t, e) =>
        SumAppend(MultiplyAll(Flat(t), v), Flat(e), a);
        SumMultiply(Flat(t), v, a);
        FlatValue(t, a);
        FlatValue(e, a);
    }
  }

  // ----- shape -----

  // Variables from s, each larger than the one before.
  ghost predicate Monomial(p: Product, s: set<nat>) {
    |p| > 0 && (forall i :: 0 <= i < |p| ==> p[i] >= 1 && p[i] in s) && forall i, j :: 0 <= i < j < |p| ==> p[i] < p[j]
  }

  // Only the last product may be the constant.
  ghost predicate Shaped(ps: seq<Product>, s: set<nat>) {
    forall i {:trigger ShapedAt(ps, s, i)} :: 0 <= i < |ps| ==> ShapedAt(ps, s, i)
  }

  ghost predicate ShapedAt(ps: seq<Product>, s: set<nat>, i: int)
    requires 0 <= i < |ps|
  {
    Monomial(ps[i], s) || (i == |ps| - 1 && ps[i] == [-1])
  }

  lemma MultiplyMonomial(p: Product, v: nat, s: set<nat>, r: set<nat>)
    requires (Monomial(p, s) || p == [-1]) && v >= 1 && v in r && s <= r && forall w :: w in s ==> w < v
    ensures Monomial(Multiply(p, v), r)
  {
  }

  lemma {:induction false} FlatShaped(x: Bdd)
    requires XForm(x)
    ensures Shaped(Flat(x), Support(x)) && (Flat(x) == [] <==> x.False?)
    ensures x.Node? ==> Flat(x)[0] != [-1]
  {
    match x {
      case False =>
      case True =>
      case Node(v, t, e) =>
        FlatShaped(t);
        FlatShaped(e);
        BelowTop(t);
        var ps, qs := MultiplyAll(Flat(t), v), Flat(e);
        forall i | 0 <= i < |ps + qs| ensures ShapedAt(ps + qs, Support(x), i) {
          if i < |ps| {
            assert ShapedAt(Flat(t), Support(t), i);
            MultiplyMonomial(Flat(t)[i], v, Support(t), Support(x));
          } else {
            assert ShapedAt(qs, Support(e), i - |ps|);
          }
        }
        assert ShapedAt(Flat(t), Support(t), 0);
        MultiplyMonomial(Flat(t)[0], v, Support(t), Support(x));
        assert Flat(x)[0] == ps[0] && ps[0][0] >= 1;
    }
  }

  lemma {:induction false} BelowTop(x: Bdd)
    requires XForm(x)
    ensures forall w :: w in Support(x) ==> 1 <= w <= Top(x)
  {
    if x.Node? {
      BelowTop(x.hi);
      BelowTop(x.lo);
    }
  }

  // A product fits an array with one place for each variable.
  lemma {:induction false} MonomialFits(p: Product, s: set<nat>)
    requires Monomial(p, s)
    ensures |p| <= |s|
  {
    var front, last: nat := p[..|p| - 1], p[|p| - 1];
    if front != [] {
      MonomialFits(front, s - {last});
    }
  }

  lemma FlatFits(x: Bdd, size: nat)
    requires XForm(x) && |Support(x)| <= size
    ensures forall i :: 0 <= i < |Flat(x)| && Flat(x)[i] != [-1] ==> |Flat(x)[i]| <= size
  {
    FlatShaped(x);
    forall i | 0 <= i < |Flat(x)| && Flat(x)[i] != [-1] ensures |Flat(x)[i]| <= size {
      assert ShapedAt(Flat(x), Support(x), i);
      MonomialFits(Flat(x)[i], Support(x));
    }
  }

  // The variable goes into every product of the list.
  method MultiplyInto(was: seq<Product>, v: nat) returns (top: seq<Product>)
    ensures top == MultiplyAll(was, v)
  {
    top := was;
    var tmp := 0;
    while tmp < |top|
      invariant 0 <= tmp <= |top| == |was|
      invariant forall i :: 0 <= i < tmp ==> top[i] == Multiply(was[i], v)
      invariant forall i :: tmp <= i < |top| ==> top[i] == was[i]
    {
      if |top[tmp]| == 1 && top[tmp][0] == -1 {
        top := top[tmp := [v]];
      } else {
        top := top[tmp := top[tmp] + [v]];
      }
      tmp := tmp + 1;
    }
  }

  // get_flat_xdd; the list of false is the null pointer.
  method GetFlatXdd(xdd: Bdd, size: nat) returns (top: seq<Product>)
    requires XForm(xdd) && |Support(xdd)| <= size
    ensures top == Flat(xdd)
    ensures forall i :: 0 <= i < |top| && top[i] != [-1] ==> |top[i]| <= size
    decreases xdd
  {
    FlatShaped(xdd);
    if xdd.True? {
      return [[-1]];
    } else if xdd.False? {
      return [];
    }
    SmallerSupport(xdd);
    top := GetFlatXdd(xdd.hi, size);
    top := MultiplyInto(top, xdd.v);
    if xdd.lo != False {
      var rest := GetFlatXdd(xdd.lo, size);
      top := top + rest;
    }
    FlatFits(xdd, size);
  }

  lemma SmallerSupport(x: Bdd)
    requires x.Node?
    ensures |Support(x.hi)| <= |Support(x)| && |Support(x.lo)| <= |Support(x)|
  {
    SubsetSize(Support(x.hi), Support(x));
    SubsetSize(Support(x.lo), Support(x));
  }

  // ----- complement -----

  function Inverted(ps: seq<Product>): seq<Product>
    requires ps != []
  {
    if |ps| >= 2 && ps[|ps| - 1] != [] && ps[|ps| - 1][|ps[|ps| - 1]| - 1] == -1 then ps[..|ps| - 1] else ps + [[-1]]
  }

  // invert_xor_of_ands.
  method InvertXorOfAnds(top: seq<Product>) returns (r: seq<Product>)
    requires top != [] && forall i :: 0 <= i < |top| ==> top[i] != []
    ensures r == Inverted(top)
  {
    var tmp := 0;
    while tmp + 1 < |top| && !(tmp + 2 == |top| && top[tmp + 1][|top[tmp + 1]| - 1] == -1)
      invariant 0 <= tmp < |top|
      invariant tmp + 1 == |top| && tmp > 0 ==> top[tmp][|top[tmp]| - 1] != -1
    {
      tmp := tmp + 1;
    }
    if tmp + 1 == |top| {
      r := top + [[-1]];
    } else {
      r := top[..tmp + 1];
    }
  }

  lemma InvertedValue(ps: seq<Product>, s: set<nat>, a: Assignment)
    requires ps != [] && Shaped(ps, s)
    ensures Sum(Inverted(ps), a) == !Sum(ps, a)
  {
    assert ShapedAt(ps, s, |ps| - 1);
    assert ProductTrue([-1], a);
    if Inverted(ps) == ps + [[-1]] {
      var qs := ps + [[-1]];
      assert qs[..|qs| - 1] == ps;
    }
  }

  lemma InvertedShaped(ps: seq<Product>, s: set<nat>)
    requires ps != [] && Shaped(ps, s) && ps[0] != [-1]
    ensures Inverted(ps) != [] && Shaped(Inverted(ps), s) && Inverted(ps)[0] != [-1]
  {
    assert ShapedAt(ps, s, |ps| - 1);
    var qs := Inverted(ps);
    forall i | 0 <= i < |qs| ensures ShapedAt(qs, s, i) {
      if i < |ps| {
        assert ShapedAt(ps, s, i);
      }
    }
  }
}
