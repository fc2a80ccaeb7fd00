// The symbol table of the XOR reader (src/formats/xorbdd.cc) and what products,
// equations and cut-out products say about variables known by name.

module XorNames {
  import opened Bdd
  import opened Decimals
  import opened XorText

  // ----- the table: the name with number i is table[i - 1] -----

  ghost predicate Distinct(table: seq<Name>) {
    forall i, j {:trigger DifferentAt(table, i, j)} :: 0 <= i < j < |table| ==> DifferentAt(table, i, j)
  }

  ghost predicate DifferentAt(table: seq<Name>, i: int, j: int)
    requires 0 <= i < j < |table|
  {
    table[i] != table[j]
  }

  // Zero stands for a name that is not there.
  function Find(table: seq<Name>, n: Name): (i: nat)
    ensures i <= |table| && (i > 0 ==> table[i - 1] == n) && (i == 0 <==> n !in table)
  {
    if table == [] then 0
    else if table[|table| - 1] == n then |table|
    else Find(table[..|table| - 1], n)
  }

  // i_getsym.
  function Enter(table: seq<Name>, n: Name): seq<Name> {
    if n in table then table else table + [n]
  }

  function EnterAll(table: seq<Name>, names: seq<Name>): seq<Name> {
    if names == [] then table else Enter(EnterAll(table, names[..|names| - 1]), names[|names| - 1])
  }

  lemma EnterKeeps(table: seq<Name>, n: Name)
    requires Distinct(table)
    ensures Distinct(Enter(table, n)) && table <= Enter(table, n)
  {
    var more := Enter(table, n);
    forall i, j | 0 <= i < j < |more| ensures DifferentAt(more, i, j) {
      if j < |table| {
        assert DifferentAt(table, i, j);
      }
    }
  }

  lemma {:induction false} EnterAllKeeps(table: seq<Name>, names: seq<Name>)
    requires Distinct(table)
    ensures Distinct(EnterAll(table, names)) && table <= EnterAll(table, names)
    ensures forall n :: n in EnterAll(table, names) <==> n in table || n in names
  {
    if names != [] {
      EnterAllKeeps(table, names[..|names| - 1]);
      assert names == names[..|names| - 1] + [names[|names| - 1]];
      EnterKeeps(EnterAll(table, names[..|names| - 1]), names[|names| - 1]);
    }
  }

  lemma EnterAllMore(table: seq<Name>, names: seq<Name>, n: Name)
    ensures EnterAll(table, names + [n]) == Enter(EnterAll(table, names), n)
  {
    assert (names + [n])[..|names|] == names;
  }

  lemma {:induction false} EnterAllSplit(table: seq<Name>, names: seq<Name>, more: seq<Name>)
    ensures EnterAll(table, names + more) == EnterAll(EnterAll(table, names), more)
  {
    if more == [] {
      assert names + more == names;
    } else {
      EnterAllSplit(table, names, more[..|more| - 1]);
      EnterAllMore(table, names + more[..|more| - 1], more[|more| - 1]);
      assert names + more == names + more[..|more| - 1] + [more[|more| - 1]];
    }
  }

  lemma FindStays(table: seq<Name>, table': seq<Name>, n: Name)
    requires Distinct(table') && table <= table' && n in table
    ensures Find(table', n) == Find(table, n)
  {
    assert table'[Find(table, n) - 1] == n == table'[Find(table', n) - 1];
    OnePlace(table', Find(table, n) - 1, Find(table', n) - 1);
  }

  lemma OnePlace(table: seq<Name>, i: nat, j: nat)
    requires Distinct(table) && i < |table| && j < |table| && table[i] == table[j]
    ensures i == j
  {
    assert i < j ==> DifferentAt(table, i, j);
    assert j < i ==> DifferentAt(table, j, i);
  }

  // ----- worlds: the names that are true -----

  type World = iset<Name>

  ghost function Under(table: seq<Name>, w: World): Assignment {
    iset i: nat | TrueAt(table, i, w)
  }

  ghost predicate TrueAt(table: seq<Name>, i: nat, w: World) {
    1 <= i <= |table| && table[i - 1] in w
  }

  ghost predicate NamesTrue(p: seq<Name>, w: World) {
    forall k :: 0 <= k < |p| ==> p[k] in w
  }

  // The sum of the products.
  ghost function Odd(ps: seq<seq<Name>>, w: World): bool {
    if ps == [] then false else Odd(ps[..|ps| - 1], w) != NamesTrue(ps[|ps| - 1], w)
  }

  ghost predicate Satisfied(e: Equation, w: World) {
    Odd(e.products, w) == e.one
  }

  lemma OddMore(ps: seq<seq<Name>>, p: seq<Name>, w: World)
    ensures Odd(ps + [p], w) == (Odd(ps, w) != NamesTrue(p, w))
  {
    assert (ps + [p])[..|ps|] == ps;
  }

  // ----- products as diagrams -----

  ghost predicate Known(table: seq<Name>, p: seq<Name>) {
    p != [] && forall k :: 0 <= k < |p| ==> p[k] in table
  }

  // The first variable is conjoined with every variable of the product.
  ghost function ProductBdd(table: seq<Name>, p: seq<Name>): Bdd
    requires Known(table, p)
  {
    And(if |p| == 1 then Var(Find(table, p[0])) else ProductBdd(table, p[..|p| - 1]), Var(Find(table, p[|p| - 1])))
  }

  // Reduced, over the variables of the table.
  ghost predicate Over(f: Bdd, size: nat) {
    Robdd(f) && forall v :: v in Support(f) ==> v <= size
  }

  lemma VarValue(table: seq<Name>, n: Name, w: World)
    requires n in table
    ensures Eval(Var(Find(table, n)), Under(table, w)) <==> n in w
    ensures Over(Var(Find(table, n)), |table|)
  {
  }

  lemma AndOver(f: Bdd, g: Bdd, size: nat)
    requires Over(f, size) && Over(g, size)
    ensures Over(And(f, g), size)
  {
    AndRobdd(f, g);
  }

  lemma NamesTrueMore(p: seq<Name>, w: World)
    requires p != []
    ensures NamesTrue(p, w) <==> NamesTrue(p[..|p| - 1], w) && p[|p| - 1] in w
  {
  }

  lemma {:induction false} ProductValue(table: seq<Name>, p: seq<Name>, w: World)
    requires Known(table, p)
    ensures Eval(ProductBdd(table, p), Under(table, w)) <==> NamesTrue(p, w)
    ensures Over(ProductBdd(table, p), |table|)
  {
    var last := Var(Find(table, p[|p| - 1]));
    var front := if |p| == 1 then Var(Find(table, p[0])) else ProductBdd(table, p[..|p| - 1]);
    VarValue(table, p[|p| - 1], w);
    VarValue(table, p[0], w);
    if |p| > 1 {
      ProductValue(table, p[..|p| - 1], w);
    }
    OperatorsEval(front, last, Under(table, w));
    AndOver(front, last, |table|);
    NamesTrueMore(p, w);
  }

  lemma {:induction false} ProductBddStays(table: seq<Name>, table': seq<Name>, p: seq<Name>)
    requires Known(table, p) && Distinct(table') && table <= table'
    ensures Known(table', p) && ProductBdd(table', p) == ProductBdd(table, p)
  {
    FindStays(table, table', p[0]);
    FindStays(table, table', p[|p| - 1]);
    if |p| > 1 {
      ProductBddStays(table, table', p[..|p| - 1]);
    }
    forall k | 0 <= k < |p| ensures p[k] in table' {
      assert p[k] in table;
    }
  }

  // A diagram over the old table has the same value under the new one.
  lemma Grown(f: Bdd, table: seq<Name>, table': seq<Name>, w: World)
    requires Over(f, |table|) && table <= table'
    ensures Eval(f, Under(table', w)) == Eval(f, Under(table, w)) && Over(f, |table'|)
  {
    SupportBelowTop(f);
    EvalSupport(f, Under(table', w), Under(table, w));
  }

  // ----- products of two variables or more -----

  predicate Long(p: seq<Name>) {
    p != [] && exists k :: 0 <= k < |p| && p[k] != p[0]
  }

  // The test of the reader: the walk over then children is longer than one.
  predicate TwoDeep(f: Bdd) {
    f.Node? && f.hi.Node?
  }

  lemma LongIsTwoDeep(table: seq<Name>, p: seq<Name>)
    requires Known(table, p) && Distinct(table)
    ensures TwoDeep(ProductBdd(table, p)) <==> Long(p)
  {
    var f := ProductBdd(table, p);
    ProductValue(table, p, iset{});
    if Long(p) {
      var k :| 0 <= k < |p| && p[k] != p[0];
      LongDeep(table, p, k);
    } else {
      SingleVariable(table, p);
    }
  }

  // A product of equal names is a variable.
  lemma {:induction false} SingleVariable(table: seq<Name>, p: seq<Name>)
    requires Known(table, p) && !Long(p)
    ensures ProductBdd(table, p) == Var(Find(table, p[0]))
  {
    var x := Var(Find(table, p[0]));
    assert p[|p| - 1] == p[0];
    if |p| > 1 {
      var front := p[..|p| - 1];
      assert forall k :: 0 <= k < |front| ==> front[k] == p[k];
      SingleVariable(table, front);
    }
    assert And(x, x) == x by {
      assert Ite(True, True, False) == True && Ite(False, False, False) == False;
    }
  }

  // With two different names no then child of the root is a constant.
  lemma LongDeep(table: seq<Name>, p: seq<Name>, k: nat)
    requires Known(table, p) && Distinct(table) && k < |p| && p[k] != p[0]
    ensures TwoDeep(ProductBdd(table, p))
  {
    var f := ProductBdd(table, p);
    var all: World := iset n | n in p;
    ProductValue(table, p, all);
    ProductValue(table, p, iset{});
    assert p[0] in p && NamesTrue(p, all) && p[0] !in iset{};
    assert !NamesTrue(p, iset{});
    assert f.Node?;
    assert f.v in Support(f);
    var n := table[f.v - 1];
    var one: World := iset{n};
    ProductValue(table, p, one);
    assert !NamesTrue(p, one);
    assert f.v in Under(table, one);
    assert !f.hi.True?;
    if f.hi.False? {
      assert f.v !in Under(table, all);
      OutsideIrrelevant(table, p, n, all);
    }
  }

  // A name outside the product may be made true.
  lemma OutsideIrrelevant(table: seq<Name>, p: seq<Name>, n: Name, w: World)
    requires Known(table, p) && NamesTrue(p, w)
    ensures Eval(ProductBdd(table, p), Under(table, w + iset{n}))
  {
    ProductValue(table, p, w + iset{n});
  }
}
