// xorloop (src/formats/xorbdd.cc): the functions made of the equations of a file.
// When ten products of an equation or more have two variables, each of these is cut
// out: it becomes a function of its own that defines a new variable.

module XorReader {
  import opened Basics
  import opened Bdd
  import opened Decimals
  import opened XorText
  import opened XorNames
  import opened XorScanner

  const MAX_LONG: nat := 10

  datatype Cut = Cut(name: Name, product: seq<Name>)

  ghost predicate CutsHold(cuts: seq<Cut>, w: World) {
    forall k :: 0 <= k < |cuts| ==> CutHolds(cuts[k], w)
  }

  ghost predicate CutHolds(cut: Cut, w: World) {
    cut.name in w <==> NamesTrue(cut.product, w)
  }

  ghost predicate AllHold(fs: seq<Bdd>, a: Assignment) {
    forall k :: 0 <= k < |fs| ==> Eval(fs[k], a)
  }

  // The long products under the next new names.
  function CutsOf(ps: seq<seq<Name>>, temps: nat): seq<Cut> {
    if ps == [] then []
    else
      var cuts, p := CutsOf(ps[..|ps| - 1], temps), ps[|ps| - 1];
      if Long(p) then cuts + [Cut(Decimal(temps + |cuts|), p)] else cuts
  }

  function NewCuts(ps: seq<seq<Name>>, temps: nat): seq<Cut> {
    if |CutsOf(ps, temps)| < MAX_LONG then [] else CutsOf(ps, temps)
  }

  function CutNames(cuts: seq<Cut>): seq<Name> {
    seq(|cuts|, (k: nat) requires k < |cuts| => cuts[k].name)
  }

  function Names(ps: seq<seq<Name>>): seq<Name> {
    if ps == [] then [] else Names(ps[..|ps| - 1]) + ps[|ps| - 1]
  }

  predicate SmallIds(table: seq<Name>, names: seq<Name>, limit: nat) {
    forall k :: 0 <= k < |names| ==> Find(table, names[k]) <= limit
  }

  // ----- what the functions made so far say -----

  // f has the value of the sum of ps, where the cuts hold.
  ghost predicate Means(f: Bdd, table: seq<Name>, ps: seq<seq<Name>>, cuts: seq<Cut>) {
    Over(f, |table|) && forall w: World {:trigger MeansAt(f, table, ps, cuts, w)} :: MeansAt(f, table, ps, cuts, w)
  }

  ghost predicate MeansAt(f: Bdd, table: seq<Name>, ps: seq<seq<Name>>, cuts: seq<Cut>, w: World) {
    CutsHold(cuts, w) ==> Eval(f, Under(table, w)) == Odd(ps, w)
  }

  // The functions say what those before said, and that the cuts hold.
  ghost predicate Adds(fs0: seq<Bdd>, table0: seq<Name>, fs: seq<Bdd>, table: seq<Name>, cuts: seq<Cut>) {
    forall w: World {:trigger AddsAt(fs0, table0, fs, table, cuts, w)} :: AddsAt(fs0, table0, fs, table, cuts, w)
  }

  ghost predicate AddsAt(fs0: seq<Bdd>, table0: seq<Name>, fs: seq<Bdd>, table: seq<Name>, cuts: seq<Cut>, w: World) {
    AllHold(fs, Under(table, w)) <==> AllHold(fs0, Under(table0, w)) && CutsHold(cuts, w)
  }

  ghost predicate AllOver(fs: seq<Bdd>, size: nat) {
    forall k {:trigger OverAt(fs, size, k)} :: 0 <= k < |fs| ==> OverAt(fs, size, k)
  }

  ghost predicate OverAt(fs: seq<Bdd>, size: nat, k: int)
    requires 0 <= k < |fs|
  {
    Over(fs[k], size)
  }

  lemma AllOverMore(fs: seq<Bdd>, size: nat, f: Bdd)
    requires AllOver(fs, size) && Over(f, size)
    ensures AllOver(fs + [f], size)
  {
    forall k | 0 <= k < |fs + [f]| ensures OverAt(fs + [f], size, k) {
      assert k < |fs| ==> OverAt(fs, size, k);
    }
  }

  lemma AllGrown(fs: seq<Bdd>, table: seq<Name>, table': seq<Name>, w: World)
    requires AllOver(fs, |table|) && table <= table'
    ensures AllHold(fs, Under(table', w)) <==> AllHold(fs, Under(table, w))
    ensures AllOver(fs, |table'|)
  {
    forall k | 0 <= k < |fs|
      ensures Eval(fs[k], Under(table', w)) == Eval(fs[k], Under(table, w)) && OverAt(fs, |table'|, k)
    {
      assert OverAt(fs, |table|, k);
      Grown(fs[k], table, table', w);
    }
  }

  lemma HoldMore(fs: seq<Bdd>, f: Bdd, a: Assignment)
    ensures AllHold(fs + [f], a) <==> AllHold(fs, a) && Eval(f, a)
  {
    var more := fs + [f];
    assert more[|fs|] == f && forall k :: 0 <= k < |fs| ==> more[k] == fs[k];
  }

  lemma CutsHoldMore(cuts: seq<Cut>, cut: Cut, w: World)
    ensures CutsHold(cuts + [cut], w) <==> CutsHold(cuts, w) && CutHolds(cut, w)
  {
    var more := cuts + [cut];
    assert more[|cuts|] == cut && forall k :: 0 <= k < |cuts| ==> more[k] == cuts[k];
  }

  lemma XorOver(f: Bdd, g: Bdd, size: nat)
    requires Over(f, size) && Over(g, size)
    ensures Over(Not(f), size) && Over(Xor(f, g), size) && Over(Equ(f, g), size)
  {
    IteRobdd(f, False, True);
    IteRobdd(g, False, True);
    IteRobdd(f, Not(g), g);
    IteRobdd(Xor(f, g), False, True);
  }

  // One more summand g, worth the product p where the cuts hold.
  lemma MeansOne(f: Bdd, table: seq<Name>, ps: seq<seq<Name>>, cuts: seq<Cut>, p: seq<Name>, g: Bdd)
    requires Means(f, table, ps, cuts) && Known(table, p)
    requires g == ProductBdd(table, p)
    ensures Means(Xor(f, g), table, ps + [p], cuts)
  {
    ProductValue(table, p, iset{});
    XorOver(f, g, |table|);
    forall w: World ensures MeansAt(Xor(f, g), table, ps + [p], cuts, w) {
      assert MeansAt(f, table, ps, cuts, w);
      ProductValue(table, p, w);
      OperatorsEval(f, g, Under(table, w));
      OddMore(ps, p, w);
    }
  }

  // A product replaced by its new variable.
  lemma MeansCut(f: Bdd, table: seq<Name>, ps: seq<seq<Name>>, cuts: seq<Cut>, cut: Cut, table': seq<Name>)
    requires Means(f, table, ps, cuts) && table <= table' && cut.name in table'
    ensures Means(Xor(f, Var(Find(table', cut.name))), table', ps + [cut.product], cuts + [cut])
  {
    var x := Var(Find(table', cut.name));
    VarValue(table', cut.name, iset{});
    Grown(f, table, table', iset{});
    XorOver(f, x, |table'|);
    forall w: World ensures MeansAt(Xor(f, x), table', ps + [cut.product], cuts + [cut], w) {
      assert MeansAt(f, table, ps, cuts, w);
      Grown(f, table, table', w);
      VarValue(table', cut.name, w);
      OperatorsEval(f, x, Under(table', w));
      OddMore(ps, cut.product, w);
      CutsHoldMore(cuts, cut, w);
    }
  }

  // The function that defines the new variable.
  lemma AddsCut(fs0: seq<Bdd>, table0: seq<Name>, fs: seq<Bdd>, table: seq<Name>, cuts: seq<Cut>, cut: Cut, table': seq<Name>)
    requires Adds(fs0, table0, fs, table, cuts) && AllOver(fs, |table|) && table <= table' && Distinct(table')
    requires cut.name in table' && Known(table, cut.product)
    ensures var f := Equ(Var(Find(table', cut.name)), ProductBdd(table, cut.product));
            Adds(fs0, table0, fs + [f], table', cuts + [cut]) && AllOver(fs + [f], |table'|)
  {
    var x, g := Var(Find(table', cut.name)), ProductBdd(table, cut.product);
    ProductBddStays(table, table', cut.product);
    VarValue(table', cut.name, iset{});
    ProductValue(table', cut.product, iset{});
    XorOver(x, g, |table'|);
    AllGrown(fs, table, table', iset{});
    AllOverMore(fs, |table'|, Equ(x, g));
    forall w: World ensures AddsAt(fs0, table0, fs + [Equ(x, g)], table', cuts + [cut], w) {
      assert AddsAt(fs0, table0, fs, table, cuts, w);
      AllGrown(fs, table, table', w);
      HoldMore(fs, Equ(x, g), Under(table', w));
      OperatorsEval(x, g, Under(table', w));
      VarValue(table', cut.name, w);
      ProductValue(table', cut.product, w);
      CutsHoldMore(cuts, cut, w);
    }
  }

  // The functions after an equation.
  ghost predicate Extends(fs0: seq<Bdd>, table0: seq<Name>, fs: seq<Bdd>, table: seq<Name>, cuts: seq<Cut>, e: Equation) {
    forall w: World {:trigger ExtendsAt(fs0, table0, fs, table, cuts, e, w)} :: ExtendsAt(fs0, table0, fs, table, cuts, e, w)
  }

  ghost predicate ExtendsAt(fs0: seq<Bdd>, table0: seq<Name>, fs: seq<Bdd>, table: seq<Name>, cuts: seq<Cut>, e: Equation, w: World) {
    AllHold(fs, Under(table, w)) <==> AllHold(fs0, Under(table0, w)) && CutsHold(cuts, w) && Satisfied(e, w)
  }

  lemma LastFunction(fs0: seq<Bdd>, table0: seq<Name>, fs: seq<Bdd>, table: seq<Name>, cuts: seq<Cut>, e: Equation, f: Bdd, last: Bdd)
    requires Adds(fs0, table0, fs, table, cuts) && Means(f, table, e.products, cuts)
    requires last == if e.one then f else Not(f)
    ensures Extends(fs0, table0, fs + [last], table, cuts, e) && Over(last, |table|)
  {
    XorOver(f, f, |table|);
    forall w: World ensures ExtendsAt(fs0, table0, fs + [last], table, cuts, e, w) {
      assert AddsAt(fs0, table0, fs, table, cuts, w);
      assert MeansAt(f, table, e.products, cuts, w);
      OperatorsEval(f, f, Under(table, w));
      HoldMore(fs, last, Under(table, w));
    }
  }

  // ----- one equation -----

  lemma {:induction false} NamesKnown(ps: seq<seq<Name>>, k: nat)
    requires k < |ps|
    ensures forall n :: n in ps[k] ==> n in Names(ps)
  {
    if k < |ps| - 1 {
      NamesKnown(ps[..|ps| - 1], k);
    }
  }

  lemma NamesMore(ps: seq<seq<Name>>, k: nat)
    requires k < |ps|
    ensures Names(ps[..k + 1]) == Names(ps[..k]) + ps[k]
  {
    assert ps[..k + 1][..k] == ps[..k];
  }

  lemma CutsMore(ps: seq<seq<Name>>, k: nat, temps: nat)
    requires k < |ps|
    ensures CutsOf(ps[..k + 1], temps)
            == CutsOf(ps[..k], temps) + if Long(ps[k]) then [Cut(Decimal(temps + |CutsOf(ps[..k], temps)|), ps[k])] else []
  {
    assert ps[..k + 1][..k] == ps[..k];
  }

  lemma {:induction false} CutsProducts(ps: seq<seq<Name>>, temps: nat)
    ensures forall k :: 0 <= k < |CutsOf(ps, temps)| ==> CutsOf(ps, temps)[k].product in ps && CutsOf(ps, temps)[k].name == Decimal(temps + k)
  {
    if ps != [] {
      CutsProducts(ps[..|ps| - 1], temps);
    }
  }

  ghost predicate BddsOf(table: seq<Name>, ps: seq<seq<Name>>, bdds: seq<Bdd>) {
    |bdds| == |ps| && forall k :: 0 <= k < |ps| ==> Known(table, ps[k]) && bdds[k] == ProductBdd(table, ps[k])
  }

  lemma BddsStay(table: seq<Name>, table': seq<Name>, ps: seq<seq<Name>>, bdds: seq<Bdd>)
    requires BddsOf(table, ps, bdds) && Distinct(table') && table <= table'
    ensures BddsOf(table', ps, bdds)
  {
    forall k | 0 <= k < |ps| ensures Known(table', ps[k]) && bdds[k] == ProductBdd(table', ps[k]) {
      ProductBddStays(table, table', ps[k]);
    }
  }

  // Numbers, once given, stay, so that small ones stay small.
  lemma SmallStay(table: seq<Name>, table': seq<Name>, names: seq<Name>, limit: nat)
    requires Distinct(table') && table <= table' && forall k :: 0 <= k < |names| ==> names[k] in table
    ensures SmallIds(table', names, limit) <==> SmallIds(table, names, limit)
  {
    forall k | 0 <= k < |names| ensures Find(table', names[k]) == Find(table, names[k]) {
      FindStays(table, table', names[k]);
    }
  }

  // A number that is too large when it is given is too large in the end.
  lemma TooLarge(table: seq<Name>, names: seq<Name>, k: nat, limit: nat)
    requires Distinct(table) && k < |names| && Find(EnterAll(table, names[..k + 1]), names[k]) > limit
    ensures !SmallIds(EnterAll(table, names), names, limit)
  {
    var early, late := names[..k + 1], names[k + 1..];
    assert names == early + late && early[k] == names[k];
    EnterAllKeeps(table, early);
    EnterAllSplit(table, early, late);
    EnterAllKeeps(EnterAll(table, early), late);
    FindStays(EnterAll(table, early), EnterAll(table, names), names[k]);
  }

  class XorReader {
    // The largest number a variable may have, and the number of functions announced.
    const limit: nat
    const numout: nat
    var table: seq<Name>
    var tempVars: nat
    var functions: seq<Bdd>

    ghost predicate Valid()
      reads this
    {
      Distinct(table) && AllOver(functions, |table|)
    }

    // The header's numbers; the reader adds two to the number of variables.
    constructor (variables: nat, numout: nat)
      ensures Valid() && limit == variables + 2 && this.numout == numout
      ensures table == [] && functions == [] && tempVars == variables + 4
    {
      limit, this.numout := variables + 2, numout;
      table, functions, tempVars := [], [], variables + 4;
    }

    // i_getsym and the test of the number.
    method GetVariable(n: Name) returns (intnum: nat, ok: bool)
      requires Valid()
      modifies this`table
      ensures Valid() && table == Enter(old(table), n) && old(table) <= table
      ensures intnum == Find(table, n) && intnum > 0 && ok == (intnum <= limit)
    {
      ghost var before := table;
      EnterKeeps(table, n);
      table := Enter(table, n);
      intnum := Find(table, n);
      ok := intnum <= limit;
      AllGrown(functions, before, table, iset{});
    }

    // The variables of a product, conjoined.
    method ReadProduct(p: seq<Name>) returns (bdd: Bdd, ok: bool)
      requires Valid() && p != []
      modifies this`table
      ensures Valid() && old(table) <= table
      ensures ok == SmallIds(EnterAll(old(table), p), p, limit)
      ensures ok ==> table == EnterAll(old(table), p) && Known(table, p) && bdd == ProductBdd(table, p)
    {
      ghost var before := table;
      bdd := False;
      var k := 0;
      while k < |p|
        invariant 0 <= k <= |p| && Valid() && before <= table
        invariant table == EnterAll(before, p[..k]) && SmallIds(table, p[..k], limit)
        invariant k > 0 ==> Known(table, p[..k]) && bdd == ProductBdd(table, p[..k])
      {
        ghost var was := table;
        var intnum, small := GetVariable(p[k]);
        NextVariable(before, was, table, p, k, limit, bdd);
        if !small {
          TooLarge(before, p, k, limit);
          return bdd, false;
        }
        if k == 0 {
          bdd := Var(intnum);
        }
        bdd := And(bdd, Var(intnum));
        k := k + 1;
      }
      assert p[..k] == p;
      return bdd, true;
    }

    // All products, in order.
    method ReadProducts(ps: seq<seq<Name>>) returns (bdds: seq<Bdd>, ok: bool)
      requires Valid() && forall k :: 0 <= k < |ps| ==> ps[k] != []
      modifies this`table
      ensures Valid() && old(table) <= table
      ensures ok == SmallIds(EnterAll(old(table), Names(ps)), Names(ps), limit)
      ensures ok ==> table == EnterAll(old(table), Names(ps)) && BddsOf(table, ps, bdds)
    {
      ghost var before := table;
      bdds := [];
      var k := 0;
      while k < |ps|
        invariant 0 <= k <= |ps| && Valid() && before <= table
        invariant ReadSoFar(before, table, ps, k, limit, bdds)
      {
        ghost var was := table;
        var bdd, small := ReadProduct(ps[k]);
        if !small {
          ProductTooLarge(before, was, ps, k, limit, bdds);
          return bdds, false;
        }
        NextProduct(before, was, ps, k, limit, bdds, bdd);
        bdds := bdds + [bdd];
        k := k + 1;
      }
      assert ps[..k] == ps;
      return bdds, true;
    }

    // How many products are longer than one variable.
    method CountLong(bdds: seq<Bdd>, ghost ps: seq<seq<Name>>) returns (max_size_xor: nat)
      requires Valid() && BddsOf(table, ps, bdds)
      ensures max_size_xor == |CutsOf(ps, tempVars)|
    {
      max_size_xor := 0;
      for i := 0 to |bdds|
        invariant max_size_xor == |CutsOf(ps[..i], tempVars)|
      {
        CutsMore(ps, i, tempVars);
        LongIsTwoDeep(table, ps[i]);
        if TwoDeep(bdds[i]) {
          max_size_xor := max_size_xor + 1;
        }
      }
      assert ps[..|bdds|] == ps;
    }

    method SumProducts(bdds: seq<Bdd>, ghost ps: seq<seq<Name>>) returns (excess: Bdd)
      requires Valid() && BddsOf(table, ps, bdds)
      ensures Means(excess, table, ps, [])
    {
      excess := False;
      assert forall w: World :: MeansAt(False, table, [], [], w);
      for i := 0 to |bdds|
        invariant Means(excess, table, ps[..i], [])
      {
        MeansOne(excess, table, ps[..i], [], ps[i], bdds[i]);
        assert ps[..i + 1] == ps[..i] + [ps[i]];
        excess := Xor(excess, bdds[i]);
      }
      assert ps[..|bdds|] == ps;
    }

    // A new variable for the next long product, and the function that defines it.
    method CutOut(bdd: Bdd, ghost p: seq<Name>) returns (new_var: nat)
      requires Valid() && Known(table, p) && bdd == ProductBdd(table, p)
      modifies this`table, this`tempVars, this`functions
      ensures Valid() && table == Enter(old(table), Decimal(old(tempVars))) && old(table) <= table
      ensures new_var == Find(table, Decimal(old(tempVars))) && new_var > 0 && tempVars == old(tempVars) + 1
      ensures functions == old(functions) + [Equ(Var(new_var), bdd)]
    {
      var name := Decimal(tempVars);
      tempVars := tempVars + 1;
      ghost var was, before := table, functions;
      var ok;
      new_var, ok := GetVariable(name);
      functions := functions + [Equ(Var(new_var), bdd)];
      NewFunctionOver(was, table, before, name, p);
    }

    // One more product, as a new variable if it is long.
    method CutOrSum(bdd: Bdd, ghost p: seq<Name>, excess: Bdd, ghost fs0: seq<Bdd>, ghost table0: seq<Name>, ghost temps: nat,
                    ghost qs: seq<seq<Name>>, ghost cuts: seq<Cut>) returns (excess': Bdd, ghost cuts': seq<Cut>)
      requires Valid() && Known(table, p) && bdd == ProductBdd(table, p)
      requires CutSoFar(fs0, table0, temps, qs, cuts, functions, table, tempVars, excess)
      modifies this`table, this`tempVars, this`functions
      ensures Valid() && old(table) <= table
      ensures cuts' == cuts + if Long(p) then [Cut(Decimal(temps + |cuts|), p)] else []
      ensures CutSoFar(fs0, table0, temps, qs + [p], cuts', functions, table, tempVars, excess')
    {
      ghost var was, before := table, functions;
      LongIsTwoDeep(table, p);
      if TwoDeep(bdd) {
        ghost var cut := Cut(Decimal(tempVars), p);
        var new_var := CutOut(bdd, p);
        CutNext(fs0, table0, temps, qs, cuts, cut, before, was, table, excess);
        cuts' := cuts + [cut];
        excess' := Xor(excess, Var(new_var));
      } else {
        MeansOne(excess, table, qs, cuts, p, bdd);
        cuts' := cuts;
        excess' := Xor(excess, bdd);
      }
    }

    method NextSummand(bdds: seq<Bdd>, ghost ps: seq<seq<Name>>, i: nat, excess: Bdd, ghost fs0: seq<Bdd>, ghost table0: seq<Name>,
                       ghost temps: nat, ghost cuts: seq<Cut>) returns (excess': Bdd, ghost cuts': seq<Cut>)
      requires Valid() && table0 <= table && BddsOf(table0, ps, bdds) && i < |ps|
      requires CutUpTo(fs0, table0, temps, ps, i, cuts, functions, table, tempVars, excess)
      modifies this`table, this`tempVars, this`functions
      ensures Valid() && table0 <= table
      ensures CutUpTo(fs0, table0, temps, ps, i + 1, cuts', functions, table, tempVars, excess')
    {
      ProductBddStays(table0, table, ps[i]);
      excess', cuts' := CutOrSum(bdds[i], ps[i], excess, fs0, table0, temps, ps[..i], cuts);
      CutFurther(fs0, table0, temps, ps, i, cuts, cuts', functions, table, tempVars, excess');
    }

    // The sum with a new variable for every long product.
    method CutProducts(bdds: seq<Bdd>, ghost ps: seq<seq<Name>>) returns (excess: Bdd)
      requires Valid() && BddsOf(table, ps, bdds)
      modifies this`table, this`tempVars, this`functions
      ensures Valid()
      ensures CutSoFar(old(functions), old(table), old(tempVars), ps, CutsOf(ps, old(tempVars)), functions, table, tempVars, excess)
    {
      ghost var table0, fs0, temps := table, functions, tempVars;
      ghost var cuts: seq<Cut> := [];
      excess := False;
      NothingCut(functions, table);
      for i := 0 to |bdds|
        invariant Valid() && table0 <= table
        invariant CutUpTo(fs0, table0, temps, ps, i, cuts, functions, table, tempVars, excess)
      {
        excess, cuts := NextSummand(bdds, ps, i, excess, fs0, table0, temps, cuts);
      }
      assert ps[..|bdds|] == ps;
    }

    // The sum of the products, the long ones cut out if there are many.
    method Sum(bdds: seq<Bdd>, ghost ps: seq<seq<Name>>) returns (excess: Bdd)
      requires Valid() && BddsOf(table, ps, bdds)
      modifies this`table, this`tempVars, this`functions
      ensures Valid()
      ensures CutSoFar(old(functions), old(table), old(tempVars), ps, NewCuts(ps, old(tempVars)), functions, table, tempVars, excess)
    {
      var max_size_xor := CountLong(bdds, ps);
      if max_size_xor < MAX_LONG {
        excess := SumProducts(bdds, ps);
        NothingCut(functions, table);
      } else {
        excess := CutProducts(bdds, ps);
      }
    }

    // The function of an equation whose products are read.
    method AddFunction(e: Equation, bdds: seq<Bdd>, ghost table0: seq<Name>) returns (ghost cuts: seq<Cut>)
      requires Valid() && BddsOf(table, e.products, bdds) && AllOver(functions, |table0|) && table0 <= table
      modifies this`table, this`tempVars, this`functions
      ensures Valid() && cuts == NewCuts(e.products, old(tempVars))
      ensures table == EnterAll(old(table), CutNames(cuts)) && tempVars == old(tempVars) + |cuts|
      ensures |functions| == old(|functions|) + |cuts| + 1
      ensures Extends(old(functions), table0, functions, table, cuts, e)
    {
      cuts := NewCuts(e.products, tempVars);
      ghost var fs0, temps, table1 := functions, tempVars, table;
      var excess := Sum(bdds, e.products);
      var last := if e.one then excess else Not(excess);
      EquationMeaning(fs0, table0, temps, table1, functions, table, tempVars, cuts, e, excess, last);
      AllOverMore(functions, |table|, last);
      functions := functions + [last];
    }

    // The function and the count, once the products are read.
    method FinishEquation(e: Equation, bdds: seq<Bdd>, ghost s: State) returns (ok: bool)
      requires Valid() && BddsOf(table, e.products, bdds) && AllOver(functions, |s.table|) && s.table <= table
      requires table == EnterAll(s.table, Names(e.products)) && SmallIds(table, Names(e.products), limit)
      requires s.temps == tempVars && s.count == |functions|
      modifies this`table, this`tempVars, this`functions
      ensures Valid()
      ensures Steps(s, e, limit, numout, ok, State(table, tempVars, |functions|, s.cuts + NewCuts(e.products, s.temps)))
      ensures Extends(old(functions), s.table, functions, table, NewCuts(e.products, s.temps), e)
    {
      ghost var table1 := table;
      ghost var cuts := AddFunction(e, bdds, s.table);
      EquationState(s.table, s.temps, s.count, s.cuts, table1, table, cuts, e, limit, numout);
      ok := |functions| <= 2 * numout;
    }

    // The functions made of one equation.
    method AddEquation(e: Equation, ghost cuts0: seq<Cut>) returns (ok: bool)
      requires Valid() && forall k :: 0 <= k < |e.products| ==> e.products[k] != []
      modifies this`table, this`tempVars, this`functions
      ensures Valid()
      ensures Steps(State(old(table), old(tempVars), old(|functions|), cuts0), e, limit, numout,
                    ok, State(table, tempVars, |functions|, cuts0 + NewCuts(e.products, old(tempVars))))
      ensures ok ==> Extends(old(functions), old(table), functions, table, NewCuts(e.products, old(tempVars)), e)
    {
      ghost var s := State(table, tempVars, |functions|, cuts0);
      var bdds;
      bdds, ok := ReadProducts(e.products);
      if ok {
        ok := FinishEquation(e, bdds, s);
      } else {
        NoState(s, e, limit, numout, State(table, tempVars, |functions|, cuts0 + NewCuts(e.products, s.temps)));
      }
    }
  }

  lemma NextVariable(before: seq<Name>, was: seq<Name>, table: seq<Name>, p: seq<Name>, k: nat, limit: nat, bdd: Bdd)
    requires Distinct(before) && k < |p| && was == EnterAll(before, p[..k]) && table == Enter(was, p[k])
    requires SmallIds(was, p[..k], limit) && (k > 0 ==> Known(was, p[..k]) && bdd == ProductBdd(was, p[..k]))
    ensures Distinct(table) && table == EnterAll(before, p[..k + 1]) && Known(table, p[..k + 1])
    ensures SmallIds(table, p[..k + 1], limit) <==> Find(table, p[k]) <= limit
    ensures ProductBdd(table, p[..k + 1]) == And(if k == 0 then Var(Find(table, p[k])) else bdd, Var(Find(table, p[k])))
  {
    NextId(before, was, table, p, k, limit);
    NextConjunct(was, table, p, k, bdd);
  }

  lemma NextId(before: seq<Name>, was: seq<Name>, table: seq<Name>, p: seq<Name>, k: nat, limit: nat)
    requires Distinct(before) && k < |p| && was == EnterAll(before, p[..k]) && table == Enter(was, p[k])
    requires SmallIds(was, p[..k], limit)
    ensures Distinct(table) && was <= table && table == EnterAll(before, p[..k + 1]) && Known(table, p[..k + 1])
    ensures SmallIds(table, p[..k + 1], limit) <==> Find(table, p[k]) <= limit
  {
    assert p[..k + 1] == p[..k] + [p[k]];
    EnterAllMore(before, p[..k], p[k]);
    EnterAllKeeps(before, p[..k]);
    EnterAllKeeps(before, p[..k + 1]);
    SmallStay(was, table, p[..k], limit);
    SmallSplit(table, p[..k], [p[k]], limit);
    SmallOne(table, p[k], limit);
  }

  lemma SmallOne(table: seq<Name>, n: Name, limit: nat)
    ensures SmallIds(table, [n], limit) <==> Find(table, n) <= limit
  {
    assert [n][0] == n;
  }

  lemma NextConjunct(was: seq<Name>, table: seq<Name>, p: seq<Name>, k: nat, bdd: Bdd)
    requires Distinct(table) && k < |p| && was <= table && Known(table, p[..k + 1])
    requires k > 0 ==> Known(was, p[..k]) && bdd == ProductBdd(was, p[..k])
    ensures ProductBdd(table, p[..k + 1]) == And(if k == 0 then Var(Find(table, p[k])) else bdd, Var(Find(table, p[k])))
  {
    assert p[..k + 1][..k] == p[..k] && p[..k + 1][k] == p[k];
    if k > 0 {
      ProductBddStays(was, table, p[..k]);
    }
  }

  // The first k products are read.
  ghost predicate ReadSoFar(before: seq<Name>, table: seq<Name>, ps: seq<seq<Name>>, k: nat, limit: nat, bdds: seq<Bdd>) {
    && k <= |ps| && table == EnterAll(before, Names(ps[..k]))
    && SmallIds(table, Names(ps[..k]), limit) && BddsOf(table, ps[..k], bdds)
  }

  lemma NextProduct(before: seq<Name>, was: seq<Name>, ps: seq<seq<Name>>, k: nat, limit: nat, bdds: seq<Bdd>, bdd: Bdd)
    requires Distinct(before) && k < |ps| && ps[k] != [] && ReadSoFar(before, was, ps, k, limit, bdds)
    requires SmallIds(EnterAll(was, ps[k]), ps[k], limit) && Known(EnterAll(was, ps[k]), ps[k])
    requires bdd == ProductBdd(EnterAll(was, ps[k]), ps[k])
    ensures ReadSoFar(before, EnterAll(was, ps[k]), ps, k + 1, limit, bdds + [bdd])
  {
    EnterAllKeeps(before, Names(ps[..k]));
    EnterAllKeeps(was, ps[k]);
    NextNames(before, was, ps, k, limit);
    NextBdds(was, EnterAll(was, ps[k]), ps, k, bdds, bdd);
  }

  lemma NextNames(before: seq<Name>, was: seq<Name>, ps: seq<seq<Name>>, k: nat, limit: nat)
    requires Distinct(before) && k < |ps| && was == EnterAll(before, Names(ps[..k])) && SmallIds(was, Names(ps[..k]), limit)
    requires SmallIds(EnterAll(was, ps[k]), ps[k], limit)
    ensures EnterAll(was, ps[k]) == EnterAll(before, Names(ps[..k + 1]))
    ensures SmallIds(EnterAll(was, ps[k]), Names(ps[..k + 1]), limit)
  {
    NamesMore(ps, k);
    EnterAllSplit(before, Names(ps[..k]), ps[k]);
    EnterAllKeeps(before, Names(ps[..k]));
    EnterAllKeeps(was, ps[k]);
    SmallStay(was, EnterAll(was, ps[k]), Names(ps[..k]), limit);
    SmallSplit(EnterAll(was, ps[k]), Names(ps[..k]), ps[k], limit);
  }

  lemma NextBdds(was: seq<Name>, table: seq<Name>, ps: seq<seq<Name>>, k: nat, bdds: seq<Bdd>, bdd: Bdd)
    requires Distinct(table) && was <= table && k < |ps| && BddsOf(was, ps[..k], bdds)
    requires Known(table, ps[k]) && bdd == ProductBdd(table, ps[k])
    ensures BddsOf(table, ps[..k + 1], bdds + [bdd])
  {
    BddsStay(was, table, ps[..k], bdds);
    var qs, more := ps[..k + 1], bdds + [bdd];
    forall j | 0 <= j < |qs| ensures Known(table, qs[j]) && more[j] == ProductBdd(table, qs[j]) {
      assert j < k ==> qs[j] == ps[..k][j];
    }
  }

  lemma ProductTooLarge(before: seq<Name>, was: seq<Name>, ps: seq<seq<Name>>, k: nat, limit: nat, bdds: seq<Bdd>)
    requires Distinct(before) && k < |ps| && ReadSoFar(before, was, ps, k, limit, bdds)
    requires !SmallIds(EnterAll(was, ps[k]), ps[k], limit)
    ensures !SmallIds(EnterAll(before, Names(ps)), Names(ps), limit)
  {
    var table := EnterAll(was, ps[k]);
    NamesMore(ps, k);
    EnterAllSplit(before, Names(ps[..k]), ps[k]);
    EnterAllKeeps(before, Names(ps[..k]));
    EnterAllKeeps(was, ps[k]);
    NamesSplit(ps, k + 1);
    EnterAllSplit(before, Names(ps[..k + 1]), Names(ps[k + 1..]));
    EnterAllKeeps(table, Names(ps[k + 1..]));
    SmallStay(table, EnterAll(before, Names(ps)), ps[k], limit);
    SmallSplit(EnterAll(before, Names(ps)), Names(ps[..k + 1]), Names(ps[k + 1..]), limit);
    SmallSplit(EnterAll(before, Names(ps)), Names(ps[..k]), ps[k], limit);
  }

  lemma SmallSplit(table: seq<Name>, names: seq<Name>, more: seq<Name>, limit: nat)
    ensures SmallIds(table, names + more, limit) <==> SmallIds(table, names, limit) && SmallIds(table, more, limit)
  {
    var all := names + more;
    if SmallIds(table, all, limit) {
      assert forall k :: 0 <= k < |names| ==> all[k] == names[k];
      assert forall k :: 0 <= k < |more| ==> all[|names| + k] == more[k];
    }
  }

  lemma {:induction false} NamesSplit(ps: seq<seq<Name>>, k: nat)
    requires k <= |ps|
    ensures Names(ps) == Names(ps[..k]) + Names(ps[k..])
  {
    if k == |ps| {
      assert ps[..k] == ps;
    } else {
      var front := ps[..|ps| - 1];
      NamesSplit(front, k);
      assert front[..k] == ps[..k] && front[k..] == ps[k..][..|ps[k..]| - 1];
    }
  }

  // ----- cutting out -----

  lemma NewFunctionOver(was: seq<Name>, table: seq<Name>, fs: seq<Bdd>, name: Name, p: seq<Name>)
    requires Distinct(table) && was <= table && AllOver(fs, |table|) && name in table && Known(was, p)
    ensures AllOver(fs + [Equ(Var(Find(table, name)), ProductBdd(was, p))], |table|)
  {
    ProductBddStays(was, table, p);
    VarValue(table, name, iset{});
    ProductValue(table, p, iset{});
    XorOver(Var(Find(table, name)), ProductBdd(was, p), |table|);
    AllOverMore(fs, |table|, Equ(Var(Find(table, name)), ProductBdd(was, p)));
  }

  // The products qs are summed, with the cuts taken out of them.
  ghost predicate CutSoFar(fs0: seq<Bdd>, table0: seq<Name>, temps: nat, qs: seq<seq<Name>>, cuts: seq<Cut>,
                           fs: seq<Bdd>, table: seq<Name>, tempVars: nat, excess: Bdd)
  {
    && table == EnterAll(table0, CutNames(cuts)) && tempVars == temps + |cuts| && |fs| == |fs0| + |cuts|
    && Means(excess, table, qs, cuts) && Adds(fs0, table0, fs, table, cuts)
  }

  ghost predicate CutUpTo(fs0: seq<Bdd>, table0: seq<Name>, temps: nat, ps: seq<seq<Name>>, i: nat, cuts: seq<Cut>,
                          fs: seq<Bdd>, table: seq<Name>, tempVars: nat, excess: Bdd)
  {
    i <= |ps| && cuts == CutsOf(ps[..i], temps) && CutSoFar(fs0, table0, temps, ps[..i], cuts, fs, table, tempVars, excess)
  }

  lemma CutFurther(fs0: seq<Bdd>, table0: seq<Name>, temps: nat, ps: seq<seq<Name>>, i: nat, cuts: seq<Cut>, cuts': seq<Cut>,
                   fs: seq<Bdd>, table: seq<Name>, tempVars: nat, excess: Bdd)
    requires i < |ps| && cuts == CutsOf(ps[..i], temps)
    requires cuts' == cuts + if Long(ps[i]) then [Cut(Decimal(temps + |cuts|), ps[i])] else []
    requires CutSoFar(fs0, table0, temps, ps[..i] + [ps[i]], cuts', fs, table, tempVars, excess)
    ensures CutUpTo(fs0, table0, temps, ps, i + 1, cuts', fs, table, tempVars, excess)
  {
    CutsMore(ps, i, temps);
    assert ps[..i + 1] == ps[..i] + [ps[i]];
  }

  lemma NothingCut(fs: seq<Bdd>, table: seq<Name>)
    ensures Means(False, table, [], []) && Adds(fs, table, fs, table, []) && EnterAll(table, CutNames([])) == table
  {
    forall w: World ensures MeansAt(False, table, [], [], w) && AddsAt(fs, table, fs, table, [], w) {
    }
  }

  lemma CutNamesMore(table: seq<Name>, cuts: seq<Cut>, cut: Cut)
    ensures EnterAll(table, CutNames(cuts + [cut])) == Enter(EnterAll(table, CutNames(cuts)), cut.name)
  {
    assert CutNames(cuts + [cut]) == CutNames(cuts) + [cut.name];
    EnterAllMore(table, CutNames(cuts), cut.name);
  }

  lemma CutNext(fs0: seq<Bdd>, table0: seq<Name>, temps: nat, qs: seq<seq<Name>>, cuts: seq<Cut>, cut: Cut,
                before: seq<Bdd>, was: seq<Name>, table: seq<Name>, excess: Bdd)
    requires CutSoFar(fs0, table0, temps, qs, cuts, before, was, temps + |cuts|, excess)
    requires Distinct(table) && was <= table && table == Enter(was, cut.name)
    requires AllOver(before, |was|) && Known(was, cut.product)
    ensures var x := Var(Find(table, cut.name));
            CutSoFar(fs0, table0, temps, qs + [cut.product], cuts + [cut],
                     before + [Equ(x, ProductBdd(was, cut.product))], table, temps + |cuts| + 1, Xor(excess, x))
  {
    CutNamesMore(table0, cuts, cut);
    MeansCut(excess, was, qs, cuts, cut, table);
    AddsCut(fs0, table0, before, was, cuts, cut, table);
  }

  // ----- what is fixed about the reader after each equation -----

  datatype State = State(table: seq<Name>, temps: nat, count: nat, cuts: seq<Cut>)

  // Numbers above the limit and too many functions end the reading.
  function Step(s: State, e: Equation, limit: nat, numout: nat): Option<State> {
    var table := EnterAll(s.table, Names(e.products));
    var cuts := NewCuts(e.products, s.temps);
    var count := s.count + |cuts| + 1;
    if !SmallIds(table, Names(e.products), limit) || count > 2 * numout then None
    else Some(State(EnterAll(table, CutNames(cuts)), s.temps + |cuts|, count, s.cuts + cuts))
  }

  ghost predicate Steps(s: State, e: Equation, limit: nat, numout: nat, ok: bool, s': State) {
    Step(s, e, limit, numout) == if ok then Some(s') else None
  }

  lemma EarlierTable(fs0: seq<Bdd>, table0: seq<Name>, table1: seq<Name>, fs: seq<Bdd>, table: seq<Name>, cuts: seq<Cut>, e: Equation)
    requires Extends(fs0, table1, fs, table, cuts, e) && AllOver(fs0, |table0|) && table0 <= table1
    ensures Extends(fs0, table0, fs, table, cuts, e)
  {
    forall w: World ensures ExtendsAt(fs0, table0, fs, table, cuts, e, w) {
      assert ExtendsAt(fs0, table1, fs, table, cuts, e, w);
      AllGrown(fs0, table0, table1, w);
    }
  }

  lemma EquationMeaning(fs0: seq<Bdd>, table0: seq<Name>, temps: nat, table1: seq<Name>, fs: seq<Bdd>, table: seq<Name>, tempVars: nat,
                        cuts: seq<Cut>, e: Equation, excess: Bdd, last: Bdd)
    requires AllOver(fs0, |table0|) && table0 <= table1
    requires CutSoFar(fs0, table1, temps, e.products, cuts, fs, table, tempVars, excess)
    requires last == if e.one then excess else Not(excess)
    ensures Extends(fs0, table0, fs + [last], table, cuts, e) && Over(last, |table|)
  {
    LastFunction(fs0, table1, fs, table, cuts, e, excess, last);
    EarlierTable(fs0, table0, table1, fs + [last], table, cuts, e);
  }

  lemma EquationState(table0: seq<Name>, temps: nat, count: nat, cuts0: seq<Cut>, table1: seq<Name>, table: seq<Name>, cuts: seq<Cut>, e: Equation,
                      limit: nat, numout: nat)
    requires table1 == EnterAll(table0, Names(e.products)) && cuts == NewCuts(e.products, temps)
    requires table == EnterAll(table1, CutNames(cuts)) && SmallIds(table1, Names(e.products), limit)
    ensures Steps(State(table0, temps, count, cuts0), e, limit, numout,
                  count + |cuts| + 1 <= 2 * numout, State(table, temps + |cuts|, count + |cuts| + 1, cuts0 + cuts))
  {
  }

  lemma NoState(s: State, e: Equation, limit: nat, numout: nat, s': State)
    requires !SmallIds(EnterAll(s.table, Names(e.products)), Names(e.products), limit)
    ensures Steps(s, e, limit, numout, false, s')
  {
  }
}
