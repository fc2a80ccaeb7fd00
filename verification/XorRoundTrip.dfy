// What is left of a list of functions that was printed as an XOR file and read
// back (src/formats/xorbdd.cc).

module XorRoundTrip {
  import opened Basics
  import opened Bdd
  import opened Decimals
  import opened XorText
  import opened XorNames
  import opened XorReader
  import opened XorFormat
  import opened XorAcceptance
  import opened XorWriter

  // The functions other than false hold.
  ghost predicate OthersHold(fs: seq<Bdd>, a: Assignment) {
    forall k :: 0 <= k < |fs| ==> fs[k].False? || Eval(fs[k], a)
  }

  ghost function EquationsOf(fs: seq<Bdd>, numbers: seq<nat>): seq<Equation>
    requires Writable(fs, numbers)
  {
    Equations(Lines(fs, numbers))
  }

  lemma {:induction false} EquationsAppend(lines: seq<Option<Equation>>, line: Option<Equation>)
    ensures Equations(lines + [line]) == Equations(lines) + if line.Some? then [line.value] else []
  {
    if lines == [] {
      assert (lines + [line])[1..] == [];
    } else {
      assert (lines + [line])[1..] == lines[1..] + [line];
      EquationsAppend(lines[1..], line);
      Join(if lines[0].Some? then [lines[0].value] else [], Equations(lines[1..]), if line.Some? then [line.value] else []);
    }
  }

  lemma Join(es: seq<Equation>, fs: seq<Equation>, gs: seq<Equation>)
    ensures es + (fs + gs) == es + fs + gs
  {
  }

  lemma EquationsOfMore(fs: seq<Bdd>, numbers: seq<nat>)
    requires Writable(fs, numbers) && fs != []
    ensures var front, f := fs[..|fs| - 1], fs[|fs| - 1];
            EquationsOf(fs, numbers) == EquationsOf(front, numbers) + if f.Node? then [LineOf(f, numbers).value] else []
  {
    var front, f := fs[..|fs| - 1], fs[|fs| - 1];
    LinesMore(fs, |fs| - 1, numbers);
    assert fs[..|fs|] == fs;
    EquationsAppend(Lines(front, numbers), LineOf(f, numbers));
  }

  // Together the equations hold exactly where the functions other than false do.
  lemma {:induction false} EquationsHold(fs: seq<Bdd>, numbers: seq<nat>, w: World)
    requires Writable(fs, numbers)
    ensures AllSatisfied(EquationsOf(fs, numbers), w) <==> OthersHold(fs, Meant(numbers, w))
  {
    if fs != [] {
      var front, f := fs[..|fs| - 1], fs[|fs| - 1];
      EquationsHold(front, numbers, w);
      EquationsOfMore(fs, numbers);
      if f.Node? {
        LineValue(f, numbers, w);
        SatisfiedMore(EquationsOf(front, numbers), LineOf(f, numbers).value, w);
      } else {
        assert EquationsOf(fs, numbers) == EquationsOf(front, numbers);
      }
      OthersSplit(fs, Meant(numbers, w));
    }
  }

  lemma OthersSplit(fs: seq<Bdd>, a: Assignment)
    requires fs != []
    ensures OthersHold(fs, a) <==> OthersHold(fs[..|fs| - 1], a) && (fs[|fs| - 1].False? || Eval(fs[|fs| - 1], a))
  {
  }

  lemma {:induction false} LinesValid(fs: seq<Bdd>, numbers: seq<nat>)
    requires Writable(fs, numbers)
    ensures forall k :: 0 <= k < |Lines(fs, numbers)| && Lines(fs, numbers)[k].Some? ==> ValidEquation(Lines(fs, numbers)[k].value)
  {
    if fs != [] {
      LinesValid(fs[..|fs| - 1], numbers);
      if fs[|fs| - 1].Node? {
        LineValid(fs[|fs| - 1], numbers);
      }
    }
  }

  ghost predicate ReadBack(functions: seq<Bdd>, table: seq<Name>, cuts: seq<Cut>, fs: seq<Bdd>, numbers: seq<nat>) {
    forall w: World {:trigger ReadBackAt(functions, table, cuts, fs, numbers, w)} :: ReadBackAt(functions, table, cuts, fs, numbers, w)
  }

  ghost predicate ReadBackAt(functions: seq<Bdd>, table: seq<Name>, cuts: seq<Cut>, fs: seq<Bdd>, numbers: seq<nat>, w: World) {
    AllHold(functions, Under(table, w)) <==> CutsHold(cuts, w) && OthersHold(fs, Meant(numbers, w))
  }

  // Printing and reading: the reader accepts the file exactly when equations and
  // products cut out are at most twice the functions and no name of the file gets a
  // number above the limit; then the functions read say what the functions printed
  // say, and define the new variables.
  method PrintAndRead(fs: seq<Bdd>, lengths: seq<nat>, numbers: seq<nat>, variables: nat)
    returns (ok: bool, functions: seq<Bdd>, table: seq<Name>, ghost cuts: seq<Cut>)
    requires Writable(fs, numbers) && |lengths| == |fs|
    requires forall k :: 0 <= k < |fs| ==> lengths[k] == |Support(fs[k])|
    ensures ok <==> Accepted(EquationsOf(fs, numbers), variables + 4, variables + 2, |fs|)
    ensures ok ==> cuts == AllCuts(EquationsOf(fs, numbers), variables + 4)
    ensures ok ==> ReadBack(functions, table, cuts, fs, numbers)
  {
    var file := PrintXORFormat(fs, lengths, numbers);
    LinesValid(fs, numbers);
    FileRead(Lines(fs, numbers));
    ghost var es;
    RunExactly(EquationsOf(fs, numbers), variables, variables + 2, |fs|);
    ok, functions, table, es, cuts := XorLoop(file, variables, |fs|);
    if ok {
      forall w: World ensures ReadBackAt(functions, table, cuts, fs, numbers, w) {
        assert FileSaysAt(functions, table, es, cuts, w);
        EquationsHold(fs, numbers, w);
      }
    }
  }

  // The false function is printed as an empty line and lost: what is read has the
  // meaning of what was printed exactly when there is no false function, or the
  // other functions are unsatisfiable anyway.
  lemma FalseIsLost(fs: seq<Bdd>)
    ensures (forall a: Assignment :: OthersHold(fs, a) <==> AllHold(fs, a))
            <==> False !in fs || forall a: Assignment :: !OthersHold(fs, a)
  {
    if False in fs {
      var k :| 0 <= k < |fs| && fs[k] == False;
      forall a: Assignment ensures !AllHold(fs, a) {
        assert !Eval(fs[k], a);
      }
    } else {
      forall a: Assignment ensures OthersHold(fs, a) <==> AllHold(fs, a) {
        if OthersHold(fs, a) {
          forall k | 0 <= k < |fs| ensures Eval(fs[k], a) {
            assert fs[k] in fs;
          }
        }
      }
    }
  }

  // ----- the new variables -----

  // New names are consecutive numbers, their products come from the file.
  ghost predicate Consecutive(cuts: seq<Cut>, first: nat) {
    forall k :: 0 <= k < |cuts| ==> cuts[k].name == Decimal(first + k)
  }

  ghost predicate FromFile(cuts: seq<Cut>, es: seq<Equation>) {
    forall k, n :: 0 <= k < |cuts| && n in cuts[k].product ==> NamedIn(n, es)
  }

  lemma CutsFrom(ps: seq<seq<Name>>, temps: nat)
    ensures Consecutive(NewCuts(ps, temps), temps)
    ensures forall k, n :: 0 <= k < |NewCuts(ps, temps)| && n in NewCuts(ps, temps)[k].product ==> n in Names(ps)
  {
    CutsProducts(ps, temps);
    forall k, n | 0 <= k < |NewCuts(ps, temps)| && n in NewCuts(ps, temps)[k].product ensures n in Names(ps) {
      var j :| 0 <= j < |ps| && ps[j] == NewCuts(ps, temps)[k].product;
      NamesKnown(ps, j);
    }
  }

  lemma {:induction false} AllCutsRight(es: seq<Equation>, temps: nat)
    ensures Consecutive(AllCuts(es, temps), temps) && FromFile(AllCuts(es, temps), es)
  {
    if es != [] {
      var front, e := es[..|es| - 1], es[|es| - 1];
      var t := Final(front, temps);
      AllCutsRight(front, temps);
      FinalCounts(front, temps);
      CutsFrom(e.products, t.temps);
      ConsecutiveMore(t.cuts, NewCuts(e.products, t.temps), temps);
      FromFileMore(t.cuts, front, NewCuts(e.products, t.temps), e);
      FrontAndLast(es);
    }
  }

  lemma FrontAndLast<T>(s: seq<T>)
    requires s != []
    ensures s == s[..|s| - 1] + [s[|s| - 1]]
  {
  }

  lemma ConsecutiveMore(cuts: seq<Cut>, more: seq<Cut>, first: nat)
    requires Consecutive(cuts, first) && Consecutive(more, first + |cuts|)
    ensures Consecutive(cuts + more, first)
  {
    forall k | 0 <= k < |cuts + more| ensures (cuts + more)[k].name == Decimal(first + k) {
      if k >= |cuts| {
        assert more[k - |cuts|].name == Decimal(first + |cuts| + (k - |cuts|));
      }
    }
  }

  lemma FromFileMore(cuts: seq<Cut>, es: seq<Equation>, more: seq<Cut>, e: Equation)
    requires FromFile(cuts, es)
    requires forall k, n :: 0 <= k < |more| && n in more[k].product ==> n in Names(e.products)
    ensures FromFile(cuts + more, es + [e])
  {
    var all := es + [e];
    forall k, n | 0 <= k < |cuts + more| && n in (cuts + more)[k].product ensures NamedIn(n, all) {
      if k < |cuts| {
        assert n in cuts[k].product && NamedIn(n, es);
        var j :| 0 <= j < |es| && n in Names(es[j].products);
        assert all[j] == es[j];
      } else {
        assert n in more[k - |cuts|].product && all[|es|] == e;
      }
    }
  }

  ghost predicate IsNew(n: Name, cuts: seq<Cut>) {
    exists k :: 0 <= k < |cuts| && cuts[k].name == n
  }

  ghost predicate SameOld(w: World, w': World, cuts: seq<Cut>) {
    forall n: Name :: !IsNew(n, cuts) ==> (n in w <==> n in w')
  }

  // No name of the file is a new name.
  ghost predicate NoCollision(cuts: seq<Cut>, es: seq<Equation>) {
    forall n: Name :: NamedIn(n, es) ==> !IsNew(n, cuts)
  }

  // Without a collision every choice of the old variables has one choice of the new
  // ones that satisfies the defining functions, and only one.
  lemma NewVariablesDetermined(cuts: seq<Cut>, first: nat, es: seq<Equation>, w: World) returns (w': World)
    requires Consecutive(cuts, first) && FromFile(cuts, es) && NoCollision(cuts, es)
    ensures SameOld(w, w', cuts) && CutsHold(cuts, w')
    ensures forall u: World :: SameOld(w, u, cuts) && CutsHold(cuts, u) ==> forall n: Name :: n in u <==> n in w'
  {
    w' := iset n: Name | InExtension(n, cuts, w);
    forall k | 0 <= k < |cuts| ensures CutHolds(cuts[k], w') {
      OneCut(cuts, first, k, w);
      SameProduct(cuts, es, k, w, w');
    }
    forall u: World, n: Name | SameOld(w, u, cuts) && CutsHold(cuts, u) ensures n in u <==> n in w' {
      if IsNew(n, cuts) {
        var k :| 0 <= k < |cuts| && cuts[k].name == n;
        OneCut(cuts, first, k, w);
        assert CutHolds(cuts[k], u);
        SameProduct(cuts, es, k, w, u);
      }
    }
  }

  ghost predicate InExtension(n: Name, cuts: seq<Cut>, w: World) {
    if IsNew(n, cuts) then exists k :: 0 <= k < |cuts| && cuts[k].name == n && NamesTrue(cuts[k].product, w) else n in w
  }

  lemma OneCut(cuts: seq<Cut>, first: nat, k: nat, w: World)
    requires Consecutive(cuts, first) && k < |cuts|
    ensures IsNew(cuts[k].name, cuts) && (InExtension(cuts[k].name, cuts, w) <==> NamesTrue(cuts[k].product, w))
  {
    forall j | 0 <= j < |cuts| && cuts[j].name == cuts[k].name ensures j == k {
      DecimalInjective(first + j, first + k);
    }
  }

  lemma SameProduct(cuts: seq<Cut>, es: seq<Equation>, k: nat, w: World, u: World)
    requires k < |cuts| && FromFile(cuts, es) && NoCollision(cuts, es) && SameOld(w, u, cuts)
    ensures NamesTrue(cuts[k].product, w) <==> NamesTrue(cuts[k].product, u)
  {
    var p := cuts[k].product;
    forall j | 0 <= j < |p| ensures p[j] in w <==> p[j] in u {
      assert p[j] in p;
      assert NamedIn(p[j], es) && !IsNew(p[j], cuts);
    }
  }

  lemma {:induction false} SameOdd(ps: seq<seq<Name>>, cuts: seq<Cut>, w: World, u: World)
    requires SameOld(w, u, cuts) && forall n :: n in Names(ps) ==> !IsNew(n, cuts)
    ensures Odd(ps, w) == Odd(ps, u)
  {
    if ps != [] {
      var front, p := ps[..|ps| - 1], ps[|ps| - 1];
      assert Names(ps) == Names(front) + p;
      SameOdd(front, cuts, w, u);
      forall k | 0 <= k < |p| ensures p[k] in w <==> p[k] in u {
        assert p[k] in p;
      }
    }
  }

  lemma SameSatisfied(es: seq<Equation>, cuts: seq<Cut>, w: World, u: World)
    requires SameOld(w, u, cuts) && NoCollision(cuts, es)
    ensures AllSatisfied(es, w) <==> AllSatisfied(es, u)
  {
    forall k | 0 <= k < |es| ensures Satisfied(es[k], w) <==> Satisfied(es[k], u) {
      forall n | n in Names(es[k].products) ensures !IsNew(n, cuts) {
        assert NamedIn(n, es);
      }
      SameOdd(es[k].products, cuts, w, u);
    }
  }

  // Where the functions printed hold, the new variables have exactly one value that
  // makes the functions read hold; elsewhere they have none.
  lemma OneExtension(fs: seq<Bdd>, numbers: seq<nat>, functions: seq<Bdd>, table: seq<Name>, cuts: seq<Cut>, variables: nat, w: World)
    returns (u: World)
    requires Writable(fs, numbers) && cuts == AllCuts(EquationsOf(fs, numbers), variables + 4)
    requires ReadBack(functions, table, cuts, fs, numbers) && NoCollision(cuts, EquationsOf(fs, numbers))
    ensures SameOld(w, u, cuts) && (AllHold(functions, Under(table, u)) <==> OthersHold(fs, Meant(numbers, w)))
    ensures forall x: World :: SameOld(w, x, cuts) && AllHold(functions, Under(table, x)) ==>
              OthersHold(fs, Meant(numbers, w)) && forall n: Name :: n in x <==> n in u
  {
    var es := EquationsOf(fs, numbers);
    AllCutsRight(es, variables + 4);
    u := NewVariablesDetermined(cuts, variables + 4, es, w);
    EquationsHold(fs, numbers, w);
    EquationsHold(fs, numbers, u);
    SameSatisfied(es, cuts, w, u);
    assert ReadBackAt(functions, table, cuts, fs, numbers, u);
    forall x: World | SameOld(w, x, cuts) && AllHold(functions, Under(table, x))
      ensures OthersHold(fs, Meant(numbers, w)) && CutsHold(cuts, x)
    {
      assert ReadBackAt(functions, table, cuts, fs, numbers, x);
      EquationsHold(fs, numbers, x);
      SameSatisfied(es, cuts, w, x);
    }
  }

  // ----- when the reader accepts -----

  function PrintedNames(numbers: seq<nat>, variables: nat): set<Name>
    requires variables < |numbers|
  {
    if variables == 0 then {} else PrintedNames(numbers, variables - 1) + {Decimal(numbers[variables])}
  }

  lemma {:induction false} PrintedBound(numbers: seq<nat>, variables: nat)
    requires variables < |numbers|
    ensures |PrintedNames(numbers, variables)| <= variables
    ensures forall v :: 1 <= v <= variables ==> Decimal(numbers[v]) in PrintedNames(numbers, variables)
  {
    if variables > 0 {
      PrintedBound(numbers, variables - 1);
    }
  }

  lemma {:induction false} TableBound(table: seq<Name>, s: set<Name>)
    requires Distinct(table) && forall n :: n in table ==> n in s
    ensures |table| <= |s|
  {
    if table != [] {
      var front, last := table[..|table| - 1], table[|table| - 1];
      forall i, j | 0 <= i < j < |front| ensures DifferentAt(front, i, j) {
        assert DifferentAt(table, i, j);
      }
      forall n | n in front ensures n in s - {last} {
        var i :| 0 <= i < |front| && front[i] == n;
        assert DifferentAt(table, i, |table| - 1);
      }
      TableBound(front, s - {last});
    }
  }

  lemma {:induction false} CutsCount(ps: seq<seq<Name>>, temps: nat, temps': nat)
    ensures |CutsOf(ps, temps)| == |CutsOf(ps, temps')|
  {
    if ps != [] {
      CutsCount(ps[..|ps| - 1], temps, temps');
    }
  }

  // Nothing is cut out, and all names are among the printed ones.
  lemma {:induction false} AcceptedWithoutCuts(es: seq<Equation>, numbers: seq<nat>, variables: nat, numout: nat)
    requires variables < |numbers| && |es| <= 2 * numout
    requires forall k :: 0 <= k < |es| ==> |CutsOf(es[k].products, 0)| < MAX_LONG
    requires forall n: Name :: NamedIn(n, es) ==> n in PrintedNames(numbers, variables)
    ensures var r := Run(es, Start(variables), variables + 2, numout);
            r.Some? && r.value.cuts == [] && r.value.count == |es| && Distinct(r.value.table)
            && forall n :: n in r.value.table ==> n in PrintedNames(numbers, variables)
  {
    if es != [] {
      var front, e := es[..|es| - 1], es[|es| - 1];
      forall n: Name | NamedIn(n, front) ensures n in PrintedNames(numbers, variables) {
        var k :| 0 <= k < |front| && n in Names(front[k].products);
        assert es[k] == front[k] && NamedIn(n, es);
      }
      AcceptedWithoutCuts(front, numbers, variables, numout);
      forall n | n in Names(e.products) ensures n in PrintedNames(numbers, variables) {
        assert NamedIn(n, es);
      }
      StepWithoutCuts(Run(front, Start(variables), variables + 2, numout).value, e, numbers, variables, numout);
    }
  }

  lemma StepWithoutCuts(s: State, e: Equation, numbers: seq<nat>, variables: nat, numout: nat)
    requires variables < |numbers| && s.count + 1 <= 2 * numout && |CutsOf(e.products, 0)| < MAX_LONG && Distinct(s.table)
    requires forall n :: n in s.table || n in Names(e.products) ==> n in PrintedNames(numbers, variables)
    ensures var r := Step(s, e, variables + 2, numout);
            r.Some? && r.value.cuts == s.cuts && r.value.count == s.count + 1 && Distinct(r.value.table)
            && forall n :: n in r.value.table ==> n in PrintedNames(numbers, variables)
  {
    var table := EnterAll(s.table, Names(e.products));
    EnterAllKeeps(s.table, Names(e.products));
    TableBound(table, PrintedNames(numbers, variables));
    PrintedBound(numbers, variables);
    CutsCount(e.products, 0, s.temps);
    assert NewCuts(e.products, s.temps) == [] && s.cuts + [] == s.cuts;
    assert EnterAll(table, CutNames([])) == table;
  }

  // A file is accepted, and no variable is new, if no equation has ten products of
  // two variables or more.
  lemma ShortEquationsAccepted(fs: seq<Bdd>, numbers: seq<nat>, variables: nat)
    requires Writable(fs, numbers) && variables < |numbers|
    requires forall k :: 0 <= k < |fs| ==> forall v :: v in Support(fs[k]) ==> v <= variables
    requires forall k :: 0 <= k < |EquationsOf(fs, numbers)| ==> |CutsOf(EquationsOf(fs, numbers)[k].products, 0)| < MAX_LONG
    ensures Accepted(EquationsOf(fs, numbers), variables + 4, variables + 2, |fs|) && AllCuts(EquationsOf(fs, numbers), variables + 4) == []
  {
    PrintedOnly(fs, numbers, variables);
    RunExactly(EquationsOf(fs, numbers), variables, variables + 2, |fs|);
    AcceptedWithoutCuts(EquationsOf(fs, numbers), numbers, variables, |fs|);
  }

  lemma {:induction false} PrintedOnly(fs: seq<Bdd>, numbers: seq<nat>, variables: nat)
    requires Writable(fs, numbers) && variables < |numbers|
    requires forall k :: 0 <= k < |fs| ==> forall v :: v in Support(fs[k]) ==> v <= variables
    ensures |EquationsOf(fs, numbers)| <= |fs|
    ensures forall n: Name :: NamedIn(n, EquationsOf(fs, numbers)) ==> n in PrintedNames(numbers, variables)
  {
    if fs != [] {
      var front, f := fs[..|fs| - 1], fs[|fs| - 1];
      PrintedOnly(front, numbers, variables);
      EquationsOfMore(fs, numbers);
      if f.Node? {
        LinePrinted(f, numbers, variables);
        var es, all := EquationsOf(front, numbers), EquationsOf(fs, numbers);
        forall n: Name | NamedIn(n, all) ensures n in PrintedNames(numbers, variables) {
          var k :| 0 <= k < |all| && n in Names(all[k].products);
          assert k < |es| ==> all[k] == es[k] && NamedIn(n, es);
        }
      } else {
        assert EquationsOf(fs, numbers) == EquationsOf(front, numbers);
      }
    }
  }

  lemma {:induction false} NameOfProduct(ps: seq<seq<Name>>, n: Name) returns (k: nat)
    requires n in Names(ps)
    ensures k < |ps| && n in ps[k]
  {
    k := |ps| - 1;
    if n !in ps[k] {
      k := NameOfProduct(ps[..k], n);
    }
  }

  lemma LinePrinted(f: Bdd, numbers: seq<nat>, variables: nat)
    requires Robdd(f) && f.Node? && Numbered(numbers, Support(f)) && variables < |numbers|
    requires forall v :: v in Support(f) ==> v <= variables
    ensures forall n :: n in Names(LineOf(f, numbers).value.products) ==> n in PrintedNames(numbers, variables)
  {
    PrintedBound(numbers, variables);
    forall n | n in Names(LineOf(f, numbers).value.products) ensures n in PrintedNames(numbers, variables) {
      var k := NameOfProduct(LineOf(f, numbers).value.products, n);
      var v := NameOfVariable(f, numbers, k, n);
    }
  }

  // Ten products to be cut out of a single function are too many functions.
  lemma AloneTooMany(f: Bdd, numbers: seq<nat>, variables: nat)
    requires Robdd(f) && f.Node? && Numbered(numbers, Support(f)) && Writable([f], numbers)
    requires |CutsOf(LineOf(f, numbers).value.products, variables + 4)| >= MAX_LONG
    ensures !Accepted(EquationsOf([f], numbers), variables + 4, variables + 2, 1)
  {
    EquationsOfMore([f], numbers);
    assert [f][..0] == [] && EquationsOf([], numbers) == [];
    assert EquationsOf([f], numbers) == [LineOf(f, numbers).value];
    CutsOfOne(LineOf(f, numbers).value, variables + 4);
  }

  lemma CutsOfOne(e: Equation, temps: nat)
    ensures AllCuts([e], temps) == NewCuts(e.products, temps)
  {
    assert [e][..0] == [] && Final([], temps) == State([], temps, 0, []);
  }
}
