// New variables whose names the file uses as well (src/formats/xorbdd.cc): exactly which
// models of the functions printed are kept by the functions read.

module XorCollision {
  import opened Basics
  import opened Bdd
  import opened Decimals
  import opened XorText
  import opened XorNames
  import opened XorReader
  import opened XorFormat
  import opened XorWriter
  import opened XorAcceptance
  import opened XorRoundTrip

  // x and w agree on the names of the file.
  ghost predicate SameOnFile(w: World, x: World, es: seq<Equation>) {
    forall n: Name {:trigger NamedIn(n, es)} :: NamedIn(n, es) ==> (n in x <==> n in w)
  }

  // Every new variable whose name is in the file already equals its product.
  ghost predicate Agrees(cuts: seq<Cut>, es: seq<Equation>, w: World) {
    forall k {:trigger AgreesAt(cuts, es, w, k)} :: 0 <= k < |cuts| ==> AgreesAt(cuts, es, w, k)
  }

  ghost predicate AgreesAt(cuts: seq<Cut>, es: seq<Equation>, w: World, k: int)
    requires 0 <= k < |cuts|
  {
    NamedIn(cuts[k].name, es) ==> CutHolds(cuts[k], w)
  }

  // Some values of the new variables make the functions read hold.
  ghost predicate Extends(functions: seq<Bdd>, table: seq<Name>, es: seq<Equation>, w: World) {
    exists x: World :: SameOnFile(w, x, es) && AllHold(functions, Under(table, x))
  }

  lemma SameProducts(cuts: seq<Cut>, es: seq<Equation>, w: World, x: World, k: nat)
    requires k < |cuts| && FromFile(cuts, es) && SameOnFile(w, x, es)
    ensures NamesTrue(cuts[k].product, x) <==> NamesTrue(cuts[k].product, w)
    ensures NamedIn(cuts[k].name, es) ==> (CutHolds(cuts[k], x) <==> CutHolds(cuts[k], w))
  {
    var p := cuts[k].product;
    forall j | 0 <= j < |p| ensures p[j] in x <==> p[j] in w {
      assert p[j] in p;
      assert NamedIn(p[j], es);
    }
  }

  lemma {:induction false} OddOnFile(ps: seq<seq<Name>>, w: World, x: World)
    requires forall n :: n in Names(ps) ==> (n in x <==> n in w)
    ensures Odd(ps, x) == Odd(ps, w)
  {
    if ps != [] {
      var front, p := ps[..|ps| - 1], ps[|ps| - 1];
      assert Names(ps) == Names(front) + p;
      OddOnFile(front, w, x);
      forall k | 0 <= k < |p| ensures p[k] in x <==> p[k] in w {
        assert p[k] in p;
      }
    }
  }

  lemma SatisfiedOnFile(es: seq<Equation>, w: World, x: World)
    requires SameOnFile(w, x, es)
    ensures AllSatisfied(es, x) <==> AllSatisfied(es, w)
  {
    forall k | 0 <= k < |es| ensures Satisfied(es[k], x) <==> Satisfied(es[k], w) {
      forall n | n in Names(es[k].products) ensures n in x <==> n in w {
        assert NamedIn(n, es);
      }
      OddOnFile(es[k].products, w, x);
    }
  }

  // The names of the file as in w, the others as their products.
  ghost function Completed(cuts: seq<Cut>, es: seq<Equation>, w: World): World {
    iset n: Name | InCompleted(n, cuts, es, w)
  }

  ghost predicate InCompleted(n: Name, cuts: seq<Cut>, es: seq<Equation>, w: World) {
    if NamedIn(n, es) then n in w else InExtension(n, cuts, w)
  }

  lemma CompletedHolds(cuts: seq<Cut>, first: nat, es: seq<Equation>, w: World)
    requires Consecutive(cuts, first) && FromFile(cuts, es) && Agrees(cuts, es, w)
    ensures SameOnFile(w, Completed(cuts, es, w), es) && CutsHold(cuts, Completed(cuts, es, w))
  {
    var x := Completed(cuts, es, w);
    forall n: Name | NamedIn(n, es) ensures n in x <==> n in w {
      assert InCompleted(n, cuts, es, w) <==> n in w;
    }
    forall k: nat | k < |cuts| ensures CutHolds(cuts[k], x) {
      SameProducts(cuts, es, w, x, k);
      assert AgreesAt(cuts, es, w, k);
      OneCut(cuts, first, k, w);
      assert !NamedIn(cuts[k].name, es) ==> (InCompleted(cuts[k].name, cuts, es, w) <==> NamesTrue(cuts[k].product, w));
    }
  }

  // An assignment of the file's names extends to a model of the functions read exactly
  // when it is a model of the functions printed and agrees with the names used twice.
  lemma ExtendsExactly(fs: seq<Bdd>, numbers: seq<nat>, functions: seq<Bdd>, table: seq<Name>, temps: nat, w: World)
    requires Writable(fs, numbers)
    requires ReadBack(functions, table, AllCuts(EquationsOf(fs, numbers), temps), fs, numbers)
    ensures var es := EquationsOf(fs, numbers);
            Extends(functions, table, es, w) <==> OthersHold(fs, Meant(numbers, w)) && Agrees(AllCuts(es, temps), es, w)
  {
    var es := EquationsOf(fs, numbers);
    var cuts := AllCuts(es, temps);
    AllCutsRight(es, temps);
    EquationsHold(fs, numbers, w);
    if Extends(functions, table, es, w) {
      var x: World :| SameOnFile(w, x, es) && AllHold(functions, Under(table, x));
      assert ReadBackAt(functions, table, cuts, fs, numbers, x);
      EquationsHold(fs, numbers, x);
      SatisfiedOnFile(es, w, x);
      forall k | 0 <= k < |cuts| ensures AgreesAt(cuts, es, w, k) {
        SameProducts(cuts, es, w, x, k);
        assert CutHolds(cuts[k], x);
      }
    }
    if OthersHold(fs, Meant(numbers, w)) && Agrees(cuts, es, w) {
      var x := Completed(cuts, es, w);
      CompletedHolds(cuts, temps, es, w);
      SatisfiedOnFile(es, w, x);
      EquationsHold(fs, numbers, x);
      assert ReadBackAt(functions, table, cuts, fs, numbers, x);
    }
  }

  // No model is lost exactly when every new name that the file uses as well is, in every
  // model of the functions printed, what its product is.
  lemma NoneLostExactly(fs: seq<Bdd>, numbers: seq<nat>, functions: seq<Bdd>, table: seq<Name>, temps: nat)
    requires Writable(fs, numbers)
    requires ReadBack(functions, table, AllCuts(EquationsOf(fs, numbers), temps), fs, numbers)
    ensures var es := EquationsOf(fs, numbers);
            (forall w: World :: OthersHold(fs, Meant(numbers, w)) ==> Extends(functions, table, es, w))
            <==> forall w: World :: OthersHold(fs, Meant(numbers, w)) ==> Agrees(AllCuts(es, temps), es, w)
  {
    forall w: World
      ensures var es := EquationsOf(fs, numbers);
              Extends(functions, table, es, w) <==> OthersHold(fs, Meant(numbers, w)) && Agrees(AllCuts(es, temps), es, w)
    {
      ExtendsExactly(fs, numbers, functions, table, temps, w);
    }
  }

  // Whatever collides, the new variables have one choice at most.
  lemma OneAtMost(fs: seq<Bdd>, numbers: seq<nat>, functions: seq<Bdd>, table: seq<Name>, temps: nat, x: World, y: World)
    requires Writable(fs, numbers)
    requires ReadBack(functions, table, AllCuts(EquationsOf(fs, numbers), temps), fs, numbers)
    requires SameOnFile(x, y, EquationsOf(fs, numbers)) && AllHold(functions, Under(table, x)) && AllHold(functions, Under(table, y))
    ensures forall n: Name :: IsNew(n, AllCuts(EquationsOf(fs, numbers), temps)) ==> (n in x <==> n in y)
  {
    var es := EquationsOf(fs, numbers);
    var cuts := AllCuts(es, temps);
    AllCutsRight(es, temps);
    assert ReadBackAt(functions, table, cuts, fs, numbers, x) && ReadBackAt(functions, table, cuts, fs, numbers, y);
    forall n: Name | IsNew(n, cuts) ensures n in x <==> n in y {
      var k :| 0 <= k < |cuts| && cuts[k].name == n;
      SameProducts(cuts, es, x, y, k);
      assert CutHolds(cuts[k], x) && CutHolds(cuts[k], y);
    }
  }

  // ----- a file with ten products, whose first new name is one of its own -----

  function Pair(k: nat): seq<Name> { [Decimal(2 * k + 1), Decimal(2 * k + 2)] }

  function Pairs(n: nat): seq<seq<Name>> {
    if n == 0 then [] else Pairs(n - 1) + [Pair(n - 1)]
  }

  // x104 =1 and x1x2 x3x4 ... x19x20 =1; with 100 variables announced the first new name is 104.
  function TenPairs(): seq<Equation> {
    [Equation([[Decimal(104)]], true), Equation(Pairs(10), true)]
  }

  ghost function Chosen(): World { iset{Decimal(104), Decimal(3), Decimal(4)} }

  lemma DecimalsApart(m: nat, n: nat)
    requires m != n
    ensures Decimal(m) != Decimal(n)
  {
    if Decimal(m) == Decimal(n) {
      DecimalInjective(m, n);
    }
  }

  lemma PairLong(k: nat)
    ensures Long(Pair(k))
  {
    var p := Pair(k);
    DecimalsApart(2 * k + 1, 2 * k + 2);
    assert p[1] != p[0];
  }

  // Only the second pair is true.
  lemma PairChosen(k: nat)
    requires k < 10
    ensures NamesTrue(Pair(k), Chosen()) <==> k == 1
  {
    var p := Pair(k);
    if k != 1 {
      DecimalsApart(2 * k + 1, 104);
      DecimalsApart(2 * k + 1, 3);
      DecimalsApart(2 * k + 1, 4);
      assert p[0] !in Chosen();
    }
  }

  lemma {:induction false} PairsAt(n: nat)
    ensures |Pairs(n)| == n && forall k :: 0 <= k < n ==> Pairs(n)[k] == Pair(k)
  {
    if n > 0 {
      PairsAt(n - 1);
    }
  }

  lemma PairsFront(n: nat)
    requires n > 0
    ensures |Pairs(n)| == n && Pairs(n)[..n - 1] == Pairs(n - 1) && Pairs(n)[n - 1] == Pair(n - 1)
  {
    PairsAt(n);
    PairsAt(n - 1);
  }

  lemma {:induction false} PairsNames(n: nat)
    ensures |Names(Pairs(n))| == 2 * n
  {
    if n > 0 {
      PairsFront(n);
      PairsNames(n - 1);
    }
  }

  lemma {:induction false} PairsCuts(n: nat, temps: nat)
    ensures |CutsOf(Pairs(n), temps)| == n && (n > 0 ==> CutsOf(Pairs(n), temps)[0] == Cut(Decimal(temps), Pair(0)))
  {
    if n > 0 {
      PairsFront(n);
      PairsCuts(n - 1, temps);
      PairLong(n - 1);
    }
  }

  lemma {:induction false} PairsOdd(n: nat)
    requires n <= 10
    ensures Odd(Pairs(n), Chosen()) == (n >= 2)
  {
    if n > 0 {
      PairsFront(n);
      PairsOdd(n - 1);
      PairChosen(n - 1);
    }
  }

  lemma {:induction false} EnterAllSize(table: seq<Name>, names: seq<Name>)
    ensures |EnterAll(table, names)| <= |table| + |names|
  {
    if names != [] {
      EnterAllSize(table, names[..|names| - 1]);
    }
  }

  // The table has no more than 31 names.
  lemma TenPairsAccepted()
    ensures Accepted(TenPairs(), 104, 102, 6)
    ensures |AllCuts(TenPairs(), 104)| == 10 && AllCuts(TenPairs(), 104)[0] == Cut(Decimal(104), Pair(0))
  {
    var es, e := TenPairs(), TenPairs()[1];
    var start := State([], 104, 0, []);
    assert es[..1] == [es[0]] && es[..1][..0] == [];
    assert Final([], 104) == start;
    assert Final(es[..1], 104) == Next(start, es[0]);
    assert Final(es, 104) == Next(Next(start, es[0]), e);
    FirstIsShort(start);
    PairsNames(10);
    PairsCuts(10, 104);
    var t := Next(start, es[0]);
    EnterAllSize(t.table, Names(e.products));
    EnterAllSize(EnterAll(t.table, Names(e.products)), CutNames(NewCuts(e.products, 104)));
    forall n: Name ensures SmallNumber(es, 104, 102, n) {
    }
  }

  lemma FirstIsShort(start: State)
    requires start == State([], 104, 0, [])
    ensures Next(start, TenPairs()[0]).cuts == [] && |Next(start, TenPairs()[0]).table| <= 1
    ensures Next(start, TenPairs()[0]).count == 1 && Next(start, TenPairs()[0]).temps == 104
  {
    var e := TenPairs()[0];
    assert e.products[..0] == [] && CutsOf([], 104) == [] && Names([]) == [];
    assert Names(e.products) == [Decimal(104)];
    assert NewCuts(e.products, 104) == [];
    EnterAllSize([], Names(e.products));
    EnterAllSize(EnterAll([], Names(e.products)), CutNames([]));
  }

  lemma PairValid(k: nat)
    ensures ValidProduct(Pair(k))
  {
    DecimalDigits(2 * k + 1);
    DecimalDigits(2 * k + 2);
  }

  lemma TenPairsValid()
    ensures ValidEquation(TenPairs()[0]) && ValidEquation(TenPairs()[1])
  {
    DecimalDigits(104);
    PairsAt(10);
    forall k: nat | k < 10 ensures ValidProduct(TenPairs()[1].products[k]) {
      PairValid(k);
    }
  }

  lemma TwoLines(e: Equation, e': Equation)
    ensures Equations([Some(e), Some(e')]) == [e, e']
  {
    var lines := [Some(e), Some(e')];
    assert lines[1..] == [Some(e')] && [Some(e')][1..] == [];
    assert Equations([Some(e')]) == [e'];
  }

  lemma TenPairsRead()
    ensures ParseFile(FileText([Some(TenPairs()[0]), Some(TenPairs()[1])])) == Some(TenPairs())
  {
    TenPairsValid();
    FileRead([Some(TenPairs()[0]), Some(TenPairs()[1])]);
    TwoLines(TenPairs()[0], TenPairs()[1]);
  }

  lemma ChosenSatisfies()
    ensures AllSatisfied(TenPairs(), Chosen()) && NamedIn(Decimal(104), TenPairs())
  {
    var e := TenPairs()[0];
    PairsOdd(10);
    assert e.products[..0] == [] && NamesTrue(e.products[0], Chosen());
    assert Satisfied(e, Chosen());
    assert Names(e.products) == Names([]) + [Decimal(104)];
    assert Decimal(104) in Names(TenPairs()[0].products);
  }

  // The reader accepts the file, and what it makes of it loses a solution of the equations.
  lemma CollisionExample(functions: seq<Bdd>, table: seq<Name>)
    requires FileSays(functions, table, TenPairs(), AllCuts(TenPairs(), 104))
    ensures ParseFile(FileText([Some(TenPairs()[0]), Some(TenPairs()[1])])) == Some(TenPairs()) && Accepted(TenPairs(), 104, 102, 6)
    ensures AllSatisfied(TenPairs(), Chosen()) && !Extends(functions, table, TenPairs(), Chosen())
  {
    TenPairsRead();
    TenPairsAccepted();
    ChosenSatisfies();
    PairChosen(0);
    AllCutsRight(TenPairs(), 104);
    CollisionLoses(functions, table, TenPairs(), AllCuts(TenPairs(), 104), Chosen(), 0);
  }

  // A new name that the file uses as well, where it differs from its product.
  lemma CollisionLoses(functions: seq<Bdd>, table: seq<Name>, es: seq<Equation>, cuts: seq<Cut>, w: World, k: nat)
    requires FileSays(functions, table, es, cuts) && FromFile(cuts, es) && k < |cuts| && NamedIn(cuts[k].name, es) && !CutHolds(cuts[k], w)
    ensures !Extends(functions, table, es, w)
  {
    forall x: World | SameOnFile(w, x, es) ensures !AllHold(functions, Under(table, x)) {
      SameProducts(cuts, es, w, x, k);
      assert FileSaysAt(functions, table, es, cuts, x);
    }
  }
}
