// Which files the XOR reader accepts (src/formats/xorbdd.cc), said without its steps:
// equations and products cut out are not too many, and no name of the file is entered
// too late.

module XorAcceptance {
  import opened Basics
  import opened XorText
  import opened XorNames
  import opened XorReader
  import opened XorFormat

  ghost predicate NamedIn(n: Name, es: seq<Equation>) {
    exists k :: 0 <= k < |es| && n in Names(es[k].products)
  }

  // One equation more, without limits: its names are entered, then the new ones.
  function Next(t: State, e: Equation): State {
    var cuts := NewCuts(e.products, t.temps);
    State(EnterAll(EnterAll(t.table, Names(e.products)), CutNames(cuts)), t.temps + |cuts|, t.count + |cuts| + 1, t.cuts + cuts)
  }

  // The whole file without limits; the first new name is temps.
  function Final(es: seq<Equation>, temps: nat): State {
    if es == [] then State([], temps, 0, []) else Next(Final(es[..|es| - 1], temps), es[|es| - 1])
  }

  // All products cut out, and the symbol table; the number of a name is its place.
  function AllCuts(es: seq<Equation>, temps: nat): seq<Cut> {
    Final(es, temps).cuts
  }

  function Table(es: seq<Equation>, temps: nat): seq<Name> {
    Final(es, temps).table
  }

  lemma NextCounts(t: State, e: Equation)
    ensures Next(t, e).count == t.count + 1 + (|Next(t, e).cuts| - |t.cuts|)
    ensures Next(t, e).temps == t.temps + (|Next(t, e).cuts| - |t.cuts|)
  {
  }

  // A function for each equation and each product cut out.
  lemma {:induction false} FinalCounts(es: seq<Equation>, temps: nat)
    ensures Final(es, temps).count == |es| + |AllCuts(es, temps)| && Final(es, temps).temps == temps + |AllCuts(es, temps)|
  {
    if es != [] {
      FinalCounts(es[..|es| - 1], temps);
      NextCounts(Final(es[..|es| - 1], temps), es[|es| - 1]);
    }
  }

  ghost predicate SmallNumber(es: seq<Equation>, temps: nat, limit: nat, n: Name) {
    Find(Table(es, temps), n) <= limit
  }

  ghost predicate SmallNumbers(es: seq<Equation>, temps: nat, limit: nat) {
    forall n: Name {:trigger SmallNumber(es, temps, limit, n)} :: NamedIn(n, es) ==> SmallNumber(es, temps, limit, n)
  }

  // The reader takes at most twice the functions announced, and numbers up to the limit.
  ghost predicate Accepted(es: seq<Equation>, temps: nat, limit: nat, numout: nat) {
    |es| + |AllCuts(es, temps)| <= 2 * numout && SmallNumbers(es, temps, limit)
  }

  lemma NamedMore(n: Name, es: seq<Equation>)
    requires es != []
    ensures NamedIn(n, es) <==> NamedIn(n, es[..|es| - 1]) || n in Names(es[|es| - 1].products)
  {
    var front := es[..|es| - 1];
    if NamedIn(n, front) {
      var k :| 0 <= k < |front| && n in Names(front[k].products);
      assert es[k] == front[k];
    }
    if NamedIn(n, es) {
      var k :| 0 <= k < |es| && n in Names(es[k].products);
      assert k < |front| ==> front[k] == es[k];
    }
  }

  // A table is left with more names, each of them once.
  lemma EnterTwice(table: seq<Name>, names: seq<Name>, more: seq<Name>)
    requires Distinct(table)
    ensures Stages(table, EnterAll(table, names), EnterAll(EnterAll(table, names), more), names)
  {
    EnterAllKeeps(table, names);
    EnterAllKeeps(EnterAll(table, names), more);
  }

  // The names before an equation, with its own, and with the new ones.
  ghost predicate Stages(table0: seq<Name>, table1: seq<Name>, table2: seq<Name>, names: seq<Name>) {
    && Distinct(table1) && Distinct(table2) && table0 <= table1 <= table2
    && forall n :: n in names ==> n in table1
  }

  lemma NextStages(t: State, e: Equation)
    requires Distinct(t.table)
    ensures Stages(t.table, EnterAll(t.table, Names(e.products)), Next(t, e).table, Names(e.products))
  {
    EnterTwice(t.table, Names(e.products), CutNames(NewCuts(e.products, t.temps)));
  }

  lemma {:induction false} TableDistinct(es: seq<Equation>, temps: nat)
    ensures Distinct(Table(es, temps))
  {
    if es != [] {
      TableDistinct(es[..|es| - 1], temps);
      NextStages(Final(es[..|es| - 1], temps), es[|es| - 1]);
    }
  }

  lemma TableMore(es: seq<Equation>, temps: nat)
    requires es != []
    ensures Stages(Table(es[..|es| - 1], temps), EnterAll(Table(es[..|es| - 1], temps), Names(es[|es| - 1].products)), Table(es, temps),
                   Names(es[|es| - 1].products))
  {
    TableDistinct(es[..|es| - 1], temps);
    NextStages(Final(es[..|es| - 1], temps), es[|es| - 1]);
  }

  lemma {:induction false} TableNames(es: seq<Equation>, temps: nat, n: Name)
    requires NamedIn(n, es)
    ensures n in Table(es, temps)
  {
    NamedMore(n, es);
    TableMore(es, temps);
    if NamedIn(n, es[..|es| - 1]) {
      TableNames(es[..|es| - 1], temps, n);
    }
  }

  // Numbers stay, so what is too large for a part is too large for the file.
  lemma NumbersMore(es: seq<Equation>, temps: nat, limit: nat)
    requires es != []
    ensures var front, e := es[..|es| - 1], es[|es| - 1];
            SmallNumbers(es, temps, limit) <==>
              SmallNumbers(front, temps, limit) && SmallIds(EnterAll(Table(front, temps), Names(e.products)), Names(e.products), limit)
  {
    var front, e := es[..|es| - 1], es[|es| - 1];
    var names := Names(e.products);
    var table1 := EnterAll(Table(front, temps), names);
    TableMore(es, temps);
    TableDistinct(es, temps);
    forall n: Name | NamedIn(n, front) ensures SmallNumber(es, temps, limit, n) <==> SmallNumber(front, temps, limit, n) {
      TableNames(front, temps, n);
      FindStays(Table(front, temps), Table(es, temps), n);
    }
    forall n: Name | n in names ensures SmallNumber(es, temps, limit, n) <==> Find(table1, n) <= limit {
      FindStays(table1, Table(es, temps), n);
    }
    if SmallNumbers(es, temps, limit) {
      NumbersOfParts(es, temps, limit, front, names, table1);
    }
    if SmallNumbers(front, temps, limit) && SmallIds(table1, names, limit) {
      forall n: Name | NamedIn(n, es) ensures SmallNumber(es, temps, limit, n) {
        NamedMore(n, es);
        if n in names {
          var k :| 0 <= k < |names| && names[k] == n;
        } else {
          assert SmallNumber(front, temps, limit, n);
        }
      }
    }
  }

  lemma NumbersOfParts(es: seq<Equation>, temps: nat, limit: nat, front: seq<Equation>, names: seq<Name>, table1: seq<Name>)
    requires es != [] && front == es[..|es| - 1] && names == Names(es[|es| - 1].products) && SmallNumbers(es, temps, limit)
    requires forall n: Name :: NamedIn(n, front) ==> (SmallNumber(es, temps, limit, n) <==> SmallNumber(front, temps, limit, n))
    requires forall n: Name :: n in names ==> (SmallNumber(es, temps, limit, n) <==> Find(table1, n) <= limit)
    ensures SmallNumbers(front, temps, limit) && SmallIds(table1, names, limit)
  {
    forall n: Name | NamedIn(n, front) ensures SmallNumber(front, temps, limit, n) {
      NamedMore(n, es);
      assert SmallNumber(es, temps, limit, n);
    }
    forall k | 0 <= k < |names| ensures Find(table1, names[k]) <= limit {
      NamedMore(names[k], es);
      assert SmallNumber(es, temps, limit, names[k]);
    }
  }

  lemma RunLast(es: seq<Equation>, s: State, limit: nat, numout: nat)
    requires es != []
    ensures var r := Run(es[..|es| - 1], s, limit, numout);
            Run(es, s, limit, numout) == if r.Some? then Step(r.value, es[|es| - 1], limit, numout) else None
  {
  }

  predicate NewNumbersSmall(t: State, e: Equation, limit: nat) {
    SmallIds(EnterAll(t.table, Names(e.products)), Names(e.products), limit)
  }

  lemma StepIs(t: State, e: Equation, limit: nat, numout: nat)
    ensures Step(t, e, limit, numout) == if NewNumbersSmall(t, e, limit) && Next(t, e).count <= 2 * numout then Some(Next(t, e)) else None
    ensures Next(t, e).count > t.count
  {
  }

  lemma FinalNumbers(es: seq<Equation>, temps: nat, limit: nat)
    requires es != []
    ensures SmallNumbers(es, temps, limit) <==>
              SmallNumbers(es[..|es| - 1], temps, limit) && NewNumbersSmall(Final(es[..|es| - 1], temps), es[|es| - 1], limit)
  {
    NumbersMore(es, temps, limit);
  }

  // What is accepted, by the state at the end.
  lemma AcceptedIs(es: seq<Equation>, temps: nat, limit: nat, numout: nat)
    ensures Accepted(es, temps, limit, numout) <==> Final(es, temps).count <= 2 * numout && SmallNumbers(es, temps, limit)
  {
    FinalCounts(es, temps);
  }

  // The reader ends in this state if it accepts, and accepts exactly these files.
  lemma {:induction false} RunExactly(es: seq<Equation>, variables: nat, limit: nat, numout: nat)
    ensures Run(es, Start(variables), limit, numout) ==
            if Accepted(es, variables + 4, limit, numout) then Some(Final(es, variables + 4)) else None
  {
    if es == [] {
      assert SmallNumbers(es, variables + 4, limit);
    } else {
      RunExactly(es[..|es| - 1], variables, limit, numout);
      RunLast(es, Start(variables), limit, numout);
      FromFront(es, variables + 4, limit, numout);
    }
  }

  lemma FromFront(es: seq<Equation>, temps: nat, limit: nat, numout: nat)
    requires es != []
    ensures var front, e := es[..|es| - 1], es[|es| - 1];
            if Accepted(front, temps, limit, numout)
            then Step(Final(front, temps), e, limit, numout) == if Accepted(es, temps, limit, numout) then Some(Final(es, temps)) else None
            else !Accepted(es, temps, limit, numout)
  {
    var front, e := es[..|es| - 1], es[|es| - 1];
    FinalNumbers(es, temps, limit);
    AcceptedIs(es, temps, limit, numout);
    AcceptedIs(front, temps, limit, numout);
    StepIs(Final(front, temps), e, limit, numout);
  }
}
