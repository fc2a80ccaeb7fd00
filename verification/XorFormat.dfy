// Writing functions as an XOR file and reading it back (src/formats/xorbdd.cc).

module XorFormat {
  import opened Basics
  import opened Bdd
  import opened Decimals
  import opened XorDiagram
  import opened XorFlat
  import opened XorText
  import opened XorNames
  import opened XorScanner
  import opened XorReader

  // ----- reading -----

  function Run(es: seq<Equation>, s: State, limit: nat, numout: nat): Option<State> {
    if es == [] then Some(s)
    else match Run(es[..|es| - 1], s, limit, numout)
      case None => None
      case Some(t) => Step(t, es[|es| - 1], limit, numout)
  }

  // Before the first equation of a file that announces so many variables.
  function Start(variables: nat): State {
    State([], variables + 4, 0, [])
  }

  ghost predicate AllSatisfied(es: seq<Equation>, w: World) {
    forall k :: 0 <= k < |es| ==> Satisfied(es[k], w)
  }

  // What the functions read so far say.
  ghost predicate FileSays(fs: seq<Bdd>, table: seq<Name>, es: seq<Equation>, cuts: seq<Cut>) {
    forall w: World {:trigger FileSaysAt(fs, table, es, cuts, w)} :: FileSaysAt(fs, table, es, cuts, w)
  }

  ghost predicate FileSaysAt(fs: seq<Bdd>, table: seq<Name>, es: seq<Equation>, cuts: seq<Cut>, w: World) {
    AllHold(fs, Under(table, w)) <==> CutsHold(cuts, w) && AllSatisfied(es, w)
  }

  lemma NothingRead()
    ensures FileSays([], [], [], [])
  {
    forall w: World ensures FileSaysAt([], [], [], [], w) {
    }
  }

  lemma CutsHoldAppend(cuts: seq<Cut>, more: seq<Cut>, w: World)
    ensures CutsHold(cuts + more, w) <==> CutsHold(cuts, w) && CutsHold(more, w)
  {
    var all := cuts + more;
    if CutsHold(all, w) {
      assert forall k :: 0 <= k < |cuts| ==> all[k] == cuts[k];
      assert forall k :: 0 <= k < |more| ==> all[|cuts| + k] == more[k];
    }
  }

  lemma SatisfiedMore(es: seq<Equation>, e: Equation, w: World)
    ensures AllSatisfied(es + [e], w) <==> AllSatisfied(es, w) && Satisfied(e, w)
  {
    var all := es + [e];
    assert all[|es|] == e && forall k :: 0 <= k < |es| ==> all[k] == es[k];
  }

  lemma FileSaysMore(fs0: seq<Bdd>, table0: seq<Name>, es: seq<Equation>, cuts: seq<Cut>,
                     fs: seq<Bdd>, table: seq<Name>, e: Equation, more: seq<Cut>)
    requires FileSays(fs0, table0, es, cuts) && Extends(fs0, table0, fs, table, more, e)
    ensures FileSays(fs, table, es + [e], cuts + more)
  {
    forall w: World ensures FileSaysAt(fs, table, es + [e], cuts + more, w) {
      assert FileSaysAt(fs0, table0, es, cuts, w) && ExtendsAt(fs0, table0, fs, table, more, e, w);
      CutsHoldAppend(cuts, more, w);
      SatisfiedMore(es, e, w);
    }
  }

  // The reader after the equations es.
  ghost predicate Reached(reader: XorReader, es: seq<Equation>, cuts: seq<Cut>, variables: nat)
    reads reader
  {
    && reader.limit == variables + 2 && reader.Valid()
    && ReachedBy(es, cuts, variables, reader.numout, reader.table, reader.tempVars, reader.functions)
  }

  ghost predicate ReachedBy(es: seq<Equation>, cuts: seq<Cut>, variables: nat, numout: nat, table: seq<Name>, temps: nat, fs: seq<Bdd>) {
    && Run(es, Start(variables), variables + 2, numout) == Some(State(table, temps, |fs|, cuts))
    && FileSays(fs, table, es, cuts)
  }

  lemma RunMore(es: seq<Equation>, e: Equation, s: State, t: State, limit: nat, numout: nat)
    requires Run(es, s, limit, numout) == Some(t)
    ensures Run(es + [e], s, limit, numout) == Step(t, e, limit, numout)
  {
    assert (es + [e])[..|es|] == es;
  }

  lemma {:induction false} RunFails(es: seq<Equation>, k: nat, s: State, limit: nat, numout: nat)
    requires k <= |es| && Run(es[..k], s, limit, numout) == None
    ensures Run(es, s, limit, numout) == None
  {
    if k < |es| {
      assert es[..|es| - 1][..k] == es[..k];
      RunFails(es[..|es| - 1], k, s, limit, numout);
    } else {
      assert es[..k] == es;
    }
  }

  // One more equation.
  method ReadOne(reader: XorReader, e: Equation, ghost es: seq<Equation>, ghost cuts: seq<Cut>, variables: nat)
    returns (ok: bool, ghost cuts': seq<Cut>)
    requires Reached(reader, es, cuts, variables) && Filled(e.products)
    modifies reader
    ensures ok ==> Reached(reader, es + [e], cuts', variables)
    ensures !ok ==> Run(es + [e], Start(variables), variables + 2, reader.numout) == None
  {
    ghost var fs0, table0, temps := reader.functions, reader.table, reader.tempVars;
    ok := reader.AddEquation(e, cuts);
    cuts' := cuts + NewCuts(e.products, temps);
    RunMore(es, e, Start(variables), State(table0, temps, |fs0|, cuts), variables + 2, reader.numout);
    if ok {
      FileSaysMore(fs0, table0, es, cuts, reader.functions, reader.table, e, NewCuts(e.products, temps));
    }
  }

  // es are read, and the rest of the file starts with symbol p.
  ghost predicate Reading(all: Option<seq<Equation>>, es: seq<Equation>, p: Symbol, rest: seq<nat>) {
    all == After(es, ParseFrom(p, rest)) || (p.Bad? && all == None)
  }

  ghost predicate Refused(all: Option<seq<Equation>>, variables: nat, numout: nat) {
    all == None || Run(all.value, Start(variables), variables + 2, numout) == None
  }

  lemma Advance(all: Option<seq<Equation>>, es: seq<Equation>, e: Equation, p: Symbol, t: seq<nat>, u: seq<nat>)
    requires p.Variable? && all == After(es, ParseFrom(p, t)) && ParseProducts(p, t, 0, []) == Some((e, u))
    ensures all == After(es + [e], ParseFrom(NextSymbol(u).0, NextSymbol(u).1))
  {
    var more := ParseFrom(NextSymbol(u).0, NextSymbol(u).1);
    if more.Some? {
      assert es + ([e] + more.value) == es + [e] + more.value;
    }
  }

  lemma Ended(all: Option<seq<Equation>>, es: seq<Equation>, p: Symbol, rest: seq<nat>)
    requires Reading(all, es, p, rest) && !p.Variable?
    ensures all == if p.End? then Some(es) else None
  {
    assert es + [] == es;
  }

  lemma Unreadable(all: Option<seq<Equation>>, es: seq<Equation>, p: Symbol, t: seq<nat>)
    requires p.Variable? && all == After(es, ParseFrom(p, t)) && ParseProducts(p, t, 0, []) == None
    ensures all == None
  {
  }

  // The next equation and the symbol after it.
  method ReadNext(scanner: Scanner, reader: XorReader, p: Symbol, ghost es: seq<Equation>, ghost cuts: seq<Cut>, variables: nat,
                  ghost all: Option<seq<Equation>>)
    returns (ok: bool, p': Symbol, ghost es': seq<Equation>, ghost cuts': seq<Cut>)
    requires scanner.Valid() && Reached(reader, es, cuts, variables)
    requires p.Variable? && all == After(es, ParseFrom(p, scanner.Rest()))
    modifies scanner, reader
    ensures scanner.Valid() && scanner.pos >= old(scanner.pos) && (p'.Variable? ==> scanner.pos > old(scanner.pos))
    ensures ok ==> Reached(reader, es', cuts', variables) && Reading(all, es', p', scanner.Rest())
    ensures !ok ==> Refused(all, variables, reader.numout)
  {
    ghost var start := scanner.Rest();
    var e := scanner.ReadEquation(p);
    p', es', cuts' := End, es, cuts;
    if e == None {
      Unreadable(all, es, p, start);
      return false, p', es', cuts';
    }
    ghost var rest := scanner.Rest();
    Advance(all, es, e.value, p, start, rest);
    ok, cuts' := ReadOne(reader, e.value, es, cuts, variables);
    es' := es + [e.value];
    p' := scanner.GetNextSymbol();
    if !ok {
      StoppedEarly(all, es', ParseFrom(NextSymbol(rest).0, NextSymbol(rest).1), variables, reader.numout);
    }
  }

  // xorloop on the part of the file after the header, which announced so many
  // variables and functions.
  method XorLoop(input: seq<nat>, variables: nat, numout: nat) returns (ok: bool, functions: seq<Bdd>, table: seq<Name>, ghost es: seq<Equation>, ghost cuts: seq<Cut>)
    ensures ok <==> !Refused(ParseFile(input), variables, numout)
    ensures ok ==> ParseFile(input) == Some(es)
    ensures ok ==> Run(es, Start(variables), variables + 2, numout).Some? && cuts == Run(es, Start(variables), variables + 2, numout).value.cuts
    ensures ok ==> FileSays(functions, table, es, cuts) && Distinct(table) && AllOver(functions, |table|)
  {
    var scanner := new Scanner(input);
    var reader := new XorReader(variables, numout);
    ok, functions, table, es, cuts := true, [], [], [], [];
    NothingRead();
    ghost var all := ParseFile(input);
    AfterNothing(all);
    var p := scanner.GetNextSymbol();
    while p.Variable? && ok
      invariant scanner.Valid() && reader.numout == numout
      invariant ok ==> Reached(reader, es, cuts, variables) && Reading(all, es, p, scanner.Rest())
      invariant !ok ==> Refused(all, variables, numout)
      invariant scanner.input == input
      decreases ok, if p.Variable? then 1 + |input| - scanner.pos else 0
    {
      ok, p, es, cuts := ReadNext(scanner, reader, p, es, cuts, variables, all);
    }
    if ok {
      Ended(all, es, p, scanner.Rest());
    }
    ok := ok && p.End?;
    if ok {
      functions, table := reader.functions, reader.table;
    }
  }

  lemma AfterNothing(more: Option<seq<Equation>>)
    ensures After([], more) == more
  {
    if more.Some? {
      assert [] + more.value == more.value;
    }
  }

  lemma StoppedEarly(all: Option<seq<Equation>>, es: seq<Equation>, more: Option<seq<Equation>>, variables: nat, numout: nat)
    requires all == After(es, more) && Run(es, Start(variables), variables + 2, numout) == None
    ensures all == None || Run(all.value, Start(variables), variables + 2, numout) == None
  {
    if all.Some? {
      assert all.value[..|es|] == es;
      RunFails(all.value, |es|, Start(variables), variables + 2, numout);
    }
  }
}
