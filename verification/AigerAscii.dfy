// Writing and reading ASCII AIGER files (src/formats/aiger.c): the reader fills an
// AIG whose types say which literals are defined already.

module AigerAscii {
  import opened AigGraph
  import opened AigModel
  import opened AigSemantics
  import opened AigerBinary
  import opened AsciiFormat
  import opened Basics
  import opened CycleCheck
  import opened Decimals
  import opened ReencodeAig

  // ----- writing -----

  method WriteLatches(ls: seq<Latch>, out: seq<nat>) returns (out': seq<nat>)
    ensures out' == out + LatchText(ls)
  {
    out' := out;
    var i := 0;
    while i < |ls|
      invariant 0 <= i <= |ls| && out' + LatchText(ls[i..]) == out + LatchText(ls)
    {
      assert ls[i..][1..] == ls[i + 1..];
      Regroup(out', LatchLine(ls[i]), LatchText(ls[i + 1..]));
      out' := out' + LatchLine(ls[i]);
      i := i + 1;
    }
  }

  method WriteAndLines(ands: seq<And>, out: seq<nat>) returns (out': seq<nat>)
    ensures out' == out + AndText(ands)
  {
    out' := out;
    var i := 0;
    while i < |ands|
      invariant 0 <= i <= |ands| && out' + AndText(ands[i..]) == out + AndText(ands)
    {
      assert ands[i..][1..] == ands[i + 1..];
      Regroup(out', AndLine(ands[i]), AndText(ands[i + 1..]));
      out' := out' + AndLine(ands[i]);
      i := i + 1;
    }
  }

  // all is what is written when the names from i on follow.
  ghost predicate TextLeft(all: seq<nat>, out: seq<nat>, mark: nat, names: Names, i: nat) {
    out + SymbolText(mark, names, i) == all
  }

  lemma TextStep(all: seq<nat>, out: seq<nat>, mark: nat, names: Names, i: nat)
    requires i < |names| && TextLeft(all, out, mark, names, i)
    ensures TextLeft(all, if names[i].Some? then out + SymbolLine(mark, i, names[i]) else out, mark, names, i + 1)
  {
    Regroup(out, SymbolLine(mark, i, names[i]), SymbolText(mark, names, i + 1));
  }

  // aiger_write_symbols_aux.
  method WriteNames(mark: nat, names: Names, out: seq<nat>) returns (out': seq<nat>)
    ensures out' == out + SymbolText(mark, names, 0)
  {
    out' := out;
    var i := 0;
    while i < |names|
      invariant 0 <= i <= |names| && TextLeft(out + SymbolText(mark, names, 0), out', mark, names, i)
    {
      TextStep(out + SymbolText(mark, names, 0), out', mark, names, i);
      if names[i].Some? {
        out' := out' + SymbolLine(mark, i, names[i]);
      }
      i := i + 1;
    }
  }

  // aiger_write_header and aiger_write_ascii, then aiger_write_symbols.
  method WriteAscii(n: Aig, symbols: Symbols) returns (out: seq<nat>)
    ensures out == AagText(n, symbols)
  {
    out := AagHeader(Header(n.maxvar, |n.inputs|, |n.latches|, |n.outputs|, |n.ands|));
    ghost var head := out;
    out := WriteLines(n.inputs, out);
    out := WriteLatches(n.latches, out);
    out := WriteLines(n.outputs, out);
    out := WriteAndLines(n.ands, out);
    out := WriteNames(INPUT_MARK, symbols.inputs, out);
    out := WriteNames(LATCH_MARK, symbols.latches, out);
    out := WriteNames(OUTPUT_MARK, symbols.outputs, out);
    Pieces(head, Lines(n.inputs), LatchText(n.latches), Lines(n.outputs), AndText(n.ands), SymbolText(INPUT_MARK, symbols.inputs, 0),
           SymbolText(LATCH_MARK, symbols.latches, 0), SymbolText(OUTPUT_MARK, symbols.outputs, 0));
  }

  lemma Pieces(a: seq<nat>, b: seq<nat>, c: seq<nat>, d: seq<nat>, e: seq<nat>, f: seq<nat>, g: seq<nat>, h: seq<nat>)
    ensures a + b + c + d + e + f + g + h == a + (b + (c + (d + (e + (f + (g + h))))))
  {
    Regroup(a + b + c + d + e + f, g, h);
    Regroup(a + b + c + d + e, f, g + h);
    Regroup(a + b + c + d, e, f + (g + h));
    Regroup(a + b + c, d, e + (f + (g + h)));
    Regroup(a + b, c, d + (e + (f + (g + h))));
    Regroup(a, b, c + (d + (e + (f + (g + h)))));
  }

  // ----- types -----

  predicate Typed(t: Type) { t.input || t.latch || t.and }

  // A literal is typed exactly when it is defined.
  lemma TypedDefined(n: Aig, types: seq<Type>, lit: nat)
    requires TypesMatch(n, types) && ValidVar(lit, n.maxvar)
    ensures Typed(types[Lit2Var(lit)]) <==> lit in Definitions(n)
  {
    var t, defs := types[Lit2Var(lit)], Definitions(n);
    assert TypeMatch(n, t, Lit2Var(lit));
    if t.input {
      assert defs[t.idx] == lit;
    } else if t.latch {
      assert defs[|n.inputs| + t.idx] == lit;
    } else if t.and {
      assert defs[|n.inputs| + |n.latches| + t.idx] == lit;
    }
    if lit in defs {
      var k: nat :| k < |defs| && defs[k] == lit;
      if k < |n.inputs| {
        assert InputMatch(n, types, k);
      } else if k < |n.inputs| + |n.latches| {
        assert LatchMatch(n, types, k - |n.inputs|);
      } else {
        assert AndMatch(n, types, k - |n.inputs| - |n.latches|);
      }
    }
  }

  // Types that match an AIG say the same of every variable.
  lemma TypesAgree(n: Aig, types: seq<Type>, types': seq<Type>, v: nat)
    requires TypesMatch(n, types) && TypesMatch(n, types') && v <= n.maxvar
    ensures types[v].input == types'[v].input && types[v].latch == types'[v].latch && types[v].and == types'[v].and
    ensures Typed(types[v]) ==> types[v].idx == types'[v].idx
  {
    if v > 0 {
      TypeCarried(n, types, types', v);
      TypeCarried(n, types', types, v);
    }
  }

  lemma TypeCarried(n: Aig, types: seq<Type>, types': seq<Type>, v: nat)
    requires TypesMatch(n, types) && TypesMatch(n, types') && 1 <= v <= n.maxvar
    ensures types[v].input ==> types'[v].input && types'[v].idx == types[v].idx
    ensures types[v].latch ==> types'[v].latch && types'[v].idx == types[v].idx
    ensures types[v].and ==> types'[v].and && types'[v].idx == types[v].idx
  {
    var t := types[v];
    assert TypeMatch(n, t, v);
    if t.input {
      assert InputMatch(n, types', t.idx);
    } else if t.latch {
      assert LatchMatch(n, types', t.idx);
    } else if t.and {
      assert AndMatch(n, types', t.idx);
    }
  }

  // So being well-formed does not depend on them.
  lemma WellFormedAgain(n: Aig, types: seq<Type>, types': seq<Type>)
    requires WellFormed(n, types) && TypesMatch(n, types')
    ensures WellFormed(n, types')
  {
    forall v: nat | v <= n.maxvar
      ensures DefinedVar(types, n.maxvar, v) ==> DefinedVar(types', n.maxvar, v)
      ensures types[v].and == types'[v].and && (types[v].and ==> types[v].idx == types'[v].idx)
    {
      TypesAgree(n, types, types', v);
    }
    assert AllDefined(n, types');
    assert Gates(n, types) == Gates(n, types') by {
      SameGates(n, types, types');
    }
    var rank: map<nat, nat> :| RanksAll(Gates(n, types), rank);
    assert RanksAll(Gates(n, types'), rank);
  }

  lemma SameGates(n: Aig, types: seq<Type>, types': seq<Type>)
    requires TypesMatch(n, types) && TypesMatch(n, types') && AllDefined(n, types) && AllDefined(n, types')
    ensures Gates(n, types) == Gates(n, types')
  {
    DefinedFit(n, types);
    DefinedFit(n, types');
    var g, g' := Gates(n, types), Gates(n, types');
    forall v: nat | v <= n.maxvar ensures g[v] == g'[v] {
      TypesAgree(n, types, types', v);
    }
  }

  // ----- reading -----

  // The variables of a well-formed AIG, with 32-bit literals, make it readable.
  lemma WellFormedReadable(n: Aig, types: seq<Type>)
    requires WellFormed(n, types) && n.maxvar < TWO_TO_THE_32 / 2 && |n.outputs| < TWO_TO_THE_32
    ensures Readable(n)
  {
    var defs := Definitions(n);
    forall i, j | 0 <= i < j < |defs| ensures defs[i] != defs[j] {
      DefinitionsApart(n, types, i, j);
    }
    forall i: nat | i < |defs| ensures ValidVar(defs[i], n.maxvar) {
      DefinitionTyped(n, types, i);
    }
    assert forall i :: 0 <= i < |n.latches| ==> Defined(types, n.maxvar, n.latches[i].next);
    assert forall i :: 0 <= i < |n.outputs| ==> Defined(types, n.maxvar, n.outputs[i]);
    assert forall i :: 0 <= i < |n.ands| ==> Defined(types, n.maxvar, n.ands[i].rhs0) && Defined(types, n.maxvar, n.ands[i].rhs1);
  }

  // The position of a definition follows from the type of its variable.
  lemma DefinitionTyped(n: Aig, types: seq<Type>, k: nat)
    requires TypesMatch(n, types) && k < |Definitions(n)|
    ensures ValidVar(Definitions(n)[k], n.maxvar)
    ensures var t := types[Lit2Var(Definitions(n)[k])];
            k == if t.input then t.idx else if t.latch then |n.inputs| + t.idx else |n.inputs| + |n.latches| + t.idx
  {
    if k < |n.inputs| {
      assert InputMatch(n, types, k);
    } else if k < |n.inputs| + |n.latches| {
      assert LatchMatch(n, types, k - |n.inputs|);
    } else {
      assert AndMatch(n, types, k - |n.inputs| - |n.latches|);
    }
    var v := Lit2Var(Definitions(n)[k]);
    assert TypeMatch(n, types[v], v);
  }

  lemma DefinitionsApart(n: Aig, types: seq<Type>, i: nat, j: nat)
    requires TypesMatch(n, types) && i < j < |Definitions(n)|
    ensures Definitions(n)[i] != Definitions(n)[j]
  {
    DefinitionTyped(n, types, i);
    DefinitionTyped(n, types, j);
  }

  lemma InputAdded(n: Aig, types: seq<Type>, lit: nat)
    requires TypesMatch(n, types) && ValidVar(lit, n.maxvar) && !Typed(types[Lit2Var(lit)])
    ensures TypesMatch(n.(inputs := n.inputs + [lit]), types[Lit2Var(lit) := types[Lit2Var(lit)].(input := true, idx := |n.inputs|)])
  {
    var n', v := n.(inputs := n.inputs + [lit]), Lit2Var(lit);
    var types' := types[v := types[v].(input := true, idx := |n.inputs|)];
    OthersMatch(n, types, n', types', v);
    forall i: nat | i < |n'.inputs| ensures InputMatch(n', types', i) {
      if i < |n.inputs| {
        assert InputMatch(n, types, i);
      }
    }
    forall i: nat | i < |n.latches| ensures LatchMatch(n', types', i) {
      assert LatchMatch(n, types, i);
    }
    forall i: nat | i < |n.ands| ensures AndMatch(n', types', i) {
      assert AndMatch(n, types, i);
    }
  }

  lemma LatchAdded(n: Aig, types: seq<Type>, l: Latch)
    requires TypesMatch(n, types) && ValidVar(l.lit, n.maxvar) && !Typed(types[Lit2Var(l.lit)])
    ensures TypesMatch(n.(latches := n.latches + [l]), types[Lit2Var(l.lit) := types[Lit2Var(l.lit)].(latch := true, idx := |n.latches|)])
  {
    var n', v := n.(latches := n.latches + [l]), Lit2Var(l.lit);
    var types' := types[v := types[v].(latch := true, idx := |n.latches|)];
    OthersMatch(n, types, n', types', v);
    forall i: nat | i < |n.inputs| ensures InputMatch(n', types', i) {
      assert InputMatch(n, types, i);
    }
    forall i: nat | i < |n'.latches| ensures LatchMatch(n', types', i) {
      if i < |n.latches| {
        assert LatchMatch(n, types, i);
      }
    }
    forall i: nat | i < |n.ands| ensures AndMatch(n', types', i) {
      assert AndMatch(n, types, i);
    }
  }

  lemma AndAdded(n: Aig, types: seq<Type>, and: And)
    requires TypesMatch(n, types) && ValidVar(and.lhs, n.maxvar) && !Typed(types[Lit2Var(and.lhs)])
    ensures TypesMatch(n.(ands := n.ands + [and]), types[Lit2Var(and.lhs) := types[Lit2Var(and.lhs)].(and := true, idx := |n.ands|)])
  {
    var n', v := n.(ands := n.ands + [and]), Lit2Var(and.lhs);
    var types' := types[v := types[v].(and := true, idx := |n.ands|)];
    OthersMatch(n, types, n', types', v);
    forall i: nat | i < |n.inputs| ensures InputMatch(n', types', i) {
      assert InputMatch(n, types, i);
    }
    forall i: nat | i < |n.latches| ensures LatchMatch(n', types', i) {
      assert LatchMatch(n, types, i);
    }
    forall i: nat | i < |n'.ands| ensures AndMatch(n', types', i) {
      if i < |n.ands| {
        assert AndMatch(n, types, i);
      }
    }
  }

  // One definition more leaves the types of the other variables right.
  lemma OthersMatch(n: Aig, types: seq<Type>, n': Aig, types': seq<Type>, v: nat)
    requires TypesMatch(n, types) && n'.maxvar == n.maxvar && |types'| == |types| && v <= n.maxvar
    requires n.inputs <= n'.inputs && n.latches <= n'.latches && n.ands <= n'.ands
    requires forall u :: 0 <= u < |types| && u != v ==> types'[u] == types[u]
    ensures forall u: nat :: 1 <= u <= n.maxvar && u != v ==> TypeMatch(n', types'[u], u)
  {
    forall u: nat | 1 <= u <= n.maxvar && u != v ensures TypeMatch(n', types'[u], u) {
      assert TypeMatch(n, types[u], u);
    }
  }

  // Every literal is of a variable up to maxvar.
  ghost predicate Bounded(n: Aig) {
    && (forall i :: 0 <= i < |n.latches| ==> Lit2Var(n.latches[i].next) <= n.maxvar)
    && (forall i :: 0 <= i < |n.outputs| ==> Lit2Var(n.outputs[i]) <= n.maxvar)
    && forall i :: 0 <= i < |n.ands| ==> Lit2Var(n.ands[i].rhs0) <= n.maxvar && Lit2Var(n.ands[i].rhs1) <= n.maxvar
  }

  ghost predicate Unmet(types: seq<Type>) {
    forall v :: 0 <= v < |types| ==> !types[v].mark && !types[v].onstack
  }

  // The AIG read so far: its types match, no check has run.
  ghost predicate Filled(a: Aiger)
    reads a
  {
    a.error == None && TypesMatch(Public(a), a.types) && Bounded(Public(a)) && Unmet(a.types)
  }

  // aiger_already_defined; the parser's test of the literal comes first.
  method AcceptLit(a: Aiger, lit: nat) returns (ok: bool)
    requires Filled(a)
    ensures ok <==> ValidVar(lit, a.maxvar) && lit !in Definitions(Public(a))
    ensures ok ==> !Typed(a.types[Lit2Var(lit)])
  {
    if lit == 0 || lit % 2 != 0 || Lit2Var(lit) > a.maxvar {
      return false;
    }
    TypedDefined(Public(a), a.types, lit);
    var t := a.types[Lit2Var(lit)];
    ok := !t.input && !t.latch && !t.and;
  }

  // aiger_add_input, without a name.
  method AddInput(a: Aiger, lit: nat)
    requires Filled(a) && ValidVar(lit, a.maxvar) && !Typed(a.types[Lit2Var(lit)])
    modifies a
    ensures Filled(a) && Public(a) == old(Public(a)).(inputs := old(a.inputs) + [lit])
  {
    InputAdded(Public(a), a.types, lit);
    var v := Lit2Var(lit);
    a.types := a.types[v := a.types[v].(input := true, idx := |a.inputs|)];
    a.inputs := a.inputs + [lit];
  }

  // aiger_add_latch.
  method AddLatch(a: Aiger, l: Latch)
    requires Filled(a) && ValidVar(l.lit, a.maxvar) && !Typed(a.types[Lit2Var(l.lit)]) && Lit2Var(l.next) <= a.maxvar
    modifies a
    ensures Filled(a) && Public(a) == old(Public(a)).(latches := old(a.latches) + [l])
  {
    LatchAdded(Public(a), a.types, l);
    var v := Lit2Var(l.lit);
    a.types := a.types[v := a.types[v].(latch := true, idx := |a.latches|)];
    a.latches := a.latches + [l];
  }

  // aiger_add_and.
  method AddAnd(a: Aiger, and: And)
    requires Filled(a) && ValidVar(and.lhs, a.maxvar) && !Typed(a.types[Lit2Var(and.lhs)])
    requires Lit2Var(and.rhs0) <= a.maxvar && Lit2Var(and.rhs1) <= a.maxvar
    modifies a
    ensures Filled(a) && Public(a) == old(Public(a)).(ands := old(a.ands) + [and])
  {
    AndAdded(Public(a), a.types, and);
    var v := Lit2Var(and.lhs);
    a.types := a.types[v := a.types[v].(and := true, idx := |a.ands|)];
    a.ands := a.ands + [and];
  }

  // What the result is, with k inputs left to read.
  ghost predicate InputsLeft(result: Option<(Aig, seq<nat>)>, s: seq<nat>, k: nat, n: Aig) {
    result == ParseInputs(s, k, n)
  }

  lemma InputsDone(result: Option<(Aig, seq<nat>)>, s: seq<nat>, n: Aig)
    requires InputsLeft(result, s, 0, n)
    ensures result == Some((n, s))
  {
  }

  // One step of the loop below.
  method NextInput(reader: Reader, a: Aiger, k: nat, ghost result: Option<(Aig, seq<nat>)>) returns (ok: bool)
    requires reader.Valid() && Filled(a) && k > 0 && InputsLeft(result, reader.Rest(), k, Public(a))
    modifies reader, a
    ensures reader.Valid() && Filled(a)
    ensures if ok then InputsLeft(result, reader.Rest(), k - 1, Public(a)) else result == None
  {
    var lit := reader.ReadLiteral(NEWLINE);
    if lit == None { return false; }
    var accepted := AcceptLit(a, lit.value);
    if !accepted { return false; }
    AddInput(a, lit.value);
    return true;
  }

  // The part of aiger_read_header over the inputs.
  method ReadInputs(reader: Reader, a: Aiger, k: nat) returns (ok: bool)
    requires reader.Valid() && Filled(a)
    modifies reader, a
    ensures reader.Valid() && Filled(a)
    ensures match ParseInputs(old(reader.Rest()), k, old(Public(a)))
            case None => !ok
            case Some((n, t)) => ok && Public(a) == n && reader.Rest() == t
  {
    ghost var result := ParseInputs(reader.Rest(), k, Public(a));
    ok := true;
    var i := 0;
    while i < k
      invariant ok && 0 <= i <= k && reader.Valid() && Filled(a)
      invariant InputsLeft(result, reader.Rest(), k - i, Public(a))
    {
      ok := NextInput(reader, a, k - i, result);
      if !ok { return; }
      i := i + 1;
    }
    InputsDone(result, reader.Rest(), Public(a));
  }

  method ReadLatch(reader: Reader, a: Aiger) returns (r: Option<Latch>)
    requires reader.Valid() && Filled(a)
    modifies reader
    ensures reader.Valid() && (r.Some? ==> ValidVar(r.value.lit, a.maxvar) && !Typed(a.types[Lit2Var(r.value.lit)]) && Lit2Var(r.value.next) <= a.maxvar)
    ensures match ParseLatch(old(reader.Rest()), Public(a))
            case None => r == None
            case Some((l, t)) => r == Some(l) && reader.Rest() == t
  {
    var lit := reader.ReadLiteral(SPACE);
    if lit == None { return None; }
    var accepted := AcceptLit(a, lit.value);
    if !accepted { return None; }
    var next := reader.ReadLiteral(NEWLINE);
    if next == None || Lit2Var(next.value) > a.maxvar { return None; }
    return Some(Latch(lit.value, next.value));
  }

  // What the result is, with k latches left to read.
  ghost predicate LatchesLeft(result: Option<(Aig, seq<nat>)>, s: seq<nat>, k: nat, n: Aig) {
    result == ParseLatches(s, k, n)
  }

  lemma LatchesDone(result: Option<(Aig, seq<nat>)>, s: seq<nat>, n: Aig)
    requires LatchesLeft(result, s, 0, n)
    ensures result == Some((n, s))
  {
  }

  // One step of the loop below.
  method NextLatch(reader: Reader, a: Aiger, k: nat, ghost result: Option<(Aig, seq<nat>)>) returns (ok: bool)
    requires reader.Valid() && Filled(a) && k > 0 && LatchesLeft(result, reader.Rest(), k, Public(a))
    modifies reader, a
    ensures reader.Valid() && Filled(a)
    ensures if ok then LatchesLeft(result, reader.Rest(), k - 1, Public(a)) else result == None
  {
    var l := ReadLatch(reader, a);
    if l == None { return false; }
    AddLatch(a, l.value);
    return true;
  }

  // The part over the latches.
  method ReadLatches(reader: Reader, a: Aiger, k: nat) returns (ok: bool)
    requires reader.Valid() && Filled(a)
    modifies reader, a
    ensures reader.Valid() && Filled(a)
    ensures match ParseLatches(old(reader.Rest()), k, old(Public(a)))
            case None => !ok
            case Some((n, t)) => ok && Public(a) == n && reader.Rest() == t
  {
    ghost var result := ParseLatches(reader.Rest(), k, Public(a));
    ok := true;
    var i := 0;
    while i < k
      invariant ok && 0 <= i <= k && reader.Valid() && Filled(a)
      invariant LatchesLeft(result, reader.Rest(), k - i, Public(a))
    {
      ok := NextLatch(reader, a, k - i, result);
      if !ok { return; }
      i := i + 1;
    }
    LatchesDone(result, reader.Rest(), Public(a));
  }

  // What the result is, with k outputs left to read.
  ghost predicate OutputsLeft(result: Option<(Aig, seq<nat>)>, s: seq<nat>, k: nat, n: Aig) {
    result == ParseOutputs(s, k, n)
  }

  lemma OutputsDone(result: Option<(Aig, seq<nat>)>, s: seq<nat>, n: Aig)
    requires OutputsLeft(result, s, 0, n)
    ensures result == Some((n, s))
  {
  }

  // One step of the loop below.
  method NextOutput(reader: Reader, a: Aiger, k: nat, ghost result: Option<(Aig, seq<nat>)>) returns (ok: bool)
    requires reader.Valid() && Filled(a) && k > 0 && OutputsLeft(result, reader.Rest(), k, Public(a))
    modifies reader, a
    ensures reader.Valid() && Filled(a)
    ensures if ok then OutputsLeft(result, reader.Rest(), k - 1, Public(a)) else result == None
  {
    var lit := reader.ReadLiteral(NEWLINE);
    if lit == None || Lit2Var(lit.value) > a.maxvar { return false; }
    AddOutput(a, lit.value);
    return true;
  }

  // The part over the outputs.
  method ReadOutputs(reader: Reader, a: Aiger, k: nat) returns (ok: bool)
    requires reader.Valid() && Filled(a)
    modifies reader, a
    ensures reader.Valid() && Filled(a)
    ensures match ParseOutputs(old(reader.Rest()), k, old(Public(a)))
            case None => !ok
            case Some((n, t)) => ok && Public(a) == n && reader.Rest() == t
  {
    ghost var result := ParseOutputs(reader.Rest(), k, Public(a));
    ok := true;
    var i := 0;
    while i < k
      invariant ok && 0 <= i <= k && reader.Valid() && Filled(a)
      invariant OutputsLeft(result, reader.Rest(), k - i, Public(a))
    {
      ok := NextOutput(reader, a, k - i, result);
      if !ok { return; }
      i := i + 1;
    }
    OutputsDone(result, reader.Rest(), Public(a));
  }

  // aiger_add_output.
  method AddOutput(a: Aiger, lit: nat)
    requires Filled(a) && Lit2Var(lit) <= a.maxvar
    modifies a`outputs
    ensures Filled(a) && a.outputs == old(a.outputs) + [lit]
  {
    SameMatches(Public(a), a.types, a.outputs + [lit]);
    a.outputs := a.outputs + [lit];
  }

  lemma SameMatches(n: Aig, types: seq<Type>, outputs: seq<nat>)
    requires TypesMatch(n, types)
    ensures TypesMatch(n.(outputs := outputs), types)
  {
    var n' := n.(outputs := outputs);
    OthersMatch(n, types, n', types, 0);
    forall i: nat | i < |n.inputs| ensures InputMatch(n', types, i) {
      assert InputMatch(n, types, i);
    }
    forall i: nat | i < |n.latches| ensures LatchMatch(n', types, i) {
      assert LatchMatch(n, types, i);
    }
    forall i: nat | i < |n.ands| ensures AndMatch(n', types, i) {
      assert AndMatch(n, types, i);
    }
  }

  method ReadAndLine(reader: Reader, a: Aiger) returns (r: Option<And>)
    requires reader.Valid() && Filled(a)
    modifies reader
    ensures reader.Valid() && (r.Some? ==> ValidVar(r.value.lhs, a.maxvar) && !Typed(a.types[Lit2Var(r.value.lhs)]))
    ensures r.Some? ==> Lit2Var(r.value.rhs0) <= a.maxvar && Lit2Var(r.value.rhs1) <= a.maxvar
    ensures match ParseAndLine(old(reader.Rest()), Public(a))
            case None => r == None
            case Some((and, t)) => r == Some(and) && reader.Rest() == t
  {
    var lhs := reader.ReadLiteral(SPACE);
    if lhs == None { return None; }
    var accepted := AcceptLit(a, lhs.value);
    if !accepted { return None; }
    var rhs0 := reader.ReadLiteral(SPACE);
    if rhs0 == None || Lit2Var(rhs0.value) > a.maxvar { return None; }
    var rhs1 := reader.ReadLiteral(NEWLINE);
    if rhs1 == None || Lit2Var(rhs1.value) > a.maxvar { return None; }
    return Some(And(lhs.value, rhs0.value, rhs1.value));
  }

  // What the result is, with k ANDs left to read.
  ghost predicate AndsLeft(result: Option<(Aig, seq<nat>)>, s: seq<nat>, k: nat, n: Aig) {
    result == ParseAndLines(s, k, n)
  }

  lemma AndsDone(result: Option<(Aig, seq<nat>)>, s: seq<nat>, n: Aig)
    requires AndsLeft(result, s, 0, n)
    ensures result == Some((n, s))
  {
  }

  // One step of the loop below.
  method NextAnd(reader: Reader, a: Aiger, k: nat, ghost result: Option<(Aig, seq<nat>)>) returns (ok: bool)
    requires reader.Valid() && Filled(a) && k > 0 && AndsLeft(result, reader.Rest(), k, Public(a))
    modifies reader, a
    ensures reader.Valid() && Filled(a)
    ensures if ok then AndsLeft(result, reader.Rest(), k - 1, Public(a)) else result == None
  {
    var and := ReadAndLine(reader, a);
    if and == None { return false; }
    AddAnd(a, and.value);
    return true;
  }

  // aiger_read_ascii.
  method ReadAndLines(reader: Reader, a: Aiger, k: nat) returns (ok: bool)
    requires reader.Valid() && Filled(a)
    modifies reader, a
    ensures reader.Valid() && Filled(a)
    ensures match ParseAndLines(old(reader.Rest()), k, old(Public(a)))
            case None => !ok
            case Some((n, t)) => ok && Public(a) == n && reader.Rest() == t
  {
    ghost var result := ParseAndLines(reader.Rest(), k, Public(a));
    ok := true;
    var i := 0;
    while i < k
      invariant ok && 0 <= i <= k && reader.Valid() && Filled(a)
      invariant AndsLeft(result, reader.Rest(), k - i, Public(a))
    {
      ok := NextAnd(reader, a, k - i, result);
      if !ok { return; }
      i := i + 1;
    }
    AndsDone(result, reader.Rest(), Public(a));
  }

  // A name, up to the new line, into the buffer.
  method ReadName(reader: Reader) returns (r: Option<seq<nat>>)
    requires reader.Valid()
    modifies reader
    ensures reader.Valid()
    ensures match NameLine(old(reader.Rest()))
            case None => r == None
            case Some((name, t)) => r == Some(name) && reader.Rest() == t
  {
    var buffer: seq<nat> := [];
    ghost var start := reader.Rest();
    PrependedNothing(NameLine(start));
    while reader.ch != NEWLINE && reader.ch != -1
      invariant reader.Valid() && Prepended(buffer, NameLine(reader.Rest())) == NameLine(start)
      decreases |reader.Rest()|
    {
      PrependedMore(buffer, reader.Rest());
      buffer := buffer + [reader.ch];
      var ch := reader.NextCh();
    }
    if reader.ch == -1 { return None; }
    assert NameLine(reader.Rest()) == Some(([], reader.Rest()[1..]));
    assert buffer + [] == buffer;
    var ch := reader.NextCh();
    return Some(buffer);
  }

  ghost function Prepended(buffer: seq<nat>, r: Option<(seq<nat>, seq<nat>)>): Option<(seq<nat>, seq<nat>)> {
    match r
    case None => None
    case Some((name, t)) => Some((buffer + name, t))
  }

  lemma PrependedNothing(r: Option<(seq<nat>, seq<nat>)>)
    ensures Prepended([], r) == r
  {
    if r.Some? {
      assert [] + r.value.0 == r.value.0;
    }
  }

  lemma PrependedMore(buffer: seq<nat>, s: seq<nat>)
    requires s != [] && s[0] != NEWLINE
    ensures Prepended(buffer, NameLine(s)) == Prepended(buffer + [s[0]], NameLine(s[1..]))
  {
    if NameLine(s[1..]).Some? {
      Regroup(buffer, [s[0]], NameLine(s[1..]).value.0);
    }
  }

  // One entry of the symbol table.
  method ReadSymbol(reader: Reader, mark: nat, symbols: Symbols) returns (r: Option<Symbols>)
    requires reader.Valid()
    modifies reader
    ensures reader.Valid()
    ensures match ParseSymbol(old(reader.Rest()), mark, symbols)
            case None => r == None
            case Some((more, t)) => r == Some(more) && reader.Rest() == t
  {
    var pos := reader.ReadLiteral(SPACE);
    if pos == None { return None; }
    var names := NamesOf(symbols, mark);
    if pos.value >= |names| || names[pos.value].Some? { return None; }
    var bytes := ReadName(reader);
    if bytes == None { return None; }
    return Some(WithNames(symbols, mark, names[pos.value := NameOf(bytes.value)]));
  }

  // aiger_read_symbols.
  method ReadSymbols(reader: Reader, none: Symbols) returns (r: SymbolsRead)
    requires reader.Valid()
    modifies reader
    ensures reader.Valid() && r == ParseSymbols(old(reader.Rest()), none)
  {
    var symbols := none;
    ghost var start := reader.Rest();
    while reader.ch != -1 && reader.ch != COMMENT_MARK
      invariant reader.Valid() && ParseSymbols(reader.Rest(), symbols) == ParseSymbols(start, none)
      decreases |reader.Rest()|
    {
      ghost var s := reader.Rest();
      if !IsMark(reader.ch) { return NoMark; }
      var mark: nat := reader.ch;
      var ch := reader.NextCh();
      assert reader.Rest() == s[1..];
      var more := ReadSymbol(reader, mark, symbols);
      if more == None { return BadSymbol; }
      symbols := more.value;
    }
    return if reader.ch == -1 then AtEnd(symbols) else AtComments(symbols);
  }

  // ----- the check after reading -----

  // aiger_literal_defined.
  method LiteralDefined(a: Aiger, lit: nat) returns (ok: bool)
    requires Lit2Var(lit) <= a.maxvar < |a.types|
    ensures ok <==> Defined(a.types, a.maxvar, lit)
  {
    var v := Lit2Var(lit);
    ok := v == 0 || a.types[v].and || a.types[v].input || a.types[v].latch;
  }

  // What each of the three tests below looks at; together they are AllDefined.
  ghost predicate NextsDefined(n: Aig, types: seq<Type>) {
    forall i :: 0 <= i < |n.latches| ==> Defined(types, n.maxvar, n.latches[i].next)
  }

  ghost predicate OutputsDefined(n: Aig, types: seq<Type>) {
    forall i :: 0 <= i < |n.outputs| ==> Defined(types, n.maxvar, n.outputs[i])
  }

  ghost predicate RightsDefined(n: Aig, types: seq<Type>) {
    forall i :: 0 <= i < |n.ands| ==> Defined(types, n.maxvar, n.ands[i].rhs0) && Defined(types, n.maxvar, n.ands[i].rhs1)
  }

  lemma DefinedParts(n: Aig, types: seq<Type>)
    ensures AllDefined(n, types) <==> NextsDefined(n, types) && OutputsDefined(n, types) && RightsDefined(n, types)
  {
  }

  // aiger_check_next_defined; error is set to the variable that is not defined.
  method CheckNexts(a: Aiger)
    requires Filled(a)
    modifies a`error
    ensures a.error.None? <==> NextsDefined(Public(a), a.types)
  {
    var i := 0;
    while i < |a.latches|
      invariant 0 <= i <= |a.latches| && a.error.None?
      invariant forall j :: 0 <= j < i ==> Defined(a.types, a.maxvar, a.latches[j].next)
    {
      var next := a.latches[i].next;
      var ok := LiteralDefined(a, next);
      if !ok {
        a.error := Some(Lit2Var(next));
        assert !Defined(a.types, a.maxvar, a.latches[i].next);
        return;
      }
      i := i + 1;
    }
  }

  // aiger_check_outputs_defined.
  method CheckOutputs(a: Aiger)
    requires TypesMatch(Public(a), a.types) && Bounded(Public(a))
    modifies a`error
    ensures old(a.error).Some? ==> a.error == old(a.error)
    ensures old(a.error).None? ==> (a.error.None? <==> OutputsDefined(Public(a), a.types))
  {
    var i := 0;
    while a.error.None? && i < |a.outputs|
      invariant 0 <= i <= |a.outputs| && a.error == old(a.error)
      invariant a.error.None? ==> forall j :: 0 <= j < i ==> Defined(a.types, a.maxvar, a.outputs[j])
    {
      var output := a.outputs[i];
      var ok := LiteralDefined(a, output);
      if !ok {
        a.error := Some(Lit2Var(output));
        assert !Defined(a.types, a.maxvar, a.outputs[i]);
        return;
      }
      i := i + 1;
    }
  }

  // aiger_check_right_hand_sides_defined.
  method CheckRightHandSides(a: Aiger)
    requires TypesMatch(Public(a), a.types) && Bounded(Public(a))
    modifies a`error
    ensures old(a.error).Some? ==> a.error == old(a.error)
    ensures old(a.error).None? ==> (a.error.None? <==> RightsDefined(Public(a), a.types))
  {
    var i := 0;
    while a.error.None? && i < |a.ands|
      invariant 0 <= i <= |a.ands| && a.error == old(a.error)
      invariant a.error.None? ==> forall j :: 0 <= j < i ==> Defined(a.types, a.maxvar, a.ands[j].rhs0) && Defined(a.types, a.maxvar, a.ands[j].rhs1)
    {
      var and := a.ands[i];
      var ok := LiteralDefined(a, and.rhs0);
      if !ok {
        a.error := Some(Lit2Var(and.rhs0));
        assert !Defined(a.types, a.maxvar, a.ands[i].rhs0);
        return;
      }
      ok := LiteralDefined(a, and.rhs1);
      if !ok {
        a.error := Some(Lit2Var(and.rhs1));
        assert !Defined(a.types, a.maxvar, a.ands[i].rhs1);
        return;
      }
      i := i + 1;
    }
  }

  // aiger_check: no error exactly when the AIG is well-formed.
  method Check(a: Aiger)
    requires Filled(a)
    modifies a`types, a`error
    ensures a.error.None? <==> WellFormed(Public(a), old(a.types))
    ensures a.error.None? ==> WellFormed(Public(a), a.types) && Unstacked(a.types)
  {
    ghost var n, types := Public(a), a.types;
    CheckNexts(a);
    CheckOutputs(a);
    CheckRightHandSides(a);
    DefinedParts(n, types);
    if a.error.None? {
      DefinedFit(n, types);
      ghost var rank := CheckForCycles(a);
      AcyclicWellFormed(n, types, rank, a.error.None?);
      if a.error.None? {
        MarkedMatch(n, types);
        WellFormedAgain(n, types, a.types);
      }
    }
  }

  lemma AcyclicWellFormed(n: Aig, types: seq<Type>, rank: map<nat, nat>, acyclic: bool)
    requires TypesMatch(n, types) && AllDefined(n, types) && Unmet(types) && TypesFit(types, n.ands, n.maxvar)
    requires acyclic <==> !Cyclic(Unmarked(types, n.ands, n.maxvar))
    requires acyclic ==> Ranked(Unmarked(types, n.ands, n.maxvar), rank) && forall v: nat :: IsGate(Unmarked(types, n.ands, n.maxvar), v) ==> v in rank
    ensures acyclic <==> WellFormed(n, types)
  {
    var g := Gates(n, types);
    assert g == Unmarked(types, n.ands, n.maxvar);
    if acyclic {
      assert RanksAll(g, rank);
    } else if WellFormed(n, types) {
      var r: map<nat, nat> :| RanksAll(g, r);
      RankedAcyclic(g, r);
    }
  }

  lemma MarkedMatch(n: Aig, types: seq<Type>)
    requires TypesMatch(n, types) && Unmet(types)
    ensures TypesMatch(n, Marked(types, n.maxvar)) && Unstacked(Marked(types, n.maxvar))
  {
    var types' := Marked(types, n.maxvar);
    forall i: nat | i < |n.inputs| ensures InputMatch(n, types', i) {
      assert InputMatch(n, types, i);
    }
    forall i: nat | i < |n.latches| ensures LatchMatch(n, types', i) {
      assert LatchMatch(n, types, i);
    }
    forall i: nat | i < |n.ands| ensures AndMatch(n, types', i) {
      assert AndMatch(n, types, i);
    }
    forall v: nat | 1 <= v <= n.maxvar ensures TypeMatch(n, types'[v], v) {
      assert TypeMatch(n, types[v], v);
    }
  }

  // ----- whole files -----

  // Inputs, latches, outputs and ANDs, into an AIG that is still empty.
  method ReadDefinitions(reader: Reader, a: Aiger, h: Header) returns (ok: bool)
    requires reader.Valid() && Filled(a) && Public(a) == Aig(h.maxvar, [], [], [], [])
    modifies reader, a
    ensures reader.Valid() && Filled(a)
    ensures match ParseDefinitions(h, old(reader.Rest()))
            case None => !ok
            case Some((n, t)) => ok && Public(a) == n && reader.Rest() == t
  {
    ok := ReadInputs(reader, a, h.inputs);
    if !ok { return; }
    ok := ReadLatches(reader, a, h.latches);
    if !ok { return; }
    ok := ReadOutputs(reader, a, h.outputs);
    if !ok { return; }
    ok := ReadAndLines(reader, a, h.ands);
  }

  // The parts after the header line.
  method ReadParts(reader: Reader, a: Aiger, h: Header) returns (r: AagOutcome)
    requires reader.Valid() && Filled(a) && Public(a) == Aig(h.maxvar, [], [], [], [])
    modifies reader, a
    ensures Filled(a) && r == ParseAagBody(h, old(reader.Rest()))
    ensures r.ReadAag? || r.CommentsFollow? ==> Public(a) == r.n
  {
    var ok := ReadDefinitions(reader, a, h);
    if !ok { return Rejected; }
    var symbols := ReadSymbols(reader, NoSymbols(h));
    r := Named(Public(a), symbols);
  }

  function NoTypes(k: nat): (r: seq<Type>)
    ensures |r| == k && forall i :: 0 <= i < k ==> r[i] == Type(false, false, false, false, false, 0)
  {
    seq(k, _ => Type(false, false, false, false, false, 0))
  }

  lemma AagStarts(s: seq<nat>, h: Header, t: seq<nat>)
    requires Magic(s).Some? && Counts(s[4..]) == Some((h, t))
    ensures ParseAag(s) == if !Magic(s).value then BinaryFile else if h.maxvar >= TWO_TO_THE_32 / 2 then Oversized else ParseAagBody(h, t)
  {
  }

  // The header line, or why there is nothing to read.
  method ReadStart(reader: Reader, input: seq<nat>) returns (stop: Option<AagOutcome>, h: Header)
    requires reader.Valid() && reader.Rest() == [SPACE] + input
    modifies reader
    ensures reader.Valid() && (stop.Some? ==> stop.value == ParseAag(input) && !stop.value.ReadAag?)
    ensures stop == None ==> ParseAag(input) == ParseAagBody(h, reader.Rest()) && h.maxvar < TWO_TO_THE_32 / 2
  {
    h := Header(0, 0, 0, 0, 0);
    var ascii := ReadMagic(reader, input);
    if ascii == None { return Some(Rejected), h; }
    var counts := reader.ReadCounts();
    if counts == None { return Some(Rejected), h; }
    h := counts.value;
    AagStarts(input, h, reader.Rest());
    stop := if !ascii.value then Some(BinaryFile) else if h.maxvar >= TWO_TO_THE_32 / 2 then Some(Oversized) else None;
  }

  // aiger_read_generic of an ASCII file without comments.
  method ReadAscii(input: seq<nat>) returns (r: AagOutcome, a: Aiger)
    ensures fresh(a) && r == ParseAag(input)
    ensures r.ReadAag? ==> Public(a) == r.n && (a.error.None? <==> exists types :: WellFormed(r.n, types))
    ensures r.ReadAag? && a.error.None? ==> WellFormed(r.n, a.types) && Unstacked(a.types)
  {
    var reader := new Reader(input);
    a := new Aiger();
    var stop, h := ReadStart(reader, input);
    if stop.Some? { return stop.value, a; }
    a.maxvar, a.types := h.maxvar, NoTypes(h.maxvar + 1);
    r := ReadParts(reader, a, h);
    if r.ReadAag? {
      ghost var before := a.types;
      Check(a);
      WellFormedSome(r.n, before);
    }
  }

  lemma WellFormedSome(n: Aig, types: seq<Type>)
    requires TypesMatch(n, types)
    ensures WellFormed(n, types) <==> exists types' :: WellFormed(n, types')
  {
    if types' :| WellFormed(n, types') {
      WellFormedAgain(n, types', types);
    }
  }

  // Writing a well-formed AIG and reading the file gives back the AIG; its names come
  // back too exactly when none has a new line.
  method AsciiThenRead(n: Aig, types: seq<Type>, symbols: Symbols) returns (r: AagOutcome, a: Aiger)
    requires WellFormed(n, types) && n.maxvar < TWO_TO_THE_32 / 2 && |n.outputs| < TWO_TO_THE_32
    requires SymbolsFit(n, symbols)
    ensures fresh(a) && (r == ReadAag(n, symbols) <==> OneLine(symbols))
    ensures OneLine(symbols) ==> a.error.None? && Public(a) == n && WellFormed(n, a.types)
  {
    WellFormedReadable(n, types);
    var file := WriteAscii(n, symbols);
    r, a := ReadAscii(file);
    AagReadBack(n, symbols);
  }
}
