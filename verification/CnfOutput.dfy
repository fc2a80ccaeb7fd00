// printBDDToCNFQM (src/formats/bdd2cnf.cc): from functions and their labels to the
// header and the clauses printed.

module CnfOutput {
  import opened AndClauses
  import opened Arithmetic
  import opened Basics
  import opened Bdd
  import opened Clauses
  import opened Cubes
  import QuineMcCluskey
  import opened TruthTable

  // What is kept of a function until all of them are printed.
  datatype FuncObject = FuncObject(varList: seq<nat>, reduced0: seq<Cube>)

  // What is printed for a function of this label.
  ghost predicate Meaning(f: Bdd, kind: Label, a: Assignment) {
    if kind.Plain? then Eval(f, a) else Says(f, Abs(kind.equality), Torf(kind), a)
  }

  // The literals of a labelled function can be found.
  ghost predicate Readable(f: Bdd, kind: Label) {
    kind.Plain? || (Abs(kind.equality) in Support(f) && OthersForced(f, Abs(kind.equality), Torf(kind)))
  }

  ghost predicate RightLabel(f: Bdd, kind: Label) {
    kind.Plain? || Labelled(f, Abs(kind.equality), Torf(kind))
  }

  // A function is printed as itself exactly when its label is right.
  lemma MeaningExactly(f: Bdd, kind: Label)
    requires Robdd(f) && Readable(f, kind)
    ensures (forall a: Assignment :: Eval(f, a) <==> Meaning(f, kind, a)) <==> RightLabel(f, kind)
  {
    if !kind.Plain? {
      SaysExactly(f, Abs(kind.equality), Torf(kind));
    }
  }

  ghost predicate Reduces(o: FuncObject, f: Bdd, kind: Label) {
    && o.varList == Vars(f) && (forall k :: 0 <= k < |o.reduced0| ==> IsCube(o.reduced0[k], |o.varList|))
    && forall a: Assignment :: Meaning(f, kind, a) <==> AllExclude(o, a)
  }

  ghost predicate AllExclude(o: FuncObject, a: Assignment) {
    RecordsHold(o.varList, o.reduced0, a)
  }

  // The default branch: prime implicants.
  method ReduceTable(f: Bdd, vars: seq<nat>) returns (o: FuncObject)
    requires Robdd(f) && vars == Vars(f)
    ensures Reduces(o, f, Plain)
  {
    VarsSupport(f);
    SupportBelowTop(f);
    var tt := BuildTable(vars, f);
    var cubes, rounds := QuineMcCluskey.Resolve(tt, 0, |vars|);
    o := FuncObject(vars, cubes);
    forall k | 0 <= k < |cubes| ensures IsCube(cubes[k], |vars|) {
      assert cubes[k] in cubes;
    }
    forall k | 0 <= k < |vars| ensures 1 <= vars[k] {
      assert vars[k] in vars;
    }
    forall a: Assignment ensures Eval(f, a) <==> AllExclude(o, a) {
      ZerosAreTheDiagram(f, vars, tt, cubes, a);
    }
  }

  // The branch for AND and OR; None is an exit.
  method ReduceEquation(f: Bdd, vars: seq<nat>, kind: Label) returns (o: Option<FuncObject>)
    requires Robdd(f) && vars == Vars(f) && !kind.Plain?
    ensures o.Some? <==> Readable(f, kind)
    ensures o.Some? ==> Reduces(o.value, f, kind)
  {
    VarsSupport(f);
    var v, torf := Abs(kind.equality), Torf(kind);
    ForcedOnVars(f, vars, v, torf);
    var literals := GetAndLiterals(f, vars, v, torf);
    if literals == None { return None; }
    var equiv := GetEquiv(vars, v);
    var records := MakeRecords(literals.value, equiv);
    o := Some(FuncObject(vars, records));
    RecordsSay(f, literals.value, v, torf, equiv, iset{});
    forall a: Assignment ensures Says(f, v, torf, a) <==> AllExclude(o.value, a) {
      RecordsSay(f, literals.value, v, torf, equiv, a);
    }
  }

  lemma ForcedOnVars(f: Bdd, vars: seq<nat>, v: nat, torf: bool)
    requires forall u :: u in vars <==> u in Support(f)
    ensures AllForced(SetVariable(f, v, torf), vars, v) <==> OthersForced(f, v, torf)
  {
    if OthersForced(f, v, torf) {
      forall k | 0 <= k < |vars| && vars[k] != v ensures Forced(SetVariable(f, v, torf), vars[k]) {
        assert vars[k] in Support(f);
      }
    }
    if AllForced(SetVariable(f, v, torf), vars, v) {
      forall u | u in Support(f) && u != v ensures Forced(SetVariable(f, v, torf), u) {
        var k: nat :| k < |vars| && vars[k] == u;
      }
    }
  }

  // The switch over the function's type.
  method ReduceFunction(f: Bdd, kind: Label) returns (o: Option<FuncObject>)
    requires Robdd(f)
    ensures o.Some? <==> Readable(f, kind)
    ensures o.Some? ==> Reduces(o.value, f, kind)
  {
    var vars := Vars(f);
    if kind.Plain? {
      var table := ReduceTable(f, vars);
      o := Some(table);
    } else {
      o := ReduceEquation(f, vars, kind);
    }
  }

  // One clause per record.
  method PrintRecords(o: FuncObject) returns (out: seq<seq<int>>)
    requires forall k :: 0 <= k < |o.reduced0| ==> IsCube(o.reduced0[k], |o.varList|)
    ensures |out| == |o.reduced0|
    ensures forall k :: 0 <= k < |out| ==> |o.reduced0[k]| == |o.varList| && out[k] == ClauseOf(o.varList, o.reduced0[k])
  {
    out := [];
    for r := 0 to |o.reduced0|
      invariant |out| == r
      invariant forall k :: 0 <= k < r ==> out[k] == ClauseOf(o.varList, o.reduced0[k])
    {
      var clause := PrintClause(o.varList, o.reduced0[r]);
      out := out + [clause];
    }
  }

  // The clauses of one function, which mention no variable above numinp.
  method PrintFunction(o: FuncObject, numinp: nat, ghost f: Bdd, ghost kind: Label) returns (out: seq<seq<int>>)
    requires Robdd(f) && Reduces(o, f, kind) && Top(f) <= numinp
    ensures |out| == |o.reduced0| && WithinHeader(out, numinp)
    ensures forall a: Assignment :: AllTrue(out, a) <==> Meaning(f, kind, a)
  {
    out := PrintRecords(o);
    VarsSupport(f);
    SupportBelowTop(f);
    forall k | 0 <= k < |o.varList| ensures 1 <= o.varList[k] <= numinp {
      assert o.varList[k] in o.varList;
    }
    forall k | 0 <= k < |out| ensures ClauseFits(out[k], numinp) {
      ClauseWithin(o.varList, o.reduced0[k], numinp);
    }
    forall a: Assignment ensures AllTrue(out, a) <==> Meaning(f, kind, a) {
      assert Meaning(f, kind, a) <==> AllExclude(o, a);
    }
  }

  // Every literal is one over the variables 1..numinp.
  ghost predicate WithinHeader(out: seq<seq<int>>, numinp: nat) {
    forall k :: 0 <= k < |out| ==> ClauseFits(out[k], numinp)
  }

  ghost predicate ClauseFits(c: seq<int>, numinp: nat) {
    forall j :: 0 <= j < |c| ==> c[j] != 0 && -(numinp as int) <= c[j] <= numinp
  }

  lemma {:induction false} ClauseWithin(vars: seq<nat>, c: Cube, numinp: nat)
    requires |c| == |vars| && forall k :: 0 <= k < |vars| ==> 1 <= vars[k] <= numinp
    ensures ClauseFits(ClauseOf(vars, c), numinp)
  {
    if c != [] {
      ClauseWithin(vars[1..], c[1..], numinp);
    }
  }

  // getNuminp: the largest variable of any function, which is the one at its root.
  method GetNuminp(functions: seq<Bdd>) returns (numinp: nat)
    ensures forall x :: 0 <= x < |functions| ==> Top(functions[x]) <= numinp
    ensures numinp == 0 || exists x :: 0 <= x < |functions| && Top(functions[x]) == numinp
  {
    numinp := 0;
    for x := 0 to |functions|
      invariant forall y :: 0 <= y < x ==> Top(functions[y]) <= numinp
      invariant numinp == 0 || exists y :: 0 <= y < x && Top(functions[y]) == numinp
    {
      if Top(functions[x]) > numinp {
        numinp := Top(functions[x]);
      }
    }
  }

  function TotalCubes(funcs: seq<FuncObject>): nat {
    if funcs == [] then 0 else TotalCubes(funcs[..|funcs| - 1]) + |funcs[|funcs| - 1].reduced0|
  }

  // The clauses are counted record by record before the header is printed.
  method CountClauses(funcs: seq<FuncObject>) returns (z: nat)
    ensures z == TotalCubes(funcs)
  {
    z := 0;
    for x := 0 to |funcs|
      invariant z == TotalCubes(funcs[..x])
    {
      var z0 := z;
      for res := 0 to |funcs[x].reduced0|
        invariant z == z0 + res
      {
        z := z + 1;
      }
      assert funcs[..x + 1][..x] == funcs[..x];
    }
    assert funcs[..|funcs|] == funcs;
  }

  ghost predicate AllReduce(funcs: seq<FuncObject>, functions: seq<Bdd>, kinds: seq<Label>) {
    && |funcs| == |functions| == |kinds|
    && forall x :: 0 <= x < |functions| ==> Robdd(functions[x]) && Reduces(funcs[x], functions[x], kinds[x])
  }

  method ReduceAll(functions: seq<Bdd>, kinds: seq<Label>) returns (funcs: Option<seq<FuncObject>>)
    requires |kinds| == |functions| && forall x :: 0 <= x < |functions| ==> Robdd(functions[x])
    ensures funcs.Some? <==> forall x :: 0 <= x < |functions| ==> Readable(functions[x], kinds[x])
    ensures funcs.Some? ==> AllReduce(funcs.value, functions, kinds)
  {
    var done: seq<FuncObject> := [];
    for x := 0 to |functions|
      invariant AllReduce(done, functions[..x], kinds[..x])
      invariant forall y :: 0 <= y < x ==> Readable(functions[y], kinds[y])
    {
      var o := ReduceFunction(functions[x], kinds[x]);
      if o == None { return None; }
      done := done + [o.value];
    }
    assert functions[..|functions|] == functions && kinds[..|functions|] == kinds;
    return Some(done);
  }

  ghost predicate AllMean(functions: seq<Bdd>, kinds: seq<Label>, n: nat, a: Assignment)
    requires n <= |functions| == |kinds|
  {
    forall x :: 0 <= x < n ==> Meaning(functions[x], kinds[x], a)
  }

  method PrintAll(funcs: seq<FuncObject>, numinp: nat, ghost functions: seq<Bdd>, ghost kinds: seq<Label>) returns (out: seq<seq<int>>)
    requires AllReduce(funcs, functions, kinds) && forall x :: 0 <= x < |functions| ==> Top(functions[x]) <= numinp
    ensures |out| == TotalCubes(funcs) && WithinHeader(out, numinp)
    ensures forall a: Assignment :: AllTrue(out, a) <==> AllMean(functions, kinds, |functions|, a)
  {
    out := [];
    for x := 0 to |funcs|
      invariant |out| == TotalCubes(funcs[..x]) && WithinHeader(out, numinp)
      invariant forall a: Assignment :: AllTrue(out, a) <==> AllMean(functions, kinds, x, a)
    {
      var more := PrintFunction(funcs[x], numinp, functions[x], kinds[x]);
      forall a: Assignment ensures AllTrue(out + more, a) <==> AllMean(functions, kinds, x + 1, a) {
        AllTrueAppend(out, more, a);
        assert AllTrue(out, a) <==> AllMean(functions, kinds, x, a);
      }
      WithinBoth(out, more, numinp);
      out := out + more;
      assert funcs[..x + 1][..x] == funcs[..x];
    }
    assert funcs[..|funcs|] == funcs;
  }

  lemma WithinBoth(out: seq<seq<int>>, more: seq<seq<int>>, numinp: nat)
    requires WithinHeader(out, numinp) && WithinHeader(more, numinp)
    ensures WithinHeader(out + more, numinp)
  {
    forall k | 0 <= k < |out + more| ensures ClauseFits((out + more)[k], numinp) {
      assert (out + more)[k] == if k < |out| then out[k] else more[k - |out|];
    }
  }

  // Header and clauses: the largest variable and the number of clauses.
  datatype Cnf = Cnf(numinp: nat, count: nat, clauses: seq<seq<int>>)

  // printBDDToCNFQM: exits exactly when some literals cannot be found; otherwise the
  // clauses have exactly the models of what the labels make of the functions, and of the
  // functions themselves if the labels are right.
  method PrintBDDToCNFQM(functions: seq<Bdd>, kinds: seq<Label>) returns (r: Option<Cnf>)
    requires |kinds| == |functions| && forall x :: 0 <= x < |functions| ==> Robdd(functions[x])
    ensures r.Some? <==> forall x :: 0 <= x < |functions| ==> Readable(functions[x], kinds[x])
    ensures r.Some? ==> r.value.count == |r.value.clauses| && WithinHeader(r.value.clauses, r.value.numinp)
    ensures r.Some? ==> r.value.numinp == 0 || exists x :: 0 <= x < |functions| && Top(functions[x]) == r.value.numinp
    ensures r.Some? ==> forall a: Assignment :: AllTrue(r.value.clauses, a) <==> AllMean(functions, kinds, |functions|, a)
    ensures r.Some? && (forall x :: 0 <= x < |functions| ==> RightLabel(functions[x], kinds[x])) ==>
              forall a: Assignment :: AllTrue(r.value.clauses, a) <==> forall x :: 0 <= x < |functions| ==> Eval(functions[x], a)
  {
    var funcs := ReduceAll(functions, kinds);
    if funcs == None { return None; }
    var count := CountClauses(funcs.value);
    var numinp := GetNuminp(functions);
    var out := PrintAll(funcs.value, numinp, functions, kinds);
    r := Some(Cnf(numinp, count, out));
    if forall x :: 0 <= x < |functions| ==> RightLabel(functions[x], kinds[x]) {
      forall a: Assignment ensures AllMean(functions, kinds, |functions|, a) <==> forall x :: 0 <= x < |functions| ==> Eval(functions[x], a) {
        RightLabelsMean(functions, kinds, a);
      }
    }
  }

  lemma RightLabelsMean(functions: seq<Bdd>, kinds: seq<Label>, a: Assignment)
    requires |kinds| == |functions|
    requires forall x :: 0 <= x < |functions| ==> Robdd(functions[x]) && Readable(functions[x], kinds[x]) && RightLabel(functions[x], kinds[x])
    ensures AllMean(functions, kinds, |functions|, a) <==> forall x :: 0 <= x < |functions| ==> Eval(functions[x], a)
  {
    forall x | 0 <= x < |functions| ensures Eval(functions[x], a) <==> Meaning(functions[x], kinds[x], a) {
      MeaningExactly(functions[x], kinds[x]);
    }
  }

  // The part of findandset_fnType for AND= and OR=: such a label can be read and is right.
  method ClassifyOne(f: Bdd, limit: nat) returns (kind: Label)
    requires Robdd(f)
    ensures Readable(f, kind) && RightLabel(f, kind)
    ensures kind.Plain? <==> |Vars(f)| < limit || forall v :: v in Support(f) ==> !EquatesAnd(f, v) && !EquatesOr(f, v)
  {
    var vars := Vars(f);
    if |vars| < limit {
      return Plain;
    }
    VarsSupport(f);
    SupportBelowTop(f);
    assert forall k :: 0 <= k < |vars| ==> vars[k] in vars;
    var equVar := IsAndEqu(f, vars);
    kind := LabelFor(equVar);
    if equVar != 0 {
      RecognisedRight(f, vars, equVar);
    } else {
      forall v | v in Support(f) ensures !EquatesAnd(f, v) && !EquatesOr(f, v) {
        var k: nat :| k < |vars| && vars[k] == v;
      }
    }
  }
}
