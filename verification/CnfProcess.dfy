// cnf_process (src/formats/cnf.cc): sort, search for XOR, AND=/OR=, MAJ= and
// ITE= groups, and turn what is left into one function per clause.

module CnfProcess {
  import opened Bdd
  import opened Clauses
  import opened ClauseOrder
  import opened ClauseStore
  import opened XorSearch
  import opened ThreeLists
  import AndEqualSearch
  import MajoritySearch
  import IteSearch

  // ----- sorting keeps the meaning -----

  predicate NoRepeats(c: seq<int>) {
    forall i, j :: 0 <= i < j < |c| ==> Abs(c[i]) != Abs(c[j])
  }

  lemma SameMembers<T>(s: seq<T>, t: seq<T>)
    requires multiset(s) == multiset(t)
    ensures |s| == |t| && forall x :: x in s <==> x in t
  {
    assert |multiset(s)| == |s| && |multiset(t)| == |t|;
    forall x ensures x in s <==> x in t {
      assert x in s <==> x in multiset(s);
      assert x in t <==> x in multiset(t);
    }
  }

  lemma SortedClauseTrue(c: seq<int>, d: seq<int>, a: Assignment)
    requires multiset(c) == multiset(d)
    ensures ClauseTrue(c, a) <==> ClauseTrue(d, a)
  {
    SameMembers(c, d);
    if ClauseTrue(c, a) {
      var k :| 0 <= k < |c| && LitTrue(c[k], a);
      assert c[k] in d;
    }
    if ClauseTrue(d, a) {
      var k :| 0 <= k < |d| && LitTrue(d[k], a);
      assert d[k] in c;
    }
  }

  lemma {:induction false} RepeatCount(c: seq<int>, x: int)
    requires NoRepeats(c)
    ensures multiset(c)[x] + multiset(c)[-x] <= if x == 0 then 2 else 1
  {
    if c != [] {
      var n := |c| - 1;
      assert c == c[..n] + [c[n]];
      RepeatCount(c[..n], x);
      if c[n] == x || c[n] == -x {
        forall y | y in c[..n] ensures y != x && y != -x {
        }
        assert x !in c[..n] && -x !in c[..n];
      }
    }
  }

  lemma TwoPlaces(d: seq<int>, i: nat, j: nat)
    requires i < j < |d|
    ensures multiset(d)[d[i]] >= (if d[i] == d[j] then 2 else 1) && multiset(d)[d[j]] >= 1
  {
    assert d == d[..i] + [d[i]] + d[i + 1..j] + [d[j]] + d[j + 1..];
  }

  lemma SortedIsOrdered(c: seq<int>, d: seq<int>)
    requires multiset(c) == multiset(d) && SortedByVariable(d)
    requires c != [] && forall k :: 0 <= k < |c| ==> c[k] != 0
    ensures Ordered(d) && |c| == |d|
    ensures NoRepeats(c) ==> Proper(d)
  {
    SameMembers(c, d);
    forall k | 0 <= k < |d| ensures d[k] != 0 {
      assert d[k] in c;
    }
    if NoRepeats(c) {
      forall i, j | 0 <= i < j < |d| ensures Abs(d[i]) < Abs(d[j]) {
        TwoPlaces(d, i, j);
        RepeatCount(c, d[i]);
      }
    }
  }

  // Doubling literals is a matter of how often they occur.
  lemma SortedDoubles(c: seq<int>, d: seq<int>, c': seq<int>, d': seq<int>)
    requires multiset(c) == multiset(c') && multiset(d) == multiset(d')
    ensures AndEqualSearch.Doubles(c, d) <==> AndEqualSearch.Doubles(c', d')
  {
    SameMembers(c, c');
    SameMembers(d, d');
    if |c| == 2 {
      assert c[0] in c' && c[1] in c' && c'[0] in c && c'[1] in c;
    }
  }

  // ----- one function per remaining clause -----

  function OrBdd(c: seq<int>): Bdd
    requires forall k :: 0 <= k < |c| ==> c[k] != 0
  {
    if c == [] then False else Or(OrBdd(Front(c)), Var(Last(c)))
  }

  lemma {:induction false} OrValue(c: seq<int>, a: Assignment)
    requires forall k :: 0 <= k < |c| ==> c[k] != 0
    ensures Eval(OrBdd(c), a) <==> ClauseTrue(c, a)
  {
    if c != [] {
      OrValue(Front(c), a);
      OperatorsEval(OrBdd(Front(c)), Var(Last(c)), a);
      assert ClauseTrue(c, a) <==> ClauseTrue(Front(c), a) || LitTrue(Last(c), a) by {
        if ClauseTrue(Front(c), a) {
          var k :| 0 <= k < |Front(c)| && LitTrue(Front(c)[k], a);
          assert LitTrue(c[k], a);
        }
        if ClauseTrue(c, a) {
          var k :| 0 <= k < |c| && LitTrue(c[k], a);
          assert k < |c| - 1 ==> Front(c)[k] == c[k];
        }
      }
    }
  }

  method BuildOr(c: seq<int>) returns (bdd: Bdd)
    requires forall k :: 0 <= k < |c| ==> c[k] != 0
    ensures bdd == OrBdd(c)
  {
    bdd := False;
    for y := 0 to |c|
      invariant bdd == OrBdd(c[..y])
    {
      assert Front(c[..y + 1]) == c[..y];
      bdd := Or(bdd, Var(c[y]));
    }
    assert c[..|c|] == c;
  }

  method BuildClauseBdds(p: array<Clause>, n: nat, fs: seq<Function>) returns (fs': seq<Function>)
    requires n <= p.Length
    requires forall x, k :: 0 <= x < n && 0 <= k < |p[x].lits| ==> p[x].lits[k] != 0
    modifies p
    ensures |fs'| == |fs| + n && fs'[..|fs|] == fs
    ensures forall x :: 0 <= x < n ==>
              (forall k :: 0 <= k < |old(p[x].lits)| ==> old(p[x].lits[k]) != 0)
              && fs'[|fs| + x] == Function(OrBdd(old(p[x].lits)), PLAINOR, 0)
    ensures forall x :: 0 <= x < n ==> p[x] == old(p[x]).(subsumed := true)
  {
    ghost var was := p[..n];
    fs' := fs;
    for x := 0 to n
      invariant |fs'| == |fs| + x && fs'[..|fs|] == fs
      invariant forall y :: 0 <= y < n ==>
                  p[y] == if y < x then was[y].(subsumed := true) else was[y]
      invariant forall y :: 0 <= y < x ==>
                  (forall k :: 0 <= k < |was[y].lits| ==> was[y].lits[k] != 0)
                  && fs'[|fs| + y] == Function(OrBdd(was[y].lits), PLAINOR, 0)
    {
      assert p[x] == was[x];
      var bdd := BuildOr(p[x].lits);
      fs' := fs' + [Function(bdd, PLAINOR, 0)];
      p[x] := p[x].(subsumed := true);
    }
  }

  lemma ClauseBddsSound(fs: seq<Function>, was: seq<Clause>, fs': seq<Function>, a: Assignment)
    requires |fs'| == |fs| + |was| && fs'[..|fs|] == fs
    requires forall x :: 0 <= x < |was| ==>
               (forall k :: 0 <= k < |was[x].lits| ==> was[x].lits[k] != 0)
               && fs'[|fs| + x] == Function(OrBdd(was[x].lits), PLAINOR, 0)
    ensures Holds(fs', a) <==> Model(fs, was, a)
  {
    var more := fs'[|fs|..];
    assert fs' == fs + more;
    HoldsAppend(fs, more, a);
    forall x | 0 <= x < |was| ensures Eval(more[x].bdd, a) <==> ClauseTrue(Lits(was)[x], a) {
      OrValue(was[x].lits, a);
    }
  }

  lemma {:induction false} AllSubsumed(cs: seq<Clause>)
    requires forall k :: 0 <= k < |cs| ==> cs[k].subsumed
    ensures Unsubsumed(cs) == []
  {
    if cs != [] {
      AllSubsumed(cs[..|cs| - 1]);
    }
  }

  // ----- the phases -----

  // What the searches rely on: clauses of three literals have three variables; for an
  // exact result, no two-literal clause repeats a literal whose opposite a longer
  // clause repeats.
  predicate Clusterable(cs: seq<seq<int>>, exact: bool) {
    && (forall k :: 0 <= k < |cs| ==> Ordered(cs[k]))
    && Triples(cs) && (exact ==> AndEqualSearch.NoDoubles(cs))
  }

  lemma FewerClusterable(cs: seq<seq<int>>, ds: seq<seq<int>>, exact: bool)
    requires Clusterable(cs, exact) && forall k :: 0 <= k < |ds| ==> ds[k] in cs
    ensures Clusterable(ds, exact)
  {
    forall k, x | exact && 0 <= k < |ds| && 0 <= x < |ds| ensures !AndEqualSearch.Doubles(ds[k], ds[x]) {
      assert ds[k] in cs && ds[x] in cs;
    }
    forall k | 0 <= k < |ds| ensures Ordered(ds[k]) && (|ds[k]| == 3 ==> Proper(ds[k])) {
      assert ds[k] in cs;
    }
  }

  // Between two phases: sorted distinct clauses that the searches can handle, none
  // subsumed; together with the functions they have every model of what came in, and
  // no other one when the result is exact.
  ghost predicate Between(original: seq<seq<int>>, fs: seq<Function>, cs: seq<Clause>, vars: nat, exact: bool) {
    && StrictClauses(Lits(cs)) && Clusterable(Lits(cs), exact) && InRange(Lits(cs), vars)
    && (forall k :: 0 <= k < |cs| ==> !cs[k].subsumed)
    && ModelsKept(original, fs, cs, exact)
  }

  ghost predicate ModelsKept(original: seq<seq<int>>, fs: seq<Function>, cs: seq<Clause>, exact: bool) {
    && (forall a: Assignment :: AllTrue(original, a) ==> Model(fs, cs, a))
    && (exact ==> forall a: Assignment :: Model(fs, cs, a) ==> AllTrue(original, a))
  }

  lemma FreshDroppable(fs: seq<Function>, cs: seq<Clause>)
    requires forall k :: 0 <= k < |cs| ==> !cs[k].subsumed
    ensures Droppable(fs, cs) && CleanDuplicates(cs)
  {
  }

  lemma ReduceFresh(original: seq<seq<int>>, fs: seq<Function>, cs: seq<Clause>,
                    marked: seq<Clause>, cs': seq<Clause>, vars: nat, exact: bool)
    requires (exact ==> Droppable(fs, cs)) && CleanDuplicates(cs) && SortedClauses(Lits(cs)) && InRange(Lits(cs), vars)
    requires Clusterable(Lits(cs), exact) && ModelsKept(original, fs, cs, exact)
    requires Marked(cs, marked, |cs|) && cs' == Unsubsumed(marked)
    ensures Between(original, fs, cs', vars, exact)
  {
    ReduceOrder(cs, marked, cs');
    if exact {
      ReduceSound(fs, cs, marked, cs');
    }
    forall k | 0 <= k < |cs'| ensures Lits(cs')[k] in Lits(cs) {
      var j :| 0 <= j < |cs| && Lits(cs)[j] == cs'[k].lits;
    }
    FewerClusterable(Lits(cs), Lits(cs'), exact);
  }

  lemma StrictIsClean(cs: seq<Clause>)
    requires Input(Lits(cs))
    ensures CleanDuplicates(cs)
  {
    forall k ensures !Duplicate(cs, k) {
      if 1 <= k < |cs| {
        assert ClauseLess(Lits(cs)[k - 1], Lits(cs)[k]);
        LexIrreflexive(Key(Lits(cs)[k - 1]), Key(Lits(cs)[k]));
      }
    }
  }

  // A search followed by reduce_clauses leads from one such state to the next.
  lemma PhaseKeeps(original: seq<seq<int>>, fs: seq<Function>, cs: seq<Clause>, fs': seq<Function>,
                   now: seq<Clause>, marked: seq<Clause>, cs': seq<Clause>, vars: nat, exact: bool)
    requires Between(original, fs, cs, vars, exact) && LosesNone(fs, cs, fs', now, exact)
    requires Marked(now, marked, |now|) && cs' == Unsubsumed(marked)
    ensures Between(original, fs', cs', vars, exact)
  {
    StrictIsClean(now);
    ReduceFresh(original, fs', now, marked, cs', vars, exact);
  }

  // What the reader promises about the clauses it stores; clustering relies on more.
  predicate Stored(cs: seq<Clause>, vars: nat, doCluster: bool) {
    && (forall x :: 0 <= x < |cs| ==>
          && !cs[x].subsumed && cs[x].lits != []
          && (forall k :: 0 <= k < |cs[x].lits| ==> cs[x].lits[k] != 0 && Abs(cs[x].lits[k]) <= vars)
          && (doCluster && |cs[x].lits| == 3 ==> NoRepeats(cs[x].lits)))
  }

  lemma SortedLiteralsInRange(c: seq<int>, d: seq<int>, vars: nat)
    requires multiset(c) == multiset(d) && forall k :: 0 <= k < |c| ==> Literal(c[k], vars)
    ensures forall k :: 0 <= k < |d| ==> Literal(d[k], vars)
  {
    SameMembers(c, d);
    forall k | 0 <= k < |d| ensures Literal(d[k], vars) {
      assert d[k] in c;
    }
  }

  // Clause x after the qsort of its literals.
  ghost predicate SortedOne(was: Clause, now: Clause) {
    && !now.subsumed && Ordered(now.lits) && multiset(now.lits) == multiset(was.lits)
    && (|was.lits| == 3 ==> Proper(now.lits))
  }

  lemma SortedClusterable(was: seq<Clause>, now: seq<Clause>, exact: bool)
    requires |was| == |now| && forall x :: 0 <= x < |was| ==> SortedOne(was[x], now[x])
    requires exact ==> AndEqualSearch.NoDoubles(Lits(was))
    ensures Clusterable(Lits(now), exact)
    ensures forall a: Assignment :: AllTrue(Lits(now), a) <==> AllTrue(Lits(was), a)
  {
    forall k | 0 <= k < |now| ensures Ordered(Lits(now)[k]) && (|Lits(now)[k]| == 3 ==> Proper(Lits(now)[k])) {
      assert SortedOne(was[k], now[k]);
      SameMembers(was[k].lits, now[k].lits);
    }
    forall k, x | exact && 0 <= k < |now| && 0 <= x < |now| ensures !AndEqualSearch.Doubles(Lits(now)[k], Lits(now)[x]) {
      assert SortedOne(was[k], now[k]) && SortedOne(was[x], now[x]);
      SortedDoubles(was[k].lits, was[x].lits, now[k].lits, now[x].lits);
      assert !AndEqualSearch.Doubles(Lits(was)[k], Lits(was)[x]);
    }
    forall a: Assignment, x | 0 <= x < |was| ensures ClauseTrue(Lits(now)[x], a) <==> ClauseTrue(Lits(was)[x], a) {
      assert SortedOne(was[x], now[x]);
      SortedClauseTrue(now[x].lits, was[x].lits, a);
    }
  }

  method SortVariables(p: array<Clause>, n: nat, vars: nat, ghost exact: bool)
    requires n <= p.Length && Stored(p[..n], vars, true) && (exact ==> AndEqualSearch.NoDoubles(Lits(p[..n])))
    modifies p
    ensures (forall x :: 0 <= x < n ==> !p[x].subsumed) && Clusterable(Lits(p[..n]), exact)
    ensures InRange(Lits(p[..n]), vars)
    ensures forall a: Assignment :: AllTrue(Lits(p[..n]), a) <==> AllTrue(old(Lits(p[..n])), a)
  {
    ghost var was := p[..n];
    for x := 0 to n
      invariant forall y :: x <= y < n ==> p[y] == was[y]
      invariant forall y :: 0 <= y < x ==> SortedOne(was[y], p[y])
      invariant forall y, k :: 0 <= y < x && 0 <= k < |p[y].lits| ==> Literal(p[y].lits[k], vars)
    {
      assert p[x] == was[x];
      var sorted := SortLiterals(p[x].lits);
      SortedIsOrdered(p[x].lits, sorted);
      SortedLiteralsInRange(p[x].lits, sorted, vars);
      p[x] := p[x].(lits := sorted);
    }
    SortedClusterable(was, p[..n], exact);
  }

  lemma PermutedAllTrue(cs: seq<seq<int>>, ds: seq<seq<int>>, a: Assignment)
    requires multiset(cs) == multiset(ds)
    ensures AllTrue(cs, a) <==> AllTrue(ds, a)
  {
    SameMembers(cs, ds);
    if AllTrue(cs, a) {
      forall k | 0 <= k < |ds| ensures ClauseTrue(ds[k], a) {
        assert ds[k] in cs;
      }
    }
    if AllTrue(ds, a) {
      forall k | 0 <= k < |cs| ensures ClauseTrue(cs[k], a) {
        assert cs[k] in ds;
      }
    }
  }

  method SortClauseArray(p: array<Clause>, n: nat, vars: nat, ghost exact: bool)
    requires n <= p.Length && InRange(Lits(p[..n]), vars)
    requires (forall x :: 0 <= x < n ==> !p[x].subsumed) && Clusterable(Lits(p[..n]), exact)
    modifies p
    ensures (forall x :: 0 <= x < n ==> !p[x].subsumed) && Clusterable(Lits(p[..n]), exact)
    ensures SortedClauses(Lits(p[..n])) && InRange(Lits(p[..n]), vars)
    ensures forall a: Assignment :: AllTrue(Lits(p[..n]), a) <==> AllTrue(old(Lits(p[..n])), a)
  {
    ghost var was := p[..n];
    var sorted := SortClauses(Lits(p[..n]));
    SameMembers(sorted, Lits(was));
    forall x | 0 <= x < n ensures sorted[x] in Lits(was) && forall k :: 0 <= k < |sorted[x]| ==> Literal(sorted[x][k], vars) {
      assert sorted[x] in sorted;
    }
    FewerClusterable(Lits(was), sorted, exact);
    for x := 0 to n
      invariant forall y :: 0 <= y < x ==> p[y] == Clause(sorted[y], false)
    {
      p[x] := Clause(sorted[x], false);
    }
    assert Lits(p[..n]) == sorted;
    forall a: Assignment { PermutedAllTrue(Lits(was), sorted, a); }
  }

  // The clustering part: whatever the searches find, functions and remaining clauses
  // together keep the models of the clauses.
  method Cluster(p: array<Clause>, n: nat, vars: nat, ghost exact: bool) returns (fs: seq<Function>, n': nat)
    requires n <= p.Length && Stored(p[..n], vars, true) && (exact ==> AndEqualSearch.NoDoubles(Lits(p[..n])))
    modifies p
    ensures n' <= n && Between(old(Lits(p[..n])), fs, p[..n'], vars, exact)
  {
    ghost var original := Lits(p[..n]);
    SortVariables(p, n, vars, exact);
    SortClauseArray(p, n, vars, exact);
    fs := [];
    ghost var was := p[..n];
    FreshDroppable(fs, was);
    ghost var marked;
    n', marked := ReduceClauses(p, n);
    ReduceFresh(original, fs, was, marked, p[..n'], vars, exact);
    fs, n' := XorPhase(p, n', vars, fs, original, exact);
    fs, n' := AndPhase(p, n', vars, fs, original, exact);
    fs, n' := MajorityPhase(p, n', vars, fs, original, exact);
    fs, n' := ItePhase(p, n', vars, fs, original, exact);
  }

  method XorPhase(p: array<Clause>, n: nat, vars: nat, fs: seq<Function>, ghost original: seq<seq<int>>, ghost exact: bool)
    returns (fs': seq<Function>, n': nat)
    requires n <= p.Length && Between(original, fs, p[..n], vars, exact)
    modifies p
    ensures n' <= n && Between(original, fs', p[..n'], vars, exact)
  {
    ghost var was := p[..n];
    FreshDroppable(fs, was);
    ghost var starts, marked;
    fs', starts := FindAndBuildXors(p, n, fs);
    XorsSound(fs, was, starts, p[..n]);
    ghost var now := p[..n];
    n', marked := ReduceClauses(p, n);
    PhaseKeeps(original, fs, was, fs', now, marked, p[..n'], vars, exact);
  }

  method AndPhase(p: array<Clause>, n: nat, vars: nat, fs: seq<Function>, ghost original: seq<seq<int>>, ghost exact: bool)
    returns (fs': seq<Function>, n': nat)
    requires n <= p.Length && Between(original, fs, p[..n], vars, exact)
    modifies p
    ensures n' <= n && Between(original, fs', p[..n'], vars, exact)
  {
    ghost var was := p[..n];
    FreshDroppable(fs, was);
    ghost var sites, marked;
    fs', sites := AndEqualSearch.FindAndBuildAndEquals(p, n, fs, vars);
    AndEqualSearch.AndEqualsLoseNone(fs, was, sites, p[..n], fs');
    if exact {
      AndEqualSearch.NoDoublesFaithful(Lits(was));
      AndEqualSearch.AndEqualsSound(fs, was, sites, p[..n], fs');
    }
    ghost var now := p[..n];
    n', marked := ReduceClauses(p, n);
    PhaseKeeps(original, fs, was, fs', now, marked, p[..n'], vars, exact);
  }

  method MajorityPhase(p: array<Clause>, n: nat, vars: nat, fs: seq<Function>, ghost original: seq<seq<int>>, ghost exact: bool)
    returns (fs': seq<Function>, n': nat)
    requires n <= p.Length && Between(original, fs, p[..n], vars, exact)
    modifies p
    ensures n' <= n && Between(original, fs', p[..n'], vars, exact)
  {
    ghost var was := p[..n];
    FreshDroppable(fs, was);
    ghost var sites, more, marked;
    fs', sites, more := MajoritySearch.FindAndBuildMajvEquals(p, n, fs, vars);
    MajoritySearch.MajvEqualsSound(fs, was, sites, more, p[..n]);
    ghost var now := p[..n];
    n', marked := ReduceClauses(p, n);
    PhaseKeeps(original, fs, was, fs', now, marked, p[..n'], vars, exact);
  }

  method ItePhase(p: array<Clause>, n: nat, vars: nat, fs: seq<Function>, ghost original: seq<seq<int>>, ghost exact: bool)
    returns (fs': seq<Function>, n': nat)
    requires n <= p.Length && Between(original, fs, p[..n], vars, exact)
    modifies p
    ensures n' <= n && Between(original, fs', p[..n'], vars, exact)
  {
    ghost var was := p[..n];
    FreshDroppable(fs, was);
    ghost var sites, more, marked;
    fs', sites, more := IteSearch.FindAndBuildIteEquals(p, n, fs, vars);
    IteSearch.IteEqualsSound(fs, was, sites, more, p[..n]);
    ghost var now := p[..n];
    n', marked := ReduceClauses(p, n);
    PhaseKeeps(original, fs, was, fs', now, marked, p[..n'], vars, exact);
  }

  // No clause is left.  The functions that come out have every model of the clauses
  // that went in, and no other one unless clauses to be clustered double a literal.
  method CnfProcess(p: array<Clause>, n: nat, vars: nat, doCluster: bool) returns (fs: seq<Function>, n': nat)
    requires n <= p.Length && Stored(p[..n], vars, doCluster)
    modifies p
    ensures n' == 0
    ensures forall a: Assignment :: AllTrue(old(Lits(p[..n])), a) ==> Holds(fs, a)
    ensures !doCluster || AndEqualSearch.NoDoubles(old(Lits(p[..n]))) ==>
              forall a: Assignment :: Holds(fs, a) <==> AllTrue(old(Lits(p[..n])), a)
  {
    ghost var original := Lits(p[..n]);
    ghost var exact := !doCluster || AndEqualSearch.NoDoubles(original);
    fs, n' := [], n;
    if doCluster {
      fs, n' := Cluster(p, n, vars, exact);
    }
    ghost var was := p[..n'];
    ghost var before := fs;
    assert ModelsKept(original, before, was, exact);
    forall x, k | 0 <= x < n' && 0 <= k < |p[x].lits| ensures p[x].lits[k] != 0 {
      assert p[..n'][x] == p[x];
      assert Lits(was)[x] == p[x].lits;
    }
    fs := BuildClauseBdds(p, n', fs);
    forall a: Assignment { ClauseBddsSound(before, was, fs, a); }
    ghost var marked;
    ghost var n0 := n';
    n', marked := ReduceClauses(p, n');
    AllSubsumed(marked);
    assert |p[..n']| == 0;
  }
}
