// The clause array and the function list of src/formats/cnf.cc, the meaning
// the searches keep, and reduce_clauses.

module ClauseStore {
  import opened Bdd
  import opened Clauses
  import opened ClauseOrder

  datatype Clause = Clause(lits: seq<int>, subsumed: bool)

  datatype Kind = PLAINOR | PLAINXOR | AND_EQU | OR_EQU | ITE_EQU

  datatype Function = Function(bdd: Bdd, kind: Kind, eq: int)

  ghost predicate Holds(fs: seq<Function>, a: Assignment) {
    forall k :: 0 <= k < |fs| ==> Eval(fs[k].bdd, a)
  }

  lemma HoldsAppend(fs: seq<Function>, gs: seq<Function>, a: Assignment)
    ensures Holds(fs + gs, a) <==> Holds(fs, a) && Holds(gs, a)
  {
    if Holds(fs + gs, a) {
      forall k | 0 <= k < |fs| ensures Eval(fs[k].bdd, a) {
        assert (fs + gs)[k] == fs[k];
      }
      forall k | 0 <= k < |gs| ensures Eval(gs[k].bdd, a) {
        assert (fs + gs)[|fs| + k] == gs[k];
      }
    }
  }

  function Lits(cs: seq<Clause>): seq<seq<int>> {
    seq(|cs|, k requires 0 <= k < |cs| => cs[k].lits)
  }

  // What functions and clauses say together.
  ghost predicate Model(fs: seq<Function>, cs: seq<Clause>, a: Assignment) {
    Holds(fs, a) && AllTrue(Lits(cs), a)
  }

  // Subsumed clauses may be dropped: they follow from what stays.
  ghost predicate Droppable(fs: seq<Function>, cs: seq<Clause>) {
    forall a: Assignment ::
      Holds(fs, a) && (forall k :: 0 <= k < |cs| && !cs[k].subsumed ==> ClauseTrue(cs[k].lits, a))
      ==> AllTrue(Lits(cs), a)
  }

  // A search keeps the clauses, may mark some, and may append functions.
  ghost predicate Searched(fs: seq<Function>, cs: seq<Clause>, fs': seq<Function>, cs': seq<Clause>) {
    && fs <= fs'
    && Lits(cs') == Lits(cs)
    && Droppable(fs', cs')
    && forall a: Assignment :: Model(fs', cs', a) <==> Model(fs, cs, a)
  }

  // A search that loses no model, and gains none when it is exact.
  ghost predicate LosesNone(fs: seq<Function>, cs: seq<Clause>, fs': seq<Function>, cs': seq<Clause>, exact: bool) {
    && Lits(cs') == Lits(cs)
    && (forall a: Assignment :: Model(fs, cs, a) ==> Model(fs', cs', a))
    && (exact ==> Searched(fs, cs, fs', cs'))
  }

  // Every appended function is implied by the clauses, and every newly marked
  // clause is implied by an appended function.
  lemma SearchSound(fs: seq<Function>, cs: seq<Clause>, more: seq<Function>, cs': seq<Clause>)
    requires Droppable(fs, cs) && Lits(cs') == Lits(cs)
    requires forall k :: 0 <= k < |cs| && cs[k].subsumed ==> cs'[k].subsumed
    requires forall a: Assignment :: AllTrue(Lits(cs), a) ==> Holds(more, a)
    requires forall k, a: Assignment :: 0 <= k < |cs'| && cs'[k].subsumed && !cs[k].subsumed && Holds(more, a)
               ==> ClauseTrue(cs[k].lits, a)
    ensures Searched(fs, cs, fs + more, cs')
  {
    assert |Lits(cs)| == |cs| && |Lits(cs')| == |cs'|;
    forall a: Assignment { HoldsAppend(fs, more, a); }
    forall k | 0 <= k < |cs| ensures cs'[k].lits == cs[k].lits {
      assert Lits(cs')[k] == Lits(cs)[k];
    }
  }

  // ----- reduce_clauses -----

  function Unsubsumed(cs: seq<Clause>): seq<Clause> {
    if cs == [] then []
    else Unsubsumed(cs[..|cs| - 1]) + if cs[|cs| - 1].subsumed then [] else [cs[|cs| - 1]]
  }

  ghost predicate Remains(cs: seq<Clause>, c: Clause) {
    exists k :: 0 <= k < |cs| && !cs[k].subsumed && cs[k] == c
  }

  lemma {:induction false} UnsubsumedMembers(cs: seq<Clause>)
    ensures |Unsubsumed(cs)| <= |cs|
    ensures forall c :: c in Unsubsumed(cs) <==> Remains(cs, c)
    ensures forall k :: 0 <= k < |Unsubsumed(cs)| ==> !Unsubsumed(cs)[k].subsumed
  {
    if cs != [] {
      var n := |cs| - 1;
      UnsubsumedMembers(cs[..n]);
      forall c ensures Remains(cs, c) <==> Remains(cs[..n], c) || (c == cs[n] && !cs[n].subsumed) {
        if Remains(cs, c) {
          var k :| 0 <= k < |cs| && !cs[k].subsumed && cs[k] == c;
          assert k < n ==> cs[..n][k] == c;
        }
        if Remains(cs[..n], c) {
          var k :| 0 <= k < n && !cs[..n][k].subsumed && cs[..n][k] == c;
          assert cs[k] == c;
        }
      }
    }
  }

  // Clauses in the order of clscompfunc stay so, strictly once equal
  // neighbours are marked.
  ghost predicate OrderedRest(cs: seq<Clause>) {
    forall i, j :: 0 <= i < j < |cs| && !cs[i].subsumed && !cs[j].subsumed ==> ClauseLess(cs[i].lits, cs[j].lits)
  }

  lemma StrictAppend(cs: seq<seq<int>>, c: seq<int>)
    requires StrictClauses(cs) && forall i :: 0 <= i < |cs| ==> ClauseLess(cs[i], c)
    ensures StrictClauses(cs + [c])
  {
    var more := cs + [c];
    forall i, j | 0 <= i < j < |more| ensures ClauseLess(more[i], more[j]) {
      if j < |cs| {
        assert ClauseLess(cs[i], cs[j]);
      }
    }
  }

  // What remains of a prefix comes before the next clause, if that one remains.
  lemma RestLess(cs: seq<Clause>, n: nat, i: nat)
    requires OrderedRest(cs) && n < |cs| && !cs[n].subsumed && i < |Unsubsumed(cs[..n])|
    ensures ClauseLess(Unsubsumed(cs[..n])[i].lits, cs[n].lits)
  {
    var rest := Unsubsumed(cs[..n]);
    UnsubsumedMembers(cs[..n]);
    assert rest[i] in rest;
    var k :| 0 <= k < n && !cs[..n][k].subsumed && cs[..n][k] == rest[i];
    assert cs[..n][k] == cs[k];
  }

  lemma OrderedPrefix(cs: seq<Clause>, n: nat)
    requires OrderedRest(cs) && n <= |cs|
    ensures OrderedRest(cs[..n])
  {
    assert forall i :: 0 <= i < n ==> cs[..n][i] == cs[i];
  }

  lemma {:induction false} UnsubsumedOrdered(cs: seq<Clause>)
    requires OrderedRest(cs)
    ensures StrictClauses(Lits(Unsubsumed(cs)))
  {
    if cs != [] {
      var n := |cs| - 1;
      var rest := Unsubsumed(cs[..n]);
      OrderedPrefix(cs, n);
      UnsubsumedOrdered(cs[..n]);
      if cs[n].subsumed {
        assert Unsubsumed(cs) == rest;
      } else {
        forall i | 0 <= i < |rest| ensures ClauseLess(Lits(rest)[i], cs[n].lits) {
          RestLess(cs, n, i);
        }
        StrictAppend(Lits(rest), cs[n].lits);
        assert Lits(Unsubsumed(cs)) == Lits(rest) + [cs[n].lits];
      }
    }
  }

  ghost predicate Duplicate(cs: seq<Clause>, k: int) {
    1 <= k < |cs| && cs[k].lits == cs[k - 1].lits
  }

  // No clause taken by a function still has its duplicate behind it.
  ghost predicate CleanDuplicates(cs: seq<Clause>) {
    forall k :: Duplicate(cs, k) ==> !cs[k - 1].subsumed
  }

  ghost predicate Marked(cs: seq<Clause>, cs': seq<Clause>, bound: int) {
    && |cs'| == |cs|
    && forall k :: 0 <= k < |cs| ==>
         && cs'[k].lits == cs[k].lits
         && cs'[k].subsumed == (cs[k].subsumed || (k < bound && Duplicate(cs, k)))
  }

  // A clause that is no duplicate comes strictly after all earlier ones.
  lemma NoDuplicateLess(cs: seq<Clause>, i: nat, j: nat)
    requires SortedClauses(Lits(cs)) && i < j < |cs| && !Duplicate(cs, j)
    ensures ClauseLess(cs[i].lits, cs[j].lits)
  {
    var before := j - 1;
    assert Lits(cs)[before] == cs[before].lits && Lits(cs)[j] == cs[j].lits && Lits(cs)[i] == cs[i].lits;
    assert Lits(cs)[before] == Lits(cs)[j] || ClauseLess(Lits(cs)[before], Lits(cs)[j]);
    if i < before && cs[i].lits != cs[before].lits {
      assert ClauseLess(Lits(cs)[i], Lits(cs)[before]);
      LexTransitive(Key(cs[i].lits), Key(cs[before].lits), Key(cs[j].lits));
    }
  }

  lemma MarkedOrdered(cs: seq<Clause>, cs': seq<Clause>)
    requires Marked(cs, cs', |cs|) && SortedClauses(Lits(cs))
    ensures OrderedRest(cs')
  {
    forall i, j | 0 <= i < j < |cs'| && !cs'[i].subsumed && !cs'[j].subsumed
      ensures ClauseLess(cs'[i].lits, cs'[j].lits)
    {
      NoDuplicateLess(cs, i, j);
    }
  }

  // A marked duplicate follows from its predecessor.
  lemma MarkedDroppable(fs: seq<Function>, cs: seq<Clause>, cs': seq<Clause>)
    requires Droppable(fs, cs) && Marked(cs, cs', |cs|) && CleanDuplicates(cs)
    ensures Droppable(fs, cs') && Lits(cs') == Lits(cs)
  {
    forall k | 0 <= k < |cs| ensures Lits(cs')[k] == Lits(cs)[k] {
    }
    forall a: Assignment |
      Holds(fs, a) && (forall k :: 0 <= k < |cs'| && !cs'[k].subsumed ==> ClauseTrue(cs'[k].lits, a))
      ensures AllTrue(Lits(cs'), a)
    {
      forall k | 0 <= k < |cs| && !cs[k].subsumed ensures ClauseTrue(cs[k].lits, a) {
        RunTrue(cs, cs', k, a);
      }
      assert AllTrue(Lits(cs), a);
    }
  }

  lemma {:induction false} RunTrue(cs: seq<Clause>, cs': seq<Clause>, k: nat, a: Assignment)
    requires Marked(cs, cs', |cs|) && CleanDuplicates(cs) && k < |cs| && !cs[k].subsumed
    requires forall j :: 0 <= j < |cs| && !cs'[j].subsumed ==> ClauseTrue(cs[j].lits, a)
    ensures ClauseTrue(cs[k].lits, a)
  {
    if Duplicate(cs, k) {
      RunTrue(cs, cs', k - 1, a);
    }
  }

  // Dropping the subsumed clauses changes nothing.
  lemma DropSound(fs: seq<Function>, cs: seq<Clause>, a: Assignment)
    requires Droppable(fs, cs)
    ensures Model(fs, Unsubsumed(cs), a) <==> Model(fs, cs, a)
  {
    UnsubsumedMembers(cs);
    var rest := Unsubsumed(cs);
    if Model(fs, cs, a) {
      forall k | 0 <= k < |rest| ensures ClauseTrue(rest[k].lits, a) {
        assert rest[k] in rest;
        var j :| 0 <= j < |cs| && !cs[j].subsumed && cs[j] == rest[k];
        assert ClauseTrue(Lits(cs)[j], a);
      }
    }
    if Model(fs, rest, a) {
      forall k | 0 <= k < |cs| && !cs[k].subsumed ensures ClauseTrue(cs[k].lits, a) {
        assert Remains(cs, cs[k]);
        var j :| 0 <= j < |rest| && rest[j] == cs[k];
        assert ClauseTrue(Lits(rest)[j], a);
      }
    }
  }

  method SameLiterals(c: seq<int>, d: seq<int>) returns (isdup: bool)
    ensures isdup <==> c == d
  {
    isdup := false;
    if |c| == |d| {
      for y := 0 to |c|
        invariant c[..y] == d[..y]
      {
        if c[y] != d[y] {
          return false;
        }
      }
      return true;
    }
  }

  method MarkDuplicates(p: array<Clause>, n: nat)
    requires n <= p.Length
    modifies p
    ensures Marked(old(p[..n]), p[..n], n)
  {
    ghost var was := p[..n];
    var x := 0;
    while x < n - 1
      invariant 0 <= x && (1 <= n ==> x <= n - 1)
      invariant forall k :: 0 <= k < n ==> p[k].lits == was[k].lits
      invariant forall k :: 0 <= k < n ==> p[k].subsumed == (was[k].subsumed || (k < x + 1 && Duplicate(was, k)))
    {
      var isdup := SameLiterals(p[x].lits, p[x + 1].lits);
      if isdup {
        p[x + 1] := p[x + 1].(subsumed := true);
      }
      x := x + 1;
    }
  }

  // kept is what remains of the first y clauses.
  ghost predicate Kept(kept: seq<Clause>, cs: seq<Clause>, y: nat) {
    y <= |cs| && kept == Unsubsumed(cs[..y])
  }

  lemma KeptMore(kept: seq<Clause>, cs: seq<Clause>, y: nat)
    requires y < |cs| && Kept(kept, cs, y)
    ensures Kept(if cs[y].subsumed then kept else kept + [cs[y]], cs, y + 1)
  {
    assert cs[..y + 1][..y] == cs[..y];
  }

  lemma KeptAll(kept: seq<Clause>, cs: seq<Clause>, y: nat)
    requires Kept(kept, cs, y) && y == |cs|
    ensures kept == Unsubsumed(cs)
  {
    assert cs[..y] == cs;
  }

  // Mid-compaction: kept in place below x, clauses still to come from x + subs on.
  ghost predicate Compacted(now: seq<Clause>, marked: seq<Clause>, kept: seq<Clause>, subs: nat) {
    && |now| == |marked| && |kept| + subs <= |marked| && Kept(kept, marked, |kept| + subs)
    && now[..|kept|] == kept && now[|kept| + subs..] == marked[|kept| + subs..]
  }

  lemma CompactedMore(now: seq<Clause>, marked: seq<Clause>, kept: seq<Clause>, subs: nat, c: Clause, now': seq<Clause>)
    requires Compacted(now, marked, kept, subs) && |kept| + subs < |now| && c == now[|kept| + subs]
    requires |now'| == |now| && (!c.subsumed ==> now'[|kept|] == c)
    requires forall k :: 0 <= k < |now| && k != |kept| && k != |kept| + subs ==> now'[k] == now[k]
    ensures if c.subsumed then Compacted(now', marked, kept, subs + 1) else Compacted(now', marked, kept + [c], subs)
  {
    var y := |kept| + subs;
    assert now[y..][0] == marked[y..][0];
    KeptMore(kept, marked, y);
    assert now'[y + 1..] == now[y..][1..] == marked[y..][1..];
    assert now'[..|kept|] == kept;
    if !c.subsumed {
      assert now'[..|kept| + 1] == kept + [c];
    }
  }

  // Moves the next clause down; a subsumed one loses its literals.
  method MoveDown(p: array<Clause>, x: nat, subs: nat, n: nat, ghost marked: seq<Clause>, ghost kept: seq<Clause>) returns (c: Clause)
    requires n <= p.Length && |kept| == x && Compacted(p[..n], marked, kept, subs) && x + subs < n
    modifies p
    ensures if c.subsumed then Compacted(p[..n], marked, kept, subs + 1) else Compacted(p[..n], marked, kept + [c], subs)
  {
    ghost var now := p[..n];
    c := p[x + subs];
    p[x] := c;
    if c.subsumed {
      p[x + subs] := c.(lits := []);
    }
    CompactedMore(now, marked, kept, subs, c, p[..n]);
  }

  method Compact(p: array<Clause>, n: nat) returns (n': nat)
    requires n <= p.Length
    modifies p
    ensures n' <= n && p[..n'] == Unsubsumed(old(p[..n]))
  {
    ghost var marked := p[..n];
    ghost var kept: seq<Clause> := [];
    var subs := 0;
    n' := n;
    var x := 0;
    while x < n'
      invariant x <= n' && n' + subs == n && |kept| == x && Compacted(p[..n], marked, kept, subs)
      decreases n' - x
    {
      var c := MoveDown(p, x, subs, n, marked, kept);
      if c.subsumed {
        subs := subs + 1;
        n' := n' - 1;
      } else {
        kept := kept + [c];
        x := x + 1;
      }
    }
    KeptAll(kept, marked, x + subs);
    assert p[..n'] == p[..n][..x];
  }

  // Marks the duplicates, then keeps the clauses that are not subsumed, in
  // their order.
  method ReduceClauses(p: array<Clause>, n: nat) returns (n': nat, ghost marked: seq<Clause>)
    requires n <= p.Length
    modifies p
    ensures n' <= n
    ensures Marked(old(p[..n]), marked, n) && p[..n'] == Unsubsumed(marked)
  {
    MarkDuplicates(p, n);
    marked := p[..n];
    n' := Compact(p, n);
  }

  // What reduce_clauses does to a sorted list between two searches.
  lemma ReduceSound(fs: seq<Function>, cs: seq<Clause>, marked: seq<Clause>, cs': seq<Clause>)
    requires Droppable(fs, cs) && CleanDuplicates(cs) && SortedClauses(Lits(cs))
    requires Marked(cs, marked, |cs|) && cs' == Unsubsumed(marked)
    ensures forall a: Assignment :: Model(fs, cs', a) <==> Model(fs, cs, a)
    ensures StrictClauses(Lits(cs')) && Droppable(fs, cs') && CleanDuplicates(cs')
    ensures forall k :: 0 <= k < |cs'| ==> !cs'[k].subsumed
    ensures forall k :: 0 <= k < |cs'| ==> cs'[k].lits in Lits(cs)
  {
    MarkedDroppable(fs, cs, marked);
    ReduceOrder(cs, marked, cs');
    forall a: Assignment { DropSound(fs, marked, a); }
  }

  // Whatever is marked: what stays are clauses of before, in strict order.
  lemma ReduceOrder(cs: seq<Clause>, marked: seq<Clause>, cs': seq<Clause>)
    requires CleanDuplicates(cs) && SortedClauses(Lits(cs))
    requires Marked(cs, marked, |cs|) && cs' == Unsubsumed(marked)
    ensures StrictClauses(Lits(cs'))
    ensures forall k :: 0 <= k < |cs'| ==> !cs'[k].subsumed
    ensures forall k :: 0 <= k < |cs'| ==> cs'[k].lits in Lits(cs)
    ensures forall a: Assignment :: AllTrue(Lits(cs), a) ==> AllTrue(Lits(cs'), a)
  {
    MarkedOrdered(cs, marked);
    UnsubsumedOrdered(marked);
    UnsubsumedMembers(marked);
    forall k | 0 <= k < |cs'| ensures cs'[k].lits in Lits(cs) {
      assert cs'[k] in cs';
      var j :| 0 <= j < |marked| && !marked[j].subsumed && marked[j] == cs'[k];
      assert Lits(cs)[j] == cs'[k].lits;
    }
    forall a: Assignment, k | AllTrue(Lits(cs), a) && 0 <= k < |cs'| ensures ClauseTrue(Lits(cs')[k], a) {
      var j :| 0 <= j < |cs| && Lits(cs)[j] == cs'[k].lits;
    }
  }
}
