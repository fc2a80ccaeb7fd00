// find_and_build_andequals (src/formats/cnf.cc): a long clause together with
// two-literal clauses that cover it on one of its literals is an AND= or OR=.

module AndEqualSearch {
  import opened Bdd
  import opened Clauses
  import opened ClauseOrder
  import opened ClauseStore
  import opened XorSearch

  // An entry of two_pos or two_neg: the other literal and the clause number.
  datatype Pair = Pair(lit: int, clause: nat)

  function PairsOf(c: seq<int>, lit: int, x: nat): seq<Pair> {
    if |c| == 2 then
      (if c[0] == lit then [Pair(c[1], x)] else []) + (if c[1] == lit then [Pair(c[0], x)] else [])
    else []
  }

  // The two-literal clauses among the first bound that contain lit.
  function Others(cs: seq<seq<int>>, lit: int, bound: nat): seq<Pair>
    requires bound <= |cs|
  {
    if bound == 0 then [] else Others(cs, lit, bound - 1) + PairsOf(cs[bound - 1], lit, bound - 1)
  }

  lemma OthersUnfold(cs: seq<seq<int>>, lit: int, bound: nat)
    requires 0 < bound <= |cs|
    ensures Others(cs, lit, bound) == Others(cs, lit, bound - 1) + PairsOf(cs[bound - 1], lit, bound - 1)
  {
  }

  // The entry is the other literal of a two-literal clause with the literal.
  ghost predicate EntryRight(cs: seq<seq<int>>, lit: int, bound: nat, e: Pair)
    requires bound <= |cs|
  {
    e.clause < bound && (cs[e.clause] == [lit, e.lit] || cs[e.clause] == [e.lit, lit])
  }

  ghost predicate EntriesRight(cs: seq<seq<int>>, lit: int, bound: nat, es: seq<Pair>)
    requires bound <= |cs|
  {
    forall q :: 0 <= q < |es| ==> EntryRight(cs, lit, bound, es[q])
  }

  lemma EntriesMore(cs: seq<seq<int>>, lit: int, bound: nat, es: seq<Pair>)
    requires 0 < bound <= |cs| && EntriesRight(cs, lit, bound - 1, es)
    ensures EntriesRight(cs, lit, bound, es + PairsOf(cs[bound - 1], lit, bound - 1))
  {
    var c := cs[bound - 1];
    var more := PairsOf(c, lit, bound - 1);
    forall q | 0 <= q < |more| ensures EntryRight(cs, lit, bound, more[q]) {
      assert |c| == 2 && c == [c[0], c[1]];
    }
  }

  lemma {:induction false} AllEntriesRight(cs: seq<seq<int>>, lit: int, bound: nat)
    requires bound <= |cs|
    ensures EntriesRight(cs, lit, bound, Others(cs, lit, bound))
  {
    if bound > 0 {
      AllEntriesRight(cs, lit, bound - 1);
      EntriesMore(cs, lit, bound, Others(cs, lit, bound - 1));
      OthersUnfold(cs, lit, bound);
    }
  }

  lemma OthersMeaning(cs: seq<seq<int>>, lit: int, bound: nat, q: nat)
    requires bound <= |cs| && q < |Others(cs, lit, bound)|
    ensures var e := Others(cs, lit, bound)[q];
            e.clause < bound && (cs[e.clause] == [lit, e.lit] || cs[e.clause] == [e.lit, lit])
  {
    AllEntriesRight(cs, lit, bound);
    assert EntryRight(cs, lit, bound, Others(cs, lit, bound)[q]);
  }

  ghost predicate LongFrom(cs: seq<seq<int>>, x: nat) {
    forall j :: x <= j < |cs| ==> |cs[j]| > 2
  }

  lemma LongerBehind(cs: seq<seq<int>>, x: nat)
    requires Input(cs) && x < |cs| && |cs[x]| > 2
    ensures LongFrom(cs, x)
  {
    forall j | x < j < |cs| ensures |cs[j]| > 2 {
      ClauseLessLength(cs[x], cs[j]);
    }
  }

  // Nothing is missed by stopping at the first long clause.
  lemma {:induction false} OthersStop(cs: seq<seq<int>>, lit: int, x: nat, bound: nat)
    requires LongFrom(cs, x) && x <= bound <= |cs|
    ensures Others(cs, lit, bound) == Others(cs, lit, x)
  {
    if x < bound {
      OthersStop(cs, lit, x, bound - 1);
      OthersUnfold(cs, lit, bound);
      assert PairsOf(cs[bound - 1], lit, bound - 1) == [];
    }
  }

  // ----- filling two_pos and two_neg -----

  ghost function ListOf(pos: seq<seq<Pair>>, neg: seq<seq<Pair>>, lit: int): seq<Pair>
    requires Abs(lit) < |pos| == |neg|
  {
    if lit > 0 then pos[lit] else neg[-lit]
  }

  ghost predicate Listed(cs: seq<seq<int>>, pos: seq<seq<Pair>>, neg: seq<seq<Pair>>, vars: nat, x: nat) {
    && |pos| == |neg| == vars + 1 && x <= |cs|
    && forall lit {:trigger ListedAt(cs, pos, neg, lit, x)} :: Literal(lit, vars) ==> ListedAt(cs, pos, neg, lit, x)
  }

  ghost predicate ListedAt(cs: seq<seq<int>>, pos: seq<seq<Pair>>, neg: seq<seq<Pair>>, lit: int, x: nat)
    requires Abs(lit) < |pos| == |neg| && x <= |cs|
  {
    ListOf(pos, neg, lit) == Others(cs, lit, x)
  }

  method AddPair(pos: array<seq<Pair>>, neg: array<seq<Pair>>, lit: int, e: Pair, vars: nat)
    requires pos.Length == neg.Length == vars + 1 && pos != neg && Literal(lit, vars)
    modifies pos, neg
    ensures forall l :: Literal(l, vars) ==>
              ListOf(pos[..], neg[..], l) == old(ListOf(pos[..], neg[..], l)) + if l == lit then [e] else []
  {
    if lit > 0 {
      pos[lit] := pos[lit] + [e];
    } else {
      neg[-lit] := neg[-lit] + [e];
    }
  }

  lemma AddsPairs(es: seq<Pair>, c: seq<int>, lit: int, x: nat)
    requires |c| == 2
    ensures es + PairsOf(c, lit, x) ==
            es + (if lit == c[0] then [Pair(c[1], x)] else []) + (if lit == c[1] then [Pair(c[0], x)] else [])
  {
  }

  method AddClause(pos: array<seq<Pair>>, neg: array<seq<Pair>>, cs: seq<seq<int>>, x: nat, vars: nat)
    requires pos.Length == neg.Length == vars + 1 && pos != neg
    requires x < |cs| && |cs[x]| == 2 && InRange(cs, vars)
    requires Listed(cs, pos[..], neg[..], vars, x)
    modifies pos, neg
    ensures Listed(cs, pos[..], neg[..], vars, x + 1)
  {
    var c := cs[x];
    ghost var pos0, neg0 := pos[..], neg[..];
    AddPair(pos, neg, c[0], Pair(c[1], x), vars);
    AddPair(pos, neg, c[1], Pair(c[0], x), vars);
    var up := x + 1;
    forall lit | Literal(lit, vars) ensures ListedAt(cs, pos[..], neg[..], lit, up) {
      assert ListedAt(cs, pos0, neg0, lit, x);
      AddsPairs(Others(cs, lit, x), c, lit, x);
    }
  }

  // The lists at the first long clause are the lists of all clauses.
  lemma ListedStop(cs: seq<seq<int>>, pos: seq<seq<Pair>>, neg: seq<seq<Pair>>, vars: nat, x: nat)
    requires LongFrom(cs, x) && x < |cs| && Listed(cs, pos, neg, vars, x)
    ensures Listed(cs, pos, neg, vars, |cs|)
  {
    forall lit | Literal(lit, vars) ensures ListedAt(cs, pos, neg, lit, |cs|) {
      assert ListedAt(cs, pos, neg, lit, x);
      OthersStop(cs, lit, x, |cs|);
    }
  }

  lemma ListedShort(cs: seq<seq<int>>, pos: seq<seq<Pair>>, neg: seq<seq<Pair>>, vars: nat, x: nat)
    requires x < |cs| && |cs[x]| < 2 && Listed(cs, pos, neg, vars, x)
    ensures Listed(cs, pos, neg, vars, x + 1)
  {
    var up := x + 1;
    forall lit | Literal(lit, vars) ensures ListedAt(cs, pos, neg, lit, up) {
      assert ListedAt(cs, pos, neg, lit, x);
      assert PairsOf(cs[x], lit, x) == [];
    }
  }

  method BuildTwoLists(cs: seq<seq<int>>, vars: nat) returns (pos: array<seq<Pair>>, neg: array<seq<Pair>>)
    requires Input(cs) && InRange(cs, vars)
    ensures fresh(pos) && fresh(neg)
    ensures Listed(cs, pos[..], neg[..], vars, |cs|)
  {
    pos := new seq<Pair>[vars + 1](_ => []);
    neg := new seq<Pair>[vars + 1](_ => []);
    ShortClausesFirst(cs);
    assert forall lit :: Literal(lit, vars) ==> ListedAt(cs, pos[..], neg[..], lit, 0);
    FillTwoLists(pos, neg, cs, vars);
  }

  // Once a clause has more than two literals, so have all behind it.
  ghost predicate ShortFirst(cs: seq<seq<int>>) {
    forall x :: 0 <= x < |cs| && |cs[x]| > 2 ==> LongFrom(cs, x)
  }

  lemma ShortClausesFirst(cs: seq<seq<int>>)
    requires Input(cs)
    ensures ShortFirst(cs)
  {
    forall x | 0 <= x < |cs| && |cs[x]| > 2 ensures LongFrom(cs, x) {
      if |cs[x]| > 2 {
        LongerBehind(cs, x);
      }
    }
  }

  // Stops at the first clause of more than two literals.
  method FillTwoLists(pos: array<seq<Pair>>, neg: array<seq<Pair>>, cs: seq<seq<int>>, vars: nat)
    requires ShortFirst(cs) && InRange(cs, vars) && pos != neg && Listed(cs, pos[..], neg[..], vars, 0)
    modifies pos, neg
    ensures Listed(cs, pos[..], neg[..], vars, |cs|)
  {
    var x: nat := 0;
    while x < |cs| && |cs[x]| <= 2
      invariant x <= |cs| && Listed(cs, pos[..], neg[..], vars, x)
    {
      if |cs[x]| == 2 {
        AddClause(pos, neg, cs, x, vars);
      } else {
        ListedShort(cs, pos[..], neg[..], vars, x);
      }
      x := x + 1;
    }
    if x < |cs| {
      ListedStop(cs, pos[..], neg[..], vars, x);
    }
  }

  // ----- one clause against one list -----

  // The clause without the literal at y.
  function Rest(c: seq<int>, y: nat): (d: seq<int>)
    requires y < |c|
    ensures |d| == |c| - 1
  {
    c[..y] + c[y + 1..]
  }

  // Entry g[m] cancels literal d[m] for the first |g| literals: the entries are taken
  // from the front, and only entries of smaller variables are passed over.
  ghost predicate Cancels(es: seq<Pair>, d: seq<int>, g: seq<nat>) {
    |g| <= |d| && forall m :: 0 <= m < |g| ==> CancelsAt(es, d, g, m)
  }

  ghost predicate CancelsAt(es: seq<Pair>, d: seq<int>, g: seq<nat>, m: int)
    requires 0 <= m < |g| <= |d|
  {
    && NextEntry(g, m) <= g[m] < |es| && es[g[m]].lit == -d[m]
    && Smaller(es, NextEntry(g, m), g[m], d[m])
  }

  // The entry to look at first for d[m].
  ghost function NextEntry(g: seq<nat>, m: int): nat
    requires 0 <= m <= |g|
  {
    if m == 0 then 0 else g[m - 1] + 1
  }

  ghost predicate Smaller(es: seq<Pair>, from: nat, to: int, lit: int) {
    to <= |es| && forall r :: from <= r < to ==> Abs(es[r].lit) < Abs(lit)
  }

  ghost predicate IsCover(es: seq<Pair>, d: seq<int>, g: seq<nat>) {
    Cancels(es, d, g) && |g| == |d|
  }

  ghost predicate Covered(es: seq<Pair>, c: seq<int>, y: nat)
    requires y < |c|
  {
    exists g :: IsCover(es, Rest(c, y), g)
  }

  // There is no choice: two covers agree as far as both go.
  lemma {:induction false} CancelsUnique(es: seq<Pair>, d: seq<int>, g: seq<nat>, h: seq<nat>, m: nat)
    requires Cancels(es, d, g) && Cancels(es, d, h) && m < |g| && m < |h|
    ensures g[m] == h[m]
  {
    if m > 0 {
      CancelsUnique(es, d, g, h, m - 1);
    }
    assert CancelsAt(es, d, g, m) && CancelsAt(es, d, h, m);
  }

  // The entries of a cover before the scan's position are the ones taken.
  lemma CoverNext(es: seq<Pair>, d: seq<int>, g: seq<nat>, h: seq<nat>, v: nat)
    requires Cancels(es, d, g) && IsCover(es, d, h) && |g| < |d|
    requires NextEntry(g, |g|) <= v && Smaller(es, NextEntry(g, |g|), v, d[|g|])
    ensures v <= h[|g|] < |es| && es[h[|g|]].lit == -d[|g|] && (v < |es| && es[v].lit != -d[|g|] ==> Abs(es[v].lit) < Abs(d[|g|]))
  {
    var m := |g|;
    if m > 0 {
      CancelsUnique(es, d, g, h, m - 1);
    }
    assert CancelsAt(es, d, h, m);
  }

  lemma CancelsMore(es: seq<Pair>, d: seq<int>, g: seq<nat>, v: nat)
    requires Cancels(es, d, g) && |g| < |d| && v < |es| && es[v].lit == -d[|g|]
    requires NextEntry(g, |g|) <= v && Smaller(es, NextEntry(g, |g|), v, d[|g|])
    ensures Cancels(es, d, g + [v])
  {
    var more := g + [v];
    forall m | 0 <= m < |more| ensures CancelsAt(es, d, more, m) {
      if m < |g| {
        assert CancelsAt(es, d, g, m);
      }
    }
  }

  // Where the scan is: |g| literals other than the one at y are cancelled, and
  // entries before v are taken or belong to smaller variables.
  ghost predicate Scanning(es: seq<Pair>, c: seq<int>, y: nat, i: nat, v: nat, g: seq<nat>)
    requires y < |c|
  {
    && i <= |c| && v <= |es| && |g| == (if y < i then i - 1 else i) && Cancels(es, Rest(c, y), g)
    && NextEntry(g, |g|) <= v && (|g| < |c| - 1 ==> Smaller(es, NextEntry(g, |g|), v, Rest(c, y)[|g|]))
  }

  // One turn of the scan; out when literal i has no entry.
  method ScanOne(es: seq<Pair>, c: seq<int>, y: nat, i: nat, v: nat, ghost g: seq<nat>)
    returns (out: bool, took: bool, i': nat, v': nat, ghost g': seq<nat>)
    requires y < |c| && i < |c| && Scanning(es, c, y, i, v, g)
    ensures out ==> !Covered(es, c, y)
    ensures !out ==> Scanning(es, c, y, i', v', g') && i' + v' > i + v
    ensures !out ==> (took ==> v < |es|) && g' == if took then g + [v] else g
  {
    out, took, i', v', g' := false, false, i, v, g;
    ghost var d := Rest(c, y);
    if i == y {
      i' := i + 1;
    } else if v >= |es| {
      NoEntry(es, c, y, i, v, g);
      out := true;
    } else if c[i] == -es[v].lit {
      assert d[|g|] == c[i];
      CancelsMore(es, d, g, v);
      took, i', v', g' := true, i + 1, v + 1, g + [v];
    } else if Abs(c[i]) > Abs(es[v].lit) {
      v' := v + 1;
    } else {
      NoEntry(es, c, y, i, v, g);
      out := true;
    }
  }

  lemma NoEntry(es: seq<Pair>, c: seq<int>, y: nat, i: nat, v: nat, g: seq<nat>)
    requires y < |c| && i < |c| && i != y && Scanning(es, c, y, i, v, g)
    requires v >= |es| || (c[i] != -es[v].lit && Abs(c[i]) <= Abs(es[v].lit))
    ensures !Covered(es, c, y)
  {
    var d := Rest(c, y);
    assert d[|g|] == c[i];
    if h :| IsCover(es, d, h) {
      CoverNext(es, d, g, h, v);
    }
  }

  method TestCover(es: seq<Pair>, c: seq<int>, y: nat) returns (ok: bool)
    requires y < |c|
    ensures ok <==> Covered(es, c, y)
  {
    var i: nat, v: nat := 0, 0;
    ghost var g: seq<nat> := [];
    var out := false;
    while i < |c| && !out
      invariant if out then !Covered(es, c, y) else Scanning(es, c, y, i, v, g)
      decreases !out, |c| + |es| - i - v
    {
      var took;
      out, took, i, v, g := ScanOne(es, c, y, i, v, g);
    }
    if !out {
      assert IsCover(es, Rest(c, y), g);
    }
    ok := !out;
  }

  // Enough entries are needed: the shortcut test loses nothing.
  lemma {:induction false} CancelsAfter(es: seq<Pair>, d: seq<int>, g: seq<nat>, m: nat)
    requires Cancels(es, d, g) && m < |g|
    ensures m <= g[m] < |es|
  {
    if m > 0 {
      CancelsAfter(es, d, g, m - 1);
    }
    assert CancelsAt(es, d, g, m);
  }

  lemma CoverNeedsEntries(es: seq<Pair>, c: seq<int>, y: nat)
    requires y < |c| && Covered(es, c, y)
    ensures |c| - 1 <= |es|
  {
    var g :| IsCover(es, Rest(c, y), g);
    if |g| > 0 {
      CancelsAfter(es, Rest(c, y), g, |g| - 1);
    }
  }

  // Clause k is the one of an entry taken so far / by the cover.
  ghost predicate Took(es: seq<Pair>, g: seq<nat>, k: int) {
    exists m :: TookAt(es, g, k, m)
  }

  ghost predicate TookAt(es: seq<Pair>, g: seq<nat>, k: int, m: int) {
    0 <= m < |g| && g[m] < |es| && es[g[m]].clause == k
  }

  ghost predicate UsedEntry(es: seq<Pair>, c: seq<int>, y: nat, k: int)
    requires y < |c|
  {
    exists g :: IsCover(es, Rest(c, y), g) && Took(es, g, k)
  }

  lemma TookMore(es: seq<Pair>, g: seq<nat>, v: nat, k: int)
    requires v < |es|
    ensures Took(es, g + [v], k) <==> Took(es, g, k) || es[v].clause == k
  {
    if m :| TookAt(es, g, k, m) {
      assert TookAt(es, g + [v], k, m);
    }
    if es[v].clause == k {
      assert TookAt(es, g + [v], k, |g|);
    }
    if m :| TookAt(es, g + [v], k, m) {
      assert m < |g| ==> TookAt(es, g, k, m);
    }
  }

  lemma UsedIsTook(es: seq<Pair>, c: seq<int>, y: nat, g: seq<nat>, k: int)
    requires y < |c| && IsCover(es, Rest(c, y), g)
    ensures UsedEntry(es, c, y, k) <==> Took(es, g, k)
  {
    if UsedEntry(es, c, y, k) {
      var h :| IsCover(es, Rest(c, y), h) && Took(es, h, k);
      forall m | 0 <= m < |g| ensures g[m] == h[m] {
        CancelsUnique(es, Rest(c, y), g, h, m);
      }
      assert g == h;
    }
  }

  // The same scan again, marking the clause of every entry taken.
  method MarkCover(p: array<Clause>, n: nat, es: seq<Pair>, c: seq<int>, y: nat)
    requires y < |c| && Covered(es, c, y)
    requires n <= p.Length && forall q :: 0 <= q < |es| ==> es[q].clause < n
    modifies p
    ensures forall k :: 0 <= k < n ==> p[k].lits == old(p[k].lits)
    ensures forall k :: 0 <= k < n ==> p[k].subsumed == (old(p[k].subsumed) || UsedEntry(es, c, y, k))
  {
    var i: nat, v: nat := 0, 0;
    ghost var g: seq<nat> := [];
    while i < |c| && v < |es|
      invariant Scanning(es, c, y, i, v, g)
      invariant forall k :: 0 <= k < n ==> p[k].lits == old(p[k].lits)
      invariant forall k :: 0 <= k < n ==> p[k].subsumed == (old(p[k].subsumed) || Took(es, g, k))
      decreases |c| + |es| - i - v
    {
      var at := v;
      ghost var g0 := g;
      var out, took;
      out, took, i, v, g := ScanOne(es, c, y, i, v, g);
      if took {
        p[es[at].clause] := p[es[at].clause].(subsumed := true);
        forall k { TookMore(es, g0, at, k); }
      }
    }
    CoverTaken(es, c, y, i, v, g);
    forall k { UsedIsTook(es, c, y, g, k); }
  }

  // The list can only run out at y in the last position.
  lemma CoverTaken(es: seq<Pair>, c: seq<int>, y: nat, i: nat, v: nat, g: seq<nat>)
    requires y < |c| && Covered(es, c, y) && Scanning(es, c, y, i, v, g) && (i == |c| || v == |es|)
    ensures IsCover(es, Rest(c, y), g)
  {
    if |g| < |c| - 1 {
      var h :| IsCover(es, Rest(c, y), h);
      CoverNext(es, Rest(c, y), g, h, v);
    }
  }

  // ----- the function that replaces them -----

  // All literals other than v are false / one of them is true.
  function AndRest(c: seq<int>, v: int): Bdd
    requires forall k :: 0 <= k < |c| ==> c[k] != 0
  {
    if c == [] then True
    else if Last(c) != v then And(AndRest(Front(c), v), Var(-Last(c))) else AndRest(Front(c), v)
  }

  function OrRest(c: seq<int>, v: int): Bdd
    requires forall k :: 0 <= k < |c| ==> c[k] != 0
  {
    if c == [] then False
    else if Last(c) != v then Or(OrRest(Front(c), v), Var(Last(c))) else OrRest(Front(c), v)
  }

  ghost predicate OtherTrue(c: seq<int>, v: int, a: Assignment) {
    exists k :: 0 <= k < |c| && c[k] != v && LitTrue(c[k], a)
  }

  lemma {:induction false} RestValue(c: seq<int>, v: int, a: Assignment)
    requires forall k :: 0 <= k < |c| ==> c[k] != 0
    ensures Eval(AndRest(c, v), a) == !OtherTrue(c, v, a)
    ensures Eval(OrRest(c, v), a) == OtherTrue(c, v, a)
  {
    if c != [] {
      RestValue(Front(c), v, a);
      OperatorsEval(AndRest(Front(c), v), Var(-Last(c)), a);
      OperatorsEval(OrRest(Front(c), v), Var(Last(c)), a);
      assert OtherTrue(c, v, a) == (OtherTrue(Front(c), v, a) || (Last(c) != v && LitTrue(Last(c), a))) by {
        if OtherTrue(Front(c), v, a) {
          var k :| 0 <= k < |Front(c)| && Front(c)[k] != v && LitTrue(Front(c)[k], a);
          assert c[k] == Front(c)[k];
        }
        if OtherTrue(c, v, a) {
          var k :| 0 <= k < |c| && c[k] != v && LitTrue(c[k], a);
          assert k < |c| - 1 ==> c[k] == Front(c)[k];
        }
      }
    }
  }

  function AndFunction(c: seq<int>, y: nat): Function
    requires Ordered(c) && y < |c|
  {
    var v := c[y];
    if v > 0 then Function(Equ(Var(v), AndRest(c, v)), AND_EQU, v)
    else Function(Equ(Var(-v), OrRest(c, v)), OR_EQU, -v)
  }

  lemma AndValue(c: seq<int>, v: int, a: Assignment)
    requires v > 0 && forall k :: 0 <= k < |c| ==> c[k] != 0
    ensures Eval(Equ(Var(v), AndRest(c, v)), a) <==> (LitTrue(v, a) <==> !OtherTrue(c, v, a))
  {
    RestValue(c, v, a);
    OperatorsEval(Var(v), AndRest(c, v), a);
  }

  lemma OrValueOf(c: seq<int>, v: int, a: Assignment)
    requires v < 0 && forall k :: 0 <= k < |c| ==> c[k] != 0
    ensures Eval(Equ(Var(-v), OrRest(c, v)), a) <==> (LitTrue(v, a) <==> !OtherTrue(c, v, a))
  {
    RestValue(c, v, a);
    OperatorsEval(Var(-v), OrRest(c, v), a);
  }

  lemma AndFunctionValue(c: seq<int>, y: nat, a: Assignment)
    requires Ordered(c) && y < |c|
    ensures Eval(AndFunction(c, y).bdd, a) <==> (LitTrue(c[y], a) <==> !OtherTrue(c, c[y], a))
  {
    if c[y] > 0 {
      AndValue(c, c[y], a);
    } else {
      OrValueOf(c, c[y], a);
    }
  }

  // ----- what a match means -----

  ghost predicate Match(cs: seq<seq<int>>, x: int, y: int) {
    && 0 <= x < |cs| && |cs[x]| > 2 && 0 <= y < |cs[x]|
    && Covered(Others(cs, -cs[x][y], |cs|), cs[x], y)
  }

  // Clause k goes when the match at (x, y) is built.
  ghost predicate Uses(cs: seq<seq<int>>, x: int, y: int, k: int)
    requires Match(cs, x, y)
  {
    k == x || UsedEntry(Others(cs, -cs[x][y], |cs|), cs[x], y, k)
  }

  ghost predicate UsedHold(cs: seq<seq<int>>, x: int, y: int, a: Assignment)
    requires Match(cs, x, y)
  {
    forall k :: 0 <= k < |cs| && Uses(cs, x, y, k) ==> ClauseTrue(cs[k], a)
  }

  lemma PairTrue(c: seq<int>, l: int, m: int, a: Assignment)
    requires l != 0 && m != 0 && (c == [-l, -m] || c == [-m, -l])
    ensures ClauseTrue(c, a) <==> !(LitTrue(l, a) && LitTrue(m, a))
  {
    assert LitTrue(-l, a) == !LitTrue(l, a) && LitTrue(-m, a) == !LitTrue(m, a);
    if !LitTrue(l, a) {
      assert LitTrue(c[if c == [-l, -m] then 0 else 1], a);
    }
    if !LitTrue(m, a) {
      assert LitTrue(c[if c == [-l, -m] then 1 else 0], a);
    }
  }

  // The m-th other literal and the clause its entry comes from.
  lemma EntryClause(cs: seq<seq<int>>, lit: int, d: seq<int>, g: seq<nat>, m: nat)
    requires IsCover(Others(cs, lit, |cs|), d, g) && m < |g|
    ensures g[m] < |Others(cs, lit, |cs|)|
    ensures var k := Others(cs, lit, |cs|)[g[m]].clause; k < |cs| && (cs[k] == [lit, -d[m]] || cs[k] == [-d[m], lit])
  {
    var es := Others(cs, lit, |cs|);
    assert CancelsAt(es, d, g, m);
    OthersMeaning(cs, lit, |cs|, g[m]);
  }

  // The literal of the clause that the m-th other one is.
  lemma RestAt(c: seq<int>, y: nat, m: nat)
    requires y < |c| && m < |c| - 1
    ensures Rest(c, y)[m] == c[if m < y then m else m + 1]
  {
  }

  // Any other literal of the clause has its two-literal clause among the used ones.
  lemma OtherUsed(cs: seq<seq<int>>, x: nat, y: nat, j: nat, a: Assignment) returns (k: nat)
    requires Input(cs) && Match(cs, x, y) && j < |cs[x]| && j != y
    ensures k < |cs| && Uses(cs, x, y, k)
    ensures cs[k] == [-cs[x][y], -cs[x][j]] || cs[k] == [-cs[x][j], -cs[x][y]]
    ensures ClauseTrue(cs[k], a) <==> !(LitTrue(cs[x][y], a) && LitTrue(cs[x][j], a))
  {
    k := OtherEntry(cs, x, y, j);
    LitsApart(cs, x, y, j);
    PairTrue(cs[k], cs[x][y], cs[x][j], a);
  }

  lemma LitsApart(cs: seq<seq<int>>, x: nat, y: nat, j: nat)
    requires Input(cs) && x < |cs| && y < |cs[x]| && j < |cs[x]|
    ensures cs[x][y] != 0 && cs[x][j] != 0
  {
  }

  lemma OtherEntry(cs: seq<seq<int>>, x: nat, y: nat, j: nat) returns (k: nat)
    requires Match(cs, x, y) && j < |cs[x]| && j != y
    ensures k < |cs| && Uses(cs, x, y, k)
    ensures cs[k] == [-cs[x][y], -cs[x][j]] || cs[k] == [-cs[x][j], -cs[x][y]]
  {
    var es, d := Others(cs, -cs[x][y], |cs|), Rest(cs[x], y);
    var g :| IsCover(es, d, g);
    var m := if j < y then j else j - 1;
    RestAt(cs[x], y, m);
    EntryClause(cs, -cs[x][y], d, g, m);
    k := es[g[m]].clause;
    assert TookAt(es, g, k, m);
  }

  // Every used clause but x says that the literal at y excludes another one.
  lemma UsedExcludes(cs: seq<seq<int>>, x: nat, y: nat, k: nat, a: Assignment) returns (j: nat)
    requires Input(cs) && Match(cs, x, y) && k < |cs| && Uses(cs, x, y, k) && k != x
    ensures j < |cs[x]| && j != y
    ensures ClauseTrue(cs[k], a) <==> !(LitTrue(cs[x][y], a) && LitTrue(cs[x][j], a))
  {
    var es, d := Others(cs, -cs[x][y], |cs|), Rest(cs[x], y);
    var g :| IsCover(es, d, g) && Took(es, g, k);
    var m :| TookAt(es, g, k, m);
    EntryClause(cs, -cs[x][y], d, g, m);
    RestAt(cs[x], y, m);
    j := if m < y then m else m + 1;
    PairTrue(cs[k], cs[x][y], cs[x][j], a);
  }

  ghost predicate AnotherTrue(c: seq<int>, y: nat, a: Assignment) {
    exists j :: 0 <= j < |c| && j != y && LitTrue(c[j], a)
  }

  // The clause and its cover say that exactly one holds, the literal at y or any of the others.
  lemma UsedMeaning(cs: seq<seq<int>>, x: nat, y: nat, a: Assignment)
    requires Input(cs) && Match(cs, x, y)
    ensures UsedHold(cs, x, y, a) <==> (LitTrue(cs[x][y], a) <==> !AnotherTrue(cs[x], y, a))
  {
    var c := cs[x];
    if UsedHold(cs, x, y, a) {
      assert Uses(cs, x, y, x);
      if AnotherTrue(c, y, a) {
        var j :| 0 <= j < |c| && j != y && LitTrue(c[j], a);
        var k := OtherUsed(cs, x, y, j, a);
        assert ClauseTrue(cs[k], a);
      }
    }
    if LitTrue(c[y], a) <==> !AnotherTrue(c, y, a) {
      forall k | 0 <= k < |cs| && Uses(cs, x, y, k) ensures ClauseTrue(cs[k], a) {
        if k != x {
          var j := UsedExcludes(cs, x, y, k, a);
        } else if LitTrue(c[y], a) {
          assert ClauseTrue(c, a);
        }
      }
    }
  }

  // The literal at y occurs once more.
  predicate RepeatedAt(c: seq<int>, y: nat)
    requires y < |c|
  {
    exists j :: 0 <= j < |c| && j != y && c[j] == c[y]
  }

  // Both signs of a variable other than the one at y.
  predicate BothSigns(c: seq<int>, y: nat)
    requires y < |c|
  {
    exists i, j :: 0 <= i < |c| && 0 <= j < |c| && c[i] == -c[j] && Abs(c[i]) != Abs(c[y])
  }

  // When the function says what the used clauses say; the clause alone decides it.
  predicate Faithful(c: seq<int>, y: nat)
    requires y < |c|
  {
    !RepeatedAt(c, y) || BothSigns(c, y)
  }

  // The literal at y true, every other one false that can be.
  ghost function Against(c: seq<int>, y: nat): Assignment
    requires y < |c|
  {
    iset n: nat | MadeTrue(c, y, n)
  }

  ghost predicate MadeTrue(c: seq<int>, y: nat, n: nat)
    requires y < |c|
  {
    n == c[y] || (n != Abs(c[y]) && -(n as int) in c)
  }

  lemma AgainstShows(c: seq<int>, y: nat)
    requires Ordered(c) && y < |c| && !BothSigns(c, y)
    ensures LitTrue(c[y], Against(c, y)) && !OtherTrue(c, c[y], Against(c, y))
  {
    var a := Against(c, y);
    forall j | 0 <= j < |c| && c[j] != c[y] ensures !LitTrue(c[j], a) {
      assert Abs(c[j]) in a <==> MadeTrue(c, y, Abs(c[j]));
      if c[j] > 0 && -c[j] in c {
        var i :| 0 <= i < |c| && c[i] == -c[j];
        assert Abs(c[i]) == Abs(c[y]);
      }
    }
    assert Abs(c[y]) in a <==> MadeTrue(c, y, Abs(c[y]));
  }

  lemma FaithfulValue(c: seq<int>, y: nat, a: Assignment)
    requires Ordered(c) && y < |c| && Faithful(c, y)
    ensures (LitTrue(c[y], a) <==> !OtherTrue(c, c[y], a)) <==> (LitTrue(c[y], a) <==> !AnotherTrue(c, y, a))
  {
    if RepeatedAt(c, y) {
      var i, j :| 0 <= i < |c| && 0 <= j < |c| && c[i] == -c[j] && Abs(c[i]) != Abs(c[y]);
      assert LitTrue(c[i], a) || LitTrue(c[j], a);
      assert OtherTrue(c, c[y], a) && AnotherTrue(c, y, a);
    } else {
      if OtherTrue(c, c[y], a) {
        var k :| 0 <= k < |c| && c[k] != c[y] && LitTrue(c[k], a);
        assert k != y;
      }
      if AnotherTrue(c, y, a) {
        var j :| 0 <= j < |c| && j != y && LitTrue(c[j], a);
        assert c[j] != c[y];
      }
    }
  }

  // Faithful or not, the function follows from the used clauses.
  lemma MatchImplies(cs: seq<seq<int>>, x: nat, y: nat, a: Assignment)
    requires Input(cs) && Match(cs, x, y) && UsedHold(cs, x, y, a)
    ensures Eval(AndFunction(cs[x], y).bdd, a)
  {
    AndFunctionValue(cs[x], y, a);
    UsedMeaning(cs, x, y, a);
    OthersDecide(cs[x], y, a);
  }

  lemma OthersDecide(c: seq<int>, y: nat, a: Assignment)
    requires y < |c| && (LitTrue(c[y], a) <==> !AnotherTrue(c, y, a))
    ensures LitTrue(c[y], a) <==> !OtherTrue(c, c[y], a)
  {
    if OtherTrue(c, c[y], a) {
      var k :| 0 <= k < |c| && c[k] != c[y] && LitTrue(c[k], a);
      assert k != y;
    }
    if AnotherTrue(c, y, a) {
      var j :| 0 <= j < |c| && j != y && LitTrue(c[j], a);
      assert c[j] != c[y];
    }
  }

  lemma FaithfulMatch(cs: seq<seq<int>>, x: nat, y: nat, a: Assignment)
    requires Input(cs) && Match(cs, x, y) && Faithful(cs[x], y)
    ensures Eval(AndFunction(cs[x], y).bdd, a) <==> UsedHold(cs, x, y, a)
  {
    AndFunctionValue(cs[x], y, a);
    UsedMeaning(cs, x, y, a);
    FaithfulValue(cs[x], y, a);
  }

  // The function built says what the used clauses say if and only if the literal at y
  // occurs only there, or the clause has both signs of another variable anyway.
  lemma MatchIsFunction(cs: seq<seq<int>>, x: nat, y: nat)
    requires Input(cs) && Match(cs, x, y)
    ensures (forall a: Assignment :: Eval(AndFunction(cs[x], y).bdd, a) <==> UsedHold(cs, x, y, a)) <==> Faithful(cs[x], y)
  {
    if Faithful(cs[x], y) {
      forall a: Assignment ensures Eval(AndFunction(cs[x], y).bdd, a) <==> UsedHold(cs, x, y, a) {
        FaithfulMatch(cs, x, y, a);
      }
    } else {
      var a := Against(cs[x], y);
      AgainstShows(cs[x], y);
      AndFunctionValue(cs[x], y, a);
      UsedMeaning(cs, x, y, a);
      var j :| 0 <= j < |cs[x]| && j != y && cs[x][j] == cs[x][y];
      assert AnotherTrue(cs[x], y, a);
      assert Eval(AndFunction(cs[x], y).bdd, a) && !UsedHold(cs, x, y, a);
    }
  }

  // ----- the search -----

  method BuildAnd(c: seq<int>, v: int) returns (bdd: Bdd)
    requires forall k :: 0 <= k < |c| ==> c[k] != 0
    ensures bdd == AndRest(c, v)
  {
    bdd := True;
    for z := 0 to |c|
      invariant bdd == AndRest(c[..z], v)
    {
      assert Front(c[..z + 1]) == c[..z];
      if c[z] != v {
        bdd := And(bdd, Var(-c[z]));
      }
    }
    assert c[..|c|] == c;
  }

  method BuildOr(c: seq<int>, v: int) returns (bdd: Bdd)
    requires forall k :: 0 <= k < |c| ==> c[k] != 0
    ensures bdd == OrRest(c, v)
  {
    bdd := False;
    for z := 0 to |c|
      invariant bdd == OrRest(c[..z], v)
    {
      assert Front(c[..z + 1]) == c[..z];
      if c[z] != v {
        bdd := Or(bdd, Var(c[z]));
      }
    }
    assert c[..|c|] == c;
  }

  method BuildAndFunction(c: seq<int>, y: nat) returns (f: Function)
    requires Ordered(c) && y < |c|
    ensures f == AndFunction(c, y)
  {
    var v := c[y];
    if v > 0 {
      var bdd := BuildAnd(c, v);
      f := Function(Equ(Var(v), bdd), AND_EQU, v);
    } else {
      var bdd := BuildOr(c, v);
      f := Function(Equ(Var(-v), bdd), OR_EQU, -v);
    }
  }

  datatype Site = Site(x: nat, y: nat)

  ghost predicate Earlier(m: Site, x: int, y: int) {
    m.x < x || (m.x == x && m.y < y)
  }

  ghost predicate Found(cs: seq<seq<int>>, sites: seq<Site>, x: int, y: int) {
    && (forall i, j :: 0 <= i < j < |sites| ==> Earlier(sites[i], sites[j].x, sites[j].y))
    && forall m :: m in sites <==> Earlier(m, x, y) && Match(cs, m.x, m.y)
  }

  predicate SiteOk(cs: seq<seq<int>>, m: Site) {
    m.x < |cs| && Ordered(cs[m.x]) && m.y < |cs[m.x]|
  }

  predicate SitesOk(cs: seq<seq<int>>, sites: seq<Site>) {
    forall i :: 0 <= i < |sites| ==> SiteOk(cs, sites[i])
  }

  function AndFunctions(cs: seq<seq<int>>, sites: seq<Site>): seq<Function>
    requires SitesOk(cs, sites)
  {
    seq(|sites|, (i: nat) requires i < |sites| && SiteOk(cs, sites[i]) => AndFunction(cs[sites[i].x], sites[i].y))
  }

  ghost predicate MarkedSites(cs: seq<seq<int>>, sites: seq<Site>, was: seq<Clause>, now: seq<Clause>) {
    && |was| == |now| == |cs|
    && forall k :: 0 <= k < |cs| ==>
         && now[k].lits == cs[k]
         && now[k].subsumed ==
            (was[k].subsumed || exists m :: m in sites && Match(cs, m.x, m.y) && Uses(cs, m.x, m.y, k))
  }

  lemma SitesInRange(cs: seq<seq<int>>, sites: seq<Site>, x: int, y: int)
    requires Input(cs) && Found(cs, sites, x, y)
    ensures SitesOk(cs, sites)
  {
    forall i | 0 <= i < |sites| ensures SiteOk(cs, sites[i]) {
      assert sites[i] in sites;
    }
  }

  lemma FoundStep(cs: seq<seq<int>>, sites: seq<Site>, x: nat, y: nat)
    requires Found(cs, sites, x, y)
    ensures Found(cs, if Match(cs, x, y) then sites + [Site(x, y)] else sites, x, y + 1)
  {
    forall i | 0 <= i < |sites| ensures Earlier(sites[i], x, y) {
      assert sites[i] in sites;
    }
    forall m | Earlier(m, x, y + 1) && !Earlier(m, x, y) ensures m == Site(x, y) {
    }
  }

  lemma FoundRowEnd(cs: seq<seq<int>>, sites: seq<Site>, x: nat, y: nat)
    requires x < |cs| && Found(cs, sites, x, y) && (y == |cs[x]| || |cs[x]| <= 2)
    ensures Found(cs, sites, x + 1, 0)
  {
    forall m: Site | Match(cs, m.x, m.y) && Earlier(m, x + 1, 0) ensures Earlier(m, x, y) {
    }
  }

  // The scan of one site.
  method TryMatch(cs: seq<seq<int>>, pos: array<seq<Pair>>, neg: array<seq<Pair>>, vars: nat, x: nat, y: nat)
    returns (ok: bool, es: seq<Pair>)
    requires Input(cs) && InRange(cs, vars) && Listed(cs, pos[..], neg[..], vars, |cs|)
    requires x < |cs| && |cs[x]| > 2 && y < |cs[x]|
    ensures es == Others(cs, -cs[x][y], |cs|)
    ensures ok <==> Match(cs, x, y)
  {
    var v := cs[x][y];
    assert Literal(-v, vars) && ListedAt(cs, pos[..], neg[..], -v, |cs|);
    es := if v > 0 then neg[v] else pos[-v];
    assert es == ListOf(pos[..], neg[..], -v);
    if 2 * |es| < |cs[x]| - 1 {
      if Covered(es, cs[x], y) {
        CoverNeedsEntries(es, cs[x], y);
      }
      return false, es;
    }
    ok := TestCover(es, cs[x], y);
  }

  lemma SiteMarked(cs: seq<seq<int>>, sites: seq<Site>, m: Site, was: seq<Clause>, now: seq<Clause>, now': seq<Clause>)
    requires MarkedSites(cs, sites, was, now) && Match(cs, m.x, m.y) && |now'| == |now|
    requires forall k :: 0 <= k < |now| ==> now'[k].lits == now[k].lits
    requires forall k :: 0 <= k < |now| ==> now'[k].subsumed == (now[k].subsumed || Uses(cs, m.x, m.y, k))
    ensures MarkedSites(cs, sites + [m], was, now')
  {
    forall k | 0 <= k < |cs|
      ensures (exists s :: s in sites + [m] && Match(cs, s.x, s.y) && Uses(cs, s.x, s.y, k)) <==>
              (exists s :: s in sites && Match(cs, s.x, s.y) && Uses(cs, s.x, s.y, k)) || Uses(cs, m.x, m.y, k)
    {
      assert m in sites + [m];
      assert forall s :: s in sites ==> s in sites + [m];
    }
  }

  method TakeMatch(p: array<Clause>, cs: seq<seq<int>>, es: seq<Pair>, x: nat, y: nat,
                   ghost sites: seq<Site>, ghost was: seq<Clause>)
    requires |cs| <= p.Length && Input(cs) && Match(cs, x, y) && es == Others(cs, -cs[x][y], |cs|)
    requires MarkedSites(cs, sites, was, p[..|cs|])
    modifies p
    ensures MarkedSites(cs, sites + [Site(x, y)], was, p[..|cs|])
  {
    ghost var now := p[..|cs|];
    p[x] := p[x].(subsumed := true);
    AllEntriesRight(cs, -cs[x][y], |cs|);
    assert forall q :: 0 <= q < |es| ==> EntryRight(cs, -cs[x][y], |cs|, es[q]);
    MarkCover(p, |cs|, es, cs[x], y);
    SiteMarked(cs, sites, Site(x, y), was, now, p[..|cs|]);
  }

  // The matches before (x, y) are built and their clauses marked.
  ghost predicate State(cs: seq<seq<int>>, was: seq<Clause>, fs: seq<Function>,
                        sites: seq<Site>, now: seq<Clause>, fs': seq<Function>, x: int, y: int) {
    && Found(cs, sites, x, y) && MarkedSites(cs, sites, was, now)
    && SitesOk(cs, sites) && fs' == fs + AndFunctions(cs, sites)
  }

  method SearchSite(p: array<Clause>, cs: seq<seq<int>>, fs: seq<Function>, fs0: seq<Function>,
                    pos: array<seq<Pair>>, neg: array<seq<Pair>>, vars: nat, x: nat, y: nat,
                    ghost sites: seq<Site>, ghost was: seq<Clause>)
    returns (fs': seq<Function>, ghost sites': seq<Site>)
    requires |cs| <= p.Length && Input(cs) && InRange(cs, vars) && Listed(cs, pos[..], neg[..], vars, |cs|)
    requires x < |cs| && |cs[x]| > 2 && y < |cs[x]|
    requires State(cs, was, fs, sites, p[..|cs|], fs0, x, y)
    modifies p
    ensures State(cs, was, fs, sites', p[..|cs|], fs', x, y + 1)
  {
    var ok, es := TryMatch(cs, pos, neg, vars, x, y);
    FoundStep(cs, sites, x, y);
    fs', sites' := fs0, sites;
    if ok {
      TakeMatch(p, cs, es, x, y, sites, was);
      var f := BuildAndFunction(cs[x], y);
      fs' := fs0 + [f];
      sites' := sites + [Site(x, y)];
      SitesInRange(cs, sites', x, y + 1);
      OneMoreFunction(cs, fs, sites, Site(x, y), fs0);
    }
  }

  lemma OneMoreFunction(cs: seq<seq<int>>, fs: seq<Function>, sites: seq<Site>, m: Site, fs': seq<Function>)
    requires SitesOk(cs, sites + [m]) && SitesOk(cs, sites) && SiteOk(cs, m) && fs' == fs + AndFunctions(cs, sites)
    ensures fs' + [AndFunction(cs[m.x], m.y)] == fs + AndFunctions(cs, sites + [m])
  {
    var more := sites + [m];
    assert more[|sites|] == m && forall i :: 0 <= i < |sites| ==> more[i] == sites[i];
    assert AndFunctions(cs, more) == AndFunctions(cs, sites) + [AndFunction(cs[m.x], m.y)];
  }

  // One function per match, in order; exactly the clauses of matches are marked.
  method FindAndBuildAndEquals(p: array<Clause>, n: nat, fs: seq<Function>, vars: nat)
    returns (fs': seq<Function>, ghost sites: seq<Site>)
    requires n <= p.Length && Input(Lits(p[..n])) && InRange(Lits(p[..n]), vars)
    modifies p
    ensures State(old(Lits(p[..n])), old(p[..n]), fs, sites, p[..n], fs', n, 0)
  {
    ghost var was := p[..n];
    var cs := Lits(p[..n]);
    var pos, neg := BuildTwoLists(cs, vars);
    fs', sites := fs, [];
    for x := 0 to n
      invariant Listed(cs, pos[..], neg[..], vars, |cs|)
      invariant State(cs, was, fs, sites, p[..n], fs', x, 0)
    {
      if |cs[x]| > 2 {
        for y := 0 to |cs[x]|
          invariant Listed(cs, pos[..], neg[..], vars, |cs|)
          invariant State(cs, was, fs, sites, p[..n], fs', x, y)
        {
          fs', sites := SearchSite(p, cs, fs, fs', pos, neg, vars, x, y, sites, was);
        }
      }
      FoundRowEnd(cs, sites, x, if |cs[x]| > 2 then |cs[x]| else 0);
    }
  }

  lemma AndFunctionsAt(cs: seq<seq<int>>, sites: seq<Site>, i: nat)
    requires SitesOk(cs, sites) && i < |sites|
    ensures |AndFunctions(cs, sites)| == |sites|
    ensures SiteOk(cs, sites[i]) && AndFunctions(cs, sites)[i] == AndFunction(cs[sites[i].x], sites[i].y)
  {
  }

  // No match is at a repeated literal.
  ghost predicate AllFaithful(cs: seq<seq<int>>) {
    forall x, y :: Match(cs, x, y) ==> Faithful(cs[x], y)
  }

  // A repeated literal needs a two-literal clause that repeats its opposite: without
  // such a pair of clauses every match is right.
  predicate NoDoubles(cs: seq<seq<int>>) {
    forall k, x :: 0 <= k < |cs| && 0 <= x < |cs| ==> !Doubles(cs[k], cs[x])
  }

  predicate Doubles(c: seq<int>, d: seq<int>) {
    |c| == 2 && c[0] == c[1] && |d| > 2 && multiset(d)[-c[0]] >= 2
  }

  lemma TwiceIn(c: seq<int>, i: nat, j: nat)
    requires i < j < |c| && c[i] == c[j]
    ensures multiset(c)[c[i]] >= 2
  {
    assert c == c[..i] + [c[i]] + c[i + 1..j] + [c[j]] + c[j + 1..];
  }

  lemma RepeatedDoubles(cs: seq<seq<int>>, x: nat, y: nat) returns (k: nat)
    requires Input(cs) && Match(cs, x, y) && RepeatedAt(cs[x], y)
    ensures k < |cs| && Doubles(cs[k], cs[x])
  {
    var j :| 0 <= j < |cs[x]| && j != y && cs[x][j] == cs[x][y];
    TwiceIn(cs[x], if j < y then j else y, if j < y then y else j);
    k := OtherUsed(cs, x, y, j, iset{});
  }

  lemma NoDoublesFaithful(cs: seq<seq<int>>)
    requires Input(cs) && NoDoubles(cs)
    ensures AllFaithful(cs)
  {
    forall x, y | Match(cs, x, y) ensures Faithful(cs[x], y) {
      if RepeatedAt(cs[x], y) {
        var k := RepeatedDoubles(cs, x, y);
      }
    }
  }

  lemma SiteValue(cs: seq<seq<int>>, sites: seq<Site>, i: nat, a: Assignment)
    requires Input(cs) && AllFaithful(cs) && Found(cs, sites, |cs|, 0) && SitesOk(cs, sites) && i < |sites|
    ensures |AndFunctions(cs, sites)| == |sites| && Match(cs, sites[i].x, sites[i].y)
    ensures Eval(AndFunctions(cs, sites)[i].bdd, a) <==> UsedHold(cs, sites[i].x, sites[i].y, a)
  {
    assert sites[i] in sites;
    AndFunctionsAt(cs, sites, i);
    FaithfulMatch(cs, sites[i].x, sites[i].y, a);
  }

  // The search keeps the meaning.
  lemma AndEqualsSound(fs: seq<Function>, was: seq<Clause>, sites: seq<Site>, now: seq<Clause>, fs': seq<Function>)
    requires Input(Lits(was)) && AllFaithful(Lits(was)) && Droppable(fs, was)
    requires State(Lits(was), was, fs, sites, now, fs', |was|, 0)
    ensures Searched(fs, was, fs', now)
  {
    var cs := Lits(was);
    var more := AndFunctions(cs, sites);
    assert Lits(now) == cs;
    forall k, a: Assignment | 0 <= k < |now| && now[k].subsumed && !was[k].subsumed && Holds(more, a)
      ensures ClauseTrue(was[k].lits, a)
    {
      var m :| m in sites && Match(cs, m.x, m.y) && Uses(cs, m.x, m.y, k);
      var i :| 0 <= i < |sites| && sites[i] == m;
      SiteValue(cs, sites, i, a);
      assert ClauseTrue(cs[k], a);
    }
    forall a: Assignment | AllTrue(cs, a) ensures Holds(more, a) {
      if sites != [] {
        AndFunctionsAt(cs, sites, 0);
      }
      forall i | 0 <= i < |more| ensures Eval(more[i].bdd, a) {
        SiteValue(cs, sites, i, a);
      }
    }
    SearchSound(fs, was, more, now);
  }

  // Without the condition no model is lost all the same.
  lemma AndEqualsLoseNone(fs: seq<Function>, was: seq<Clause>, sites: seq<Site>, now: seq<Clause>, fs': seq<Function>)
    requires Input(Lits(was)) && State(Lits(was), was, fs, sites, now, fs', |was|, 0)
    ensures LosesNone(fs, was, fs', now, false)
  {
    var cs := Lits(was);
    var more := AndFunctions(cs, sites);
    forall a: Assignment | Model(fs, was, a) ensures Model(fs', now, a) {
      HoldsAppend(fs, more, a);
      FunctionsFollow(cs, sites, a);
    }
  }

  lemma FunctionsFollow(cs: seq<seq<int>>, sites: seq<Site>, a: Assignment)
    requires Input(cs) && Found(cs, sites, |cs|, 0) && SitesOk(cs, sites) && AllTrue(cs, a)
    ensures Holds(AndFunctions(cs, sites), a)
  {
    var more := AndFunctions(cs, sites);
    if sites != [] {
      AndFunctionsAt(cs, sites, 0);
    }
    forall i | 0 <= i < |more| ensures Eval(more[i].bdd, a) {
      assert sites[i] in sites;
      AndFunctionsAt(cs, sites, i);
      MatchImplies(cs, sites[i].x, sites[i].y, a);
    }
  }

  // !1 | !1, !1 | !2 and 1 | 1 | 2.
  const REPEATS: seq<seq<int>> := [[-1, -1], [-1, -2], [1, 1, 2]]

  lemma RepeatsListed()
    ensures Others(REPEATS, -1, 3) == [Pair(-1, 0), Pair(-1, 0), Pair(-2, 1)]
  {
    assert Others(REPEATS, -1, 0) == [];
    assert Others(REPEATS, -1, 1) == [Pair(-1, 0), Pair(-1, 0)];
    assert Others(REPEATS, -1, 2) == [Pair(-1, 0), Pair(-1, 0), Pair(-2, 1)];
  }

  // The third clause is covered by the others at its first literal, and all three go.
  lemma RepeatsMatch()
    ensures Match(REPEATS, 2, 0) && forall k :: 0 <= k < 3 ==> Uses(REPEATS, 2, 0, k)
  {
    RepeatsListed();
    var es, d := Others(REPEATS, -1, 3), Rest(REPEATS[2], 0);
    var g: seq<nat> := [0, 2];
    assert d == [1, 2];
    assert CancelsAt(es, d, g, 0) && CancelsAt(es, d, g, 1);
    assert IsCover(es, d, g);
    assert TookAt(es, g, 0, 0) && TookAt(es, g, 1, 1);
  }

  // The function built for that match allows 1 without 2, which the clauses forbid.
  lemma RepeatedLiteralExample(a: Assignment)
    requires forall v :: v in a <==> v == 1
    ensures Eval(Equ(Var(1), AndRest(REPEATS[2], 1)), a) && !AllTrue(REPEATS, a)
  {
    RestValue(REPEATS[2], 1, a);
    OperatorsEval(Var(1), AndRest(REPEATS[2], 1), a);
    assert !ClauseTrue(REPEATS[0], a);
  }

  // 1 | !2, 1 | 2 and 1 | 3 exclude every other literal of !1 | !2 | !3, but the entry
  // of the other sign comes first and the scan gives up.
  const SIGNS: seq<seq<int>> := [[1, -2], [1, 2], [1, 3], [-1, -2, -3]]

  lemma BothSignsExample()
    ensures [1, 2] in SIGNS && [1, 3] in SIGNS && !Match(SIGNS, 3, 0)
  {
    assert Others(SIGNS, 1, 0) == [];
    assert Others(SIGNS, 1, 1) == [Pair(-2, 0)];
    assert Others(SIGNS, 1, 2) == [Pair(-2, 0), Pair(2, 1)];
    assert Others(SIGNS, 1, 3) == [Pair(-2, 0), Pair(2, 1), Pair(3, 2)];
    assert Others(SIGNS, 1, 4) == [Pair(-2, 0), Pair(2, 1), Pair(3, 2)];
    var es, d := Others(SIGNS, 1, 4), Rest(SIGNS[3], 0);
    assert d == [-2, -3] && SIGNS[1] == [1, 2] && SIGNS[2] == [1, 3];
    forall g: seq<nat> ensures !IsCover(es, d, g) {
      if |g| == 2 {
        assert es[0].lit == -2;
        assert !CancelsAt(es, d, g, 0);
      }
    }
  }
}
