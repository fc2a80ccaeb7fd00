// The order that clscompfunc (src/formats/cnf.cc) sorts clauses by: length,
// then variables, then literals, and the sorting done before the searches.

module ClauseOrder {

  function Abs(x: int): (r: nat) { if x < 0 then -x else x }

  function AbsAll(c: seq<int>): seq<int> {
    seq(|c|, k requires 0 <= k < |c| => Abs(c[k]))
  }

  // Literals sorted by variable, no variable twice, 0 is not a literal.
  predicate Proper(c: seq<int>) {
    && |c| > 0
    && (forall k :: 0 <= k < |c| ==> c[k] != 0)
    && forall i, j :: 0 <= i < j < |c| ==> Abs(c[i]) < Abs(c[j])
  }

  // Literals sorted by variable, as qsort leaves them; a variable may come twice.
  predicate Ordered(c: seq<int>) {
    && |c| > 0
    && (forall k :: 0 <= k < |c| ==> c[k] != 0)
    && SortedByVariable(c)
  }

  // A literal over the variables 1..vars.
  ghost predicate Literal(lit: int, vars: nat) {
    lit != 0 && Abs(lit) <= vars
  }

  ghost predicate InRange(cs: seq<seq<int>>, vars: nat) {
    forall x, k :: 0 <= x < |cs| && 0 <= k < |cs[x]| ==> Literal(cs[x][k], vars)
  }

  // ----- lexicographic comparison -----

  ghost predicate FirstDifference(s: seq<int>, t: seq<int>, k: int) {
    && 0 <= k < |s| && k < |t|
    && (forall j :: 0 <= j < k ==> s[j] == t[j])
    && s[k] < t[k]
  }

  ghost predicate LexLess(s: seq<int>, t: seq<int>) {
    exists k :: FirstDifference(s, t, k)
  }

  lemma LexTransitive(s: seq<int>, t: seq<int>, u: seq<int>)
    requires LexLess(s, t) && LexLess(t, u)
    ensures LexLess(s, u)
  {
    var k :| FirstDifference(s, t, k);
    var l :| FirstDifference(t, u, l);
    assert FirstDifference(s, u, if k < l then k else l);
  }

  lemma LexIrreflexive(s: seq<int>, t: seq<int>)
    requires LexLess(s, t)
    ensures s != t
  {
    var k :| FirstDifference(s, t, k);
  }

  // What lies between two lists with a common prefix has that prefix too.
  lemma LexBetween(s: seq<int>, m: seq<int>, t: seq<int>, n: nat)
    requires n <= |s| && n <= |m| && n <= |t|
    requires forall j :: 0 <= j < n ==> s[j] == t[j]
    requires LexLess(s, m) && LexLess(m, t)
    ensures forall j :: 0 <= j < n ==> m[j] == s[j]
  {
    var k :| FirstDifference(s, m, k);
    var l :| FirstDifference(m, t, l);
  }

  // ----- clauses -----

  function Key(c: seq<int>): seq<int> {
    [|c|] + AbsAll(c) + c
  }

  ghost predicate ClauseLess(c: seq<int>, d: seq<int>) {
    LexLess(Key(c), Key(d))
  }

  lemma KeyAt(c: seq<int>, k: nat)
    requires k < |c|
    ensures |Key(c)| == 1 + 2 * |c| && Key(c)[0] == |c|
    ensures Key(c)[1 + k] == Abs(c[k]) && Key(c)[1 + |c| + k] == c[k]
  {
  }

  lemma ClauseLessLength(c: seq<int>, d: seq<int>)
    requires ClauseLess(c, d)
    ensures |c| <= |d|
  {
    var k :| FirstDifference(Key(c), Key(d), k);
    assert Key(c)[0] == |c| && Key(d)[0] == |d|;
  }

  lemma SameVariablesBetween(c: seq<int>, m: seq<int>, d: seq<int>)
    requires |c| == |m| == |d| && AbsAll(c) == AbsAll(d)
    requires ClauseLess(c, m) && ClauseLess(m, d)
    ensures AbsAll(m) == AbsAll(c)
  {
    LexBetween(Key(c), Key(m), Key(d), 1 + |c|);
    forall k | 0 <= k < |c| ensures AbsAll(m)[k] == AbsAll(c)[k] {
      assert Key(m)[1 + k] == Key(c)[1 + k];
    }
  }

  // Over the same variables the order is the one of the literals.
  lemma SameVariablesLess(c: seq<int>, d: seq<int>)
    requires AbsAll(c) == AbsAll(d) && ClauseLess(c, d)
    ensures LexLess(c, d)
  {
    assert |AbsAll(c)| == |AbsAll(d)|;
    var n := 1 + |c|;
    var k :| FirstDifference(Key(c), Key(d), k);
    assert forall j :: 0 <= j < n ==> Key(c)[j] == ([|c|] + AbsAll(c))[j] && Key(d)[j] == ([|d|] + AbsAll(d))[j];
    assert forall j :: 0 <= j < |c| ==> Key(c)[n + j] == c[j] && Key(d)[n + j] == d[j];
    assert FirstDifference(c, d, k - n);
  }

  lemma ShorterLess(c: seq<int>, d: seq<int>)
    requires |c| < |d|
    ensures ClauseLess(c, d)
  {
    assert FirstDifference(Key(c), Key(d), 0);
  }

  lemma VariableLess(c: seq<int>, d: seq<int>, i: nat)
    requires |c| == |d| && i < |c| && Abs(c[i]) < Abs(d[i])
    requires forall j :: 0 <= j < i ==> Abs(c[j]) == Abs(d[j])
    ensures ClauseLess(c, d)
  {
    forall j | 0 <= j < 1 + i ensures Key(c)[j] == Key(d)[j] {
      if j > 0 {
        KeyAt(c, j - 1);
        KeyAt(d, j - 1);
      }
    }
    KeyAt(c, i);
    KeyAt(d, i);
    assert FirstDifference(Key(c), Key(d), 1 + i);
  }

  lemma LiteralLess(c: seq<int>, d: seq<int>, i: nat)
    requires |c| == |d| && i < |c| && c[i] < d[i] && AbsAll(c) == AbsAll(d)
    requires forall j :: 0 <= j < i ==> c[j] == d[j]
    ensures ClauseLess(c, d)
  {
    var n := 1 + |c|;
    forall j | 0 <= j < n + i ensures Key(c)[j] == Key(d)[j] {
      if j >= n {
        KeyAt(c, j - n);
        KeyAt(d, j - n);
      } else if j > 0 {
        KeyAt(c, j - 1);
        KeyAt(d, j - 1);
        assert AbsAll(c)[j - 1] == AbsAll(d)[j - 1];
      }
    }
    KeyAt(c, i);
    KeyAt(d, i);
    assert FirstDifference(Key(c), Key(d), n + i);
  }

  // clscompfunc itself.
  method Compare(pp: seq<int>, qq: seq<int>) returns (r: int)
    ensures r == -1 || r == 0 || r == 1
    ensures r == -1 ==> ClauseLess(pp, qq)
    ensures r == 1 ==> ClauseLess(qq, pp)
    ensures r == 0 <==> pp == qq
  {
    if |pp| < |qq| {
      ShorterLess(pp, qq);
      return -1;
    }
    if |pp| > |qq| {
      ShorterLess(qq, pp);
      return 1;
    }
    for i := 0 to |pp|
      invariant forall j :: 0 <= j < i ==> Abs(pp[j]) == Abs(qq[j])
    {
      if Abs(pp[i]) < Abs(qq[i]) {
        VariableLess(pp, qq, i);
        return -1;
      }
      if Abs(pp[i]) > Abs(qq[i]) {
        VariableLess(qq, pp, i);
        return 1;
      }
    }
    assert AbsAll(pp) == AbsAll(qq);
    for i := 0 to |pp|
      invariant forall j :: 0 <= j < i ==> pp[j] == qq[j]
    {
      if pp[i] < qq[i] {
        LiteralLess(pp, qq, i);
        return -1;
      }
      if pp[i] > qq[i] {
        LiteralLess(qq, pp, i);
        return 1;
      }
    }
    r := 0;
  }

  // ----- sorting (qsort in the original) -----

  ghost predicate SortedClauses(cs: seq<seq<int>>) {
    forall i, j :: 0 <= i < j < |cs| ==> cs[i] == cs[j] || ClauseLess(cs[i], cs[j])
  }

  ghost predicate StrictClauses(cs: seq<seq<int>>) {
    forall i, j {:trigger ClauseLess(cs[i], cs[j])} :: 0 <= i < j < |cs| ==> ClauseLess(cs[i], cs[j])
  }

  lemma InsertedMultiset<T>(s: seq<T>, k: nat, x: T)
    requires k <= |s|
    ensures multiset(s[..k] + [x] + s[k..]) == multiset(s) + multiset{x}
  {
    assert s == s[..k] + s[k..];
  }

  lemma InsertedSorted(cs: seq<seq<int>>, k: nat, c: seq<int>)
    requires SortedClauses(cs) && k <= |cs|
    requires forall i :: 0 <= i < k ==> cs[i] == c || ClauseLess(cs[i], c)
    requires k < |cs| ==> ClauseLess(c, cs[k])
    ensures SortedClauses(cs[..k] + [c] + cs[k..])
  {
    forall i | k <= i < |cs| ensures ClauseLess(c, cs[i]) {
      if i > k && cs[k] != cs[i] {
        LexTransitive(Key(c), Key(cs[k]), Key(cs[i]));
      }
    }
  }

  method InsertClause(cs: seq<seq<int>>, c: seq<int>) returns (r: seq<seq<int>>)
    requires SortedClauses(cs)
    ensures SortedClauses(r) && multiset(r) == multiset(cs) + multiset{c}
  {
    var k := 0;
    while k < |cs|
      invariant 0 <= k <= |cs|
      invariant forall i :: 0 <= i < k ==> cs[i] == c || ClauseLess(cs[i], c)
    {
      var cmp := Compare(c, cs[k]);
      if cmp == -1 {
        break;
      }
      k := k + 1;
    }
    InsertedSorted(cs, k, c);
    InsertedMultiset(cs, k, c);
    r := cs[..k] + [c] + cs[k..];
  }

  method SortClauses(cs: seq<seq<int>>) returns (r: seq<seq<int>>)
    ensures SortedClauses(r) && multiset(r) == multiset(cs)
  {
    r := [];
    for x := 0 to |cs|
      invariant SortedClauses(r) && multiset(r) == multiset(cs[..x])
    {
      r := InsertClause(r, cs[x]);
      assert cs[..x + 1] == cs[..x] + [cs[x]];
    }
    assert cs[..|cs|] == cs;
  }

  predicate SortedByVariable(c: seq<int>) {
    forall i, j :: 0 <= i < j < |c| ==> Abs(c[i]) <= Abs(c[j])
  }

  method InsertLiteral(c: seq<int>, lit: int) returns (r: seq<int>)
    requires SortedByVariable(c)
    ensures SortedByVariable(r) && multiset(r) == multiset(c) + multiset{lit}
  {
    var k := 0;
    while k < |c| && Abs(c[k]) <= Abs(lit)
      invariant 0 <= k <= |c|
      invariant forall i :: 0 <= i < k ==> Abs(c[i]) <= Abs(lit)
    {
      k := k + 1;
    }
    InsertedMultiset(c, k, lit);
    r := c[..k] + [lit] + c[k..];
  }

  method SortLiterals(c: seq<int>) returns (r: seq<int>)
    ensures SortedByVariable(r) && multiset(r) == multiset(c)
  {
    r := [];
    for x := 0 to |c|
      invariant SortedByVariable(r) && multiset(r) == multiset(c[..x])
    {
      r := InsertLiteral(r, c[x]);
      assert c[..x + 1] == c[..x] + [c[x]];
    }
    assert c[..|c|] == c;
  }
}
