// find_and_build_xors (src/formats/cnf.cc): a run of 2^(L-1) distinct clauses
// over the same L variables with the same product of signs is one XOR.

module XorSearch {
  import opened Arithmetic
  import opened Bdd
  import opened Clauses
  import opened ClauseOrder
  import opened ClauseStore

  // 1 << (len - 1) in a 32-bit int.  Length 32 gives the sign bit, which the
  // caller's test against 1 refuses; longer shifts are undefined in C and are
  // taken to be refused as well.
  function Domain(len: nat): int
    requires len >= 1
  {
    if len <= 31 then Pow2(len - 1) else 0
  }

  function Front(c: seq<int>): seq<int>
    requires c != []
  {
    c[..|c| - 1]
  }

  function Last(c: seq<int>): int
    requires c != []
  {
    c[|c| - 1]
  }

  function SignOf(c: seq<int>): int {
    if c == [] then 1 else SignOf(Front(c)) * if Last(c) < 0 then -1 else 1
  }

  function XorBdd(c: seq<int>): Bdd
    requires forall k :: 0 <= k < |c| ==> c[k] != 0
  {
    if c == [] then False else Xor(XorBdd(Front(c)), Var(Last(c)))
  }

  ghost predicate Window(cs: seq<seq<int>>, x: int) {
    && 0 <= x < |cs| && 1 < |cs[x]|
    && var d := Domain(|cs[x]|);
    && 1 < d && x + d <= |cs|
    && (forall y :: x <= y < x + d ==> |cs[y]| == |cs[x]|)
    && AbsAll(cs[x]) == AbsAll(cs[x + d - 1])
    && forall y :: x <= y < x + d ==> SignOf(cs[y]) == SignOf(cs[x])
  }

  // ----- sign patterns as numbers, most significant literal first -----

  function Number(c: seq<int>): nat {
    if c == [] then 0 else 2 * Number(Front(c)) + if Last(c) < 0 then 0 else 1
  }

  lemma {:induction false} NumberBound(c: seq<int>)
    ensures Number(c) < Pow2(|c|)
  {
    if c != [] {
      NumberBound(Front(c));
    }
  }

  lemma AbsFront(c: seq<int>, d: seq<int>)
    requires c != [] && d != [] && AbsAll(c) == AbsAll(d)
    ensures |c| == |d| && AbsAll(Front(c)) == AbsAll(Front(d)) && Abs(Last(c)) == Abs(Last(d))
  {
    assert |AbsAll(c)| == |AbsAll(d)|;
    assert forall k :: 0 <= k < |c| ==> AbsAll(c)[k] == Abs(c[k]) && AbsAll(d)[k] == Abs(d[k]);
  }

  lemma {:induction false} NumberLex(c: seq<int>, d: seq<int>, k: nat)
    requires AbsAll(c) == AbsAll(d) && FirstDifference(c, d, k)
    ensures Number(c) < Number(d)
  {
    AbsFront(c, d);
    if k == |c| - 1 {
      assert Front(c) == Front(d);
    } else {
      assert FirstDifference(Front(c), Front(d), k);
      NumberLex(Front(c), Front(d), k);
    }
  }

  lemma {:induction false} NumberInjective(c: seq<int>, d: seq<int>)
    requires AbsAll(c) == AbsAll(d) && Number(c) == Number(d)
    requires forall k :: 0 <= k < |c| ==> c[k] != 0
    ensures c == d
  {
    assert |AbsAll(c)| == |AbsAll(d)|;
    if c != [] {
      AbsFront(c, d);
      assert forall k :: 0 <= k < |Front(c)| ==> Front(c)[k] == c[k];
      NumberInjective(Front(c), Front(d));
      assert c == Front(c) + [Last(c)] && d == Front(d) + [Last(d)];
    }
  }

  // The product of the signs leaves one choice for the last literal.
  lemma SignDecidesLast(c: seq<int>, d: seq<int>)
    requires c != [] && d != [] && AbsAll(c) == AbsAll(d) && SignOf(c) == SignOf(d)
    requires Front(c) == Front(d) && Last(c) != 0
    ensures c == d
  {
    AbsFront(c, d);
    SignUnit(Front(c));
    assert c == Front(c) + [Last(c)] && d == Front(d) + [Last(d)];
  }

  lemma {:induction false} SignUnit(c: seq<int>)
    ensures SignOf(c) == 1 || SignOf(c) == -1
  {
    if c != [] {
      SignUnit(Front(c));
    }
  }

  lemma SameSignLess(c: seq<int>, d: seq<int>)
    requires c != [] && AbsAll(c) == AbsAll(d) && LexLess(c, d) && SignOf(c) == SignOf(d)
    requires forall k :: 0 <= k < |c| ==> c[k] != 0
    ensures d != [] && Number(Front(c)) < Number(Front(d))
  {
    assert |AbsAll(c)| == |AbsAll(d)|;
    var k :| FirstDifference(c, d, k);
    AbsFront(c, d);
    if k == |c| - 1 {
      assert Front(c) == Front(d);
      SignDecidesLast(c, d);
    } else {
      assert FirstDifference(Front(c), Front(d), k);
      NumberLex(Front(c), Front(d), k);
    }
  }

  // n increasing numbers below n are 0, 1, ..., n-1.
  lemma {:induction false} Saturated(f: seq<nat>, k: nat)
    requires forall i, j :: 0 <= i < j < |f| ==> f[i] < f[j]
    requires forall i :: 0 <= i < |f| ==> f[i] < |f|
    requires k < |f|
    ensures f[k] == k
  {
    AtLeast(f, k);
    AtMost(f, k);
  }

  lemma {:induction false} AtLeast(f: seq<nat>, k: nat)
    requires forall i, j :: 0 <= i < j < |f| ==> f[i] < f[j]
    requires k < |f|
    ensures k <= f[k]
  {
    if k > 0 {
      AtLeast(f, k - 1);
    }
  }

  lemma {:induction false} AtMost(f: seq<nat>, k: nat)
    requires forall i, j :: 0 <= i < j < |f| ==> f[i] < f[j]
    requires forall i :: 0 <= i < |f| ==> f[i] < |f|
    requires k < |f|
    ensures f[k] <= k
    decreases |f| - k
  {
    if k < |f| - 1 {
      AtMost(f, k + 1);
    }
  }

  // ----- a window holds every pattern of its sign -----

  ghost predicate Input(cs: seq<seq<int>>) {
    && StrictClauses(cs)
    && forall k :: 0 <= k < |cs| ==> Ordered(cs[k])
  }

  lemma WindowVariables(cs: seq<seq<int>>, x: nat, y: nat)
    requires Input(cs) && Window(cs, x) && x <= y < x + Domain(|cs[x]|)
    ensures AbsAll(cs[y]) == AbsAll(cs[x])
  {
    var last := x + Domain(|cs[x]|) - 1;
    if x < y < last {
      SameVariablesBetween(cs[x], cs[y], cs[last]);
    }
  }

  function PatternNumber(c: seq<int>): nat {
    if c == [] then 0 else Number(Front(c))
  }

  lemma WindowIncreasing(cs: seq<seq<int>>, x: nat, i: nat, j: nat)
    requires Input(cs) && Window(cs, x) && i < j < Domain(|cs[x]|)
    ensures PatternNumber(cs[x + i]) < PatternNumber(cs[x + j]) < Domain(|cs[x]|)
  {
    WindowVariables(cs, x, x + i);
    WindowVariables(cs, x, x + j);
    SameVariablesLess(cs[x + i], cs[x + j]);
    SameSignLess(cs[x + i], cs[x + j]);
    NumberBound(Front(cs[x + j]));
  }

  ghost function PatternNumbers(cs: seq<seq<int>>, x: nat, d: nat): (f: seq<nat>)
    requires x + d <= |cs|
    ensures |f| == d && forall i :: 0 <= i < d ==> f[i] == PatternNumber(cs[x + i])
  {
    if d == 0 then [] else PatternNumbers(cs, x, d - 1) + [PatternNumber(cs[x + d - 1])]
  }

  lemma WindowNumber(cs: seq<seq<int>>, x: nat, k: nat)
    requires Input(cs) && Window(cs, x) && k < Domain(|cs[x]|)
    ensures PatternNumber(cs[x + k]) == k
  {
    var d := Domain(|cs[x]|);
    var f := PatternNumbers(cs, x, d);
    forall i, j | 0 <= i < j < d ensures f[i] < f[j] && f[j] < d {
      WindowIncreasing(cs, x, i, j);
    }
    assert f[0] < f[d - 1];
    Saturated(f, k);
  }

  lemma WindowFull(cs: seq<seq<int>>, x: nat, c: seq<int>) returns (y: nat)
    requires Input(cs) && Window(cs, x)
    requires AbsAll(c) == AbsAll(cs[x]) && SignOf(c) == SignOf(cs[x])
    requires forall k :: 0 <= k < |c| ==> c[k] != 0
    ensures x <= y < x + Domain(|cs[x]|) && cs[y] == c
  {
    assert |AbsAll(c)| == |AbsAll(cs[x])|;
    NumberBound(Front(c));
    y := x + Number(Front(c));
    WindowNumber(cs, x, Number(Front(c)));
    WindowVariables(cs, x, y);
    AbsFront(cs[y], c);
    assert forall k :: 0 <= k < |Front(c)| ==> Front(c)[k] == c[k];
    NumberInjective(Front(c), Front(cs[y]));
    SignDecidesLast(c, cs[y]);
  }

  // ----- the XOR of the first clause is the whole window -----

  // The one clause over the variables of c that a falsifies.
  ghost function Falsified(c: seq<int>, a: Assignment): seq<int> {
    seq(|c|, k requires 0 <= k < |c| => if Abs(c[k]) in a then -(Abs(c[k]) as int) else Abs(c[k]))
  }

  lemma {:induction false} XorValue(c: seq<int>, a: Assignment)
    requires forall k :: 0 <= k < |c| ==> c[k] != 0
    ensures Eval(XorBdd(c), a) <==> SignOf(c) != SignOf(Falsified(c, a))
  {
    if c != [] {
      XorValue(Front(c), a);
      assert Front(Falsified(c, a)) == Falsified(Front(c), a);
      OperatorsEval(XorBdd(Front(c)), Var(Last(c)), a);
      SignUnit(Front(c));
      SignUnit(Falsified(Front(c), a));
    }
  }

  lemma FalseMeansFalsified(c: seq<int>, d: seq<int>, a: Assignment)
    requires AbsAll(c) == AbsAll(d) && forall k :: 0 <= k < |c| ==> c[k] != 0
    ensures !ClauseTrue(c, a) <==> c == Falsified(d, a)
  {
    assert |AbsAll(c)| == |AbsAll(d)|;
    assert forall k :: 0 <= k < |c| ==> AbsAll(c)[k] == Abs(c[k]) && AbsAll(d)[k] == Abs(d[k]);
    assert forall k :: 0 <= k < |c| ==> (LitTrue(c[k], a) <==> c[k] != Falsified(d, a)[k]);
  }

  lemma XorIsWindow(cs: seq<seq<int>>, x: nat, a: Assignment)
    requires Input(cs) && Window(cs, x)
    ensures Eval(XorBdd(cs[x]), a) <==>
            forall y :: x <= y < x + Domain(|cs[x]|) ==> ClauseTrue(cs[y], a)
  {
    var f := Falsified(cs[x], a);
    XorValue(cs[x], a);
    assert AbsAll(f) == AbsAll(cs[x]);
    forall y | x <= y < x + Domain(|cs[x]|) ensures !ClauseTrue(cs[y], a) <==> cs[y] == f {
      WindowVariables(cs, x, y);
      FalseMeansFalsified(cs[y], cs[x], a);
    }
    if SignOf(f) == SignOf(cs[x]) {
      var y := WindowFull(cs, x, f);
    }
  }

  // ----- windows do not overlap, so the scan may jump -----

  lemma NoOverlap(cs: seq<seq<int>>, x: nat, w: nat)
    requires Input(cs) && Window(cs, x) && x < w < x + Domain(|cs[x]|)
    ensures !Window(cs, w)
  {
    if Window(cs, w) {
      var e := x + Domain(|cs[x]|);
      WindowVariables(cs, x, w);
      WindowVariables(cs, w, e);
      var y := WindowFull(cs, x, cs[e]);
      assert ClauseLess(cs[y], cs[e]);
      LexIrreflexive(Key(cs[y]), Key(cs[e]));
    }
  }

  // A length that changes inside the run spoils every start before it.
  lemma BrokenRun(cs: seq<seq<int>>, x: nat, y: nat, w: nat)
    requires Input(cs) && x < |cs| && 1 < |cs[x]| && x + Domain(|cs[x]|) <= |cs|
    requires 1 <= y < Domain(|cs[x]|) && |cs[x + y]| != |cs[x]|
    requires forall z :: x <= z < x + y ==> |cs[z]| == |cs[x]|
    requires x <= w < x + y
    ensures !Window(cs, w)
  {
  }

  // Clauses only get longer, so a run that does not fit stays out of reach.
  lemma NoRoom(cs: seq<seq<int>>, x: nat, w: nat)
    requires Input(cs) && x <= w < |cs| && 1 < |cs[x]|
    requires Domain(|cs[x]|) <= 1 || x + Domain(|cs[x]|) > |cs|
    ensures !Window(cs, w)
  {
    if x < w {
      ClauseLessLength(cs[x], cs[w]);
    }
    Pow2Grows(|cs[x]| - 1, |cs[w]| - 1);
    if |cs[x]| >= 2 {
      Pow2Grows(1, |cs[x]| - 1);
    }
  }

  lemma {:induction false} Pow2Grows(m: nat, n: nat)
    requires m <= n
    ensures Pow2(m) <= Pow2(n)
  {
    if m < n {
      Pow2Grows(m, n - 1);
    }
  }

  // ----- the search -----

  method FirstOtherLength(cs: seq<seq<int>>, x: nat, domain: nat) returns (y: nat)
    requires 1 <= domain && x + domain <= |cs|
    ensures 1 <= y <= domain
    ensures forall z :: x <= z < x + y ==> |cs[z]| == |cs[x]|
    ensures y < domain ==> |cs[x + y]| != |cs[x]|
  {
    y := 1;
    while y < domain && |cs[x + y]| == |cs[x]|
      invariant 1 <= y <= domain
      invariant forall z :: x <= z < x + y ==> |cs[z]| == |cs[x]|
    {
      y := y + 1;
    }
  }

  method SameVariables(c: seq<int>, d: seq<int>) returns (b: bool)
    requires |c| == |d|
    ensures b <==> AbsAll(c) == AbsAll(d)
  {
    for y := 0 to |c|
      invariant forall z :: 0 <= z < y ==> Abs(c[z]) == Abs(d[z])
    {
      if Abs(c[y]) != Abs(d[y]) {
        assert AbsAll(c)[y] != AbsAll(d)[y];
        return false;
      }
    }
    b := true;
  }

  method SignProduct(c: seq<int>) returns (sign: int)
    ensures sign == SignOf(c)
  {
    sign := 1;
    for y := 0 to |c|
      invariant sign == SignOf(c[..y])
    {
      assert Front(c[..y + 1]) == c[..y];
      sign := sign * if c[y] < 0 then -1 else 1;
    }
    assert c[..|c|] == c;
  }

  method SameSigns(cs: seq<seq<int>>, x: nat, domain: nat) returns (b: bool)
    requires 1 <= domain && x + domain <= |cs|
    ensures b <==> forall y :: x <= y < x + domain ==> SignOf(cs[y]) == SignOf(cs[x])
  {
    var sign := SignProduct(cs[x]);
    for y := 1 to domain
      invariant forall z :: x <= z < x + y ==> SignOf(cs[z]) == sign
    {
      var tmp := SignProduct(cs[x + y]);
      if tmp != sign {
        return false;
      }
    }
    b := true;
  }

  method BuildXor(c: seq<int>) returns (bdd: Bdd)
    requires forall k :: 0 <= k < |c| ==> c[k] != 0
    ensures bdd == XorBdd(c)
  {
    bdd := False;
    for y := 0 to |c|
      invariant bdd == XorBdd(c[..y])
    {
      assert Front(c[..y + 1]) == c[..y];
      bdd := Xor(bdd, Var(c[y]));
    }
    assert c[..|c|] == c;
  }

  function XorFunctions(cs: seq<seq<int>>, starts: seq<nat>): seq<Function>
    requires forall k :: 0 <= k < |cs| ==> Ordered(cs[k])
    requires forall i :: 0 <= i < |starts| ==> starts[i] < |cs|
  {
    seq(|starts|, i requires 0 <= i < |starts| =>
      assert Ordered(cs[starts[i]]); Function(XorBdd(cs[starts[i]]), PLAINXOR, 0))
  }

  ghost predicate InBlock(cs: seq<seq<int>>, s: nat, k: int) {
    Window(cs, s) && s <= k < s + Domain(|cs[s]|)
  }

  // The starts below bound are found, in order, and exactly their blocks are marked.
  ghost predicate Progress(cs: seq<seq<int>>, starts: seq<nat>, bound: int) {
    && Ascending(starts)
    && forall w :: w in starts <==> w < bound && Window(cs, w)
  }

  ghost predicate MarkedBlocks(cs: seq<seq<int>>, starts: seq<nat>, was: seq<Clause>, now: seq<Clause>) {
    && |was| == |now| == |cs|
    && forall k :: 0 <= k < |cs| ==> now[k].lits == cs[k] && now[k].subsumed == (was[k].subsumed || InSome(cs, starts, k))
  }

  ghost predicate InSome(cs: seq<seq<int>>, starts: seq<nat>, k: int) {
    exists s :: s in starts && InBlock(cs, s, k)
  }

  lemma InSomeMore(cs: seq<seq<int>>, starts: seq<nat>, x: nat, k: int)
    ensures InSome(cs, starts + [x], k) <==> InSome(cs, starts, k) || InBlock(cs, x, k)
  {
    assert x in starts + [x];
    assert forall s :: s in starts ==> s in starts + [x];
  }

  lemma StartsAppend(cs: seq<seq<int>>, starts: seq<nat>, x: nat, bound: nat)
    requires Input(cs) && Progress(cs, starts, x) && Window(cs, x)
    requires bound == x + Domain(|cs[x]|)
    ensures Progress(cs, starts + [x], bound)
  {
    forall i | 0 <= i < |starts| ensures starts[i] < x {
      assert starts[i] in starts;
    }
    forall w | x < w < bound ensures !Window(cs, w) {
      NoOverlap(cs, x, w);
    }
  }

  lemma StartsKeep(cs: seq<seq<int>>, starts: seq<nat>, x: int, bound: int)
    requires Progress(cs, starts, x) && x <= bound
    requires forall w :: x <= w < bound ==> !Window(cs, w)
    ensures Progress(cs, starts, bound)
  {
  }

  method MarkBlock(p: array<Clause>, x: nat, domain: nat)
    requires x + domain <= p.Length
    modifies p
    ensures forall k :: 0 <= k < p.Length ==>
              p[k] == if x <= k < x + domain then old(p[k]).(subsumed := true) else old(p[k])
  {
    for y := 0 to domain
      invariant forall k :: 0 <= k < p.Length ==>
                  p[k] == if x <= k < x + y then old(p[k]).(subsumed := true) else old(p[k])
    {
      p[x + y] := p[x + y].(subsumed := true);
    }
  }

  lemma BlockMarked(cs: seq<seq<int>>, starts: seq<nat>, x: nat, was: seq<Clause>, now: seq<Clause>, now': seq<Clause>)
    requires MarkedBlocks(cs, starts, was, now) && Window(cs, x) && |now'| == |now|
    requires forall k :: 0 <= k < |now| ==>
               now'[k] == if InBlock(cs, x, k) then now[k].(subsumed := true) else now[k]
    ensures MarkedBlocks(cs, starts + [x], was, now')
  {
    var more := starts + [x];
    forall k | 0 <= k < |cs| ensures now'[k].lits == cs[k] && now'[k].subsumed == (was[k].subsumed || InSome(cs, more, k)) {
      InSomeMore(cs, starts, x, k);
      assert now[k].subsumed == (was[k].subsumed || InSome(cs, starts, k));
    }
  }

  // The tests made at x: a window, or the next place where one may start.
  method TryWindow(cs: seq<seq<int>>, x: nat) returns (found: bool, next: nat)
    requires x < |cs| && Input(cs)
    ensures x < next <= |cs|
    ensures found <==> Window(cs, x)
    ensures found ==> next == x + Domain(|cs[x]|)
    ensures !found ==> forall w :: x <= w < next ==> !Window(cs, w)
  {
    found, next := false, x + 1;
    if |cs[x]| > 1 {
      var domain := Domain(|cs[x]|);
      if domain <= 1 || domain + x > |cs| {
        // The original leaves the loop here.
        forall w | x <= w < |cs| ensures !Window(cs, w) { NoRoom(cs, x, w); }
        return false, |cs|;
      }
      var y := FirstOtherLength(cs, x, domain);
      if y < domain {
        forall w | x <= w < x + y ensures !Window(cs, w) { BrokenRun(cs, x, y, w); }
        return false, x + y;
      }
      var variables := SameVariables(cs[x], cs[x + domain - 1]);
      if variables {
        found := SameSigns(cs, x, domain);
        if found {
          next := x + domain;
        }
      }
    }
  }

  lemma FunctionsAppend(cs: seq<seq<int>>, starts: seq<nat>, x: nat)
    requires forall k :: 0 <= k < |cs| ==> Ordered(cs[k])
    requires forall i :: 0 <= i < |starts| ==> starts[i] < |cs|
    requires x < |cs|
    ensures Ordered(cs[x])
    ensures forall i :: 0 <= i < |starts + [x]| ==> (starts + [x])[i] < |cs|
    ensures XorFunctions(cs, starts + [x]) == XorFunctions(cs, starts) + [Function(XorBdd(cs[x]), PLAINXOR, 0)]
  {
  }

  // The window at x becomes one function.
  method TakeWindow(p: array<Clause>, cs: seq<seq<int>>, n: nat, x: nat, next: nat, fs: seq<Function>,
                    ghost fs0: seq<Function>, ghost starts: seq<nat>, ghost was: seq<Clause>)
    returns (fs': seq<Function>, ghost starts': seq<nat>)
    requires n <= p.Length && |cs| == n && Input(cs) && x < n && Window(cs, x) && next == x + Domain(|cs[x]|) <= n
    requires Progress(cs, starts, x) && MarkedBlocks(cs, starts, was, p[..n])
    requires (forall i :: 0 <= i < |starts| ==> starts[i] < n) && fs == fs0 + XorFunctions(cs, starts)
    modifies p
    ensures Progress(cs, starts', next) && MarkedBlocks(cs, starts', was, p[..n])
    ensures (forall i :: 0 <= i < |starts'| ==> starts'[i] < n) && fs' == fs0 + XorFunctions(cs, starts')
  {
    FunctionsAppend(cs, starts, x);
    var bdd := BuildXor(cs[x]);
    fs' := fs + [Function(bdd, PLAINXOR, 0)];
    ghost var now := p[..n];
    MarkBlock(p, x, next - x);
    BlockMarked(cs, starts, x, was, now, p[..n]);
    StartsAppend(cs, starts, x, next);
    starts' := starts + [x];
  }

  // One XOR function per window, in order; exactly the windows are marked.
  method FindAndBuildXors(p: array<Clause>, n: nat, fs: seq<Function>)
    returns (fs': seq<Function>, ghost starts: seq<nat>)
    requires n <= p.Length && Input(Lits(p[..n]))
    modifies p
    ensures Ascending(starts) && forall w :: w in starts <==> Window(old(Lits(p[..n])), w)
    ensures MarkedBlocks(old(Lits(p[..n])), starts, old(p[..n]), p[..n])
    ensures forall i :: 0 <= i < |starts| ==> starts[i] < n
    ensures fs' == fs + XorFunctions(old(Lits(p[..n])), starts)
  {
    ghost var was := p[..n];
    var cs := Lits(p[..n]);
    fs', starts := fs, [];
    var x: nat := 0;
    while x < n
      invariant 0 <= x <= n
      invariant Progress(cs, starts, x)
      invariant MarkedBlocks(cs, starts, was, p[..n])
      invariant forall i :: 0 <= i < |starts| ==> starts[i] < n
      invariant fs' == fs + XorFunctions(cs, starts)
    {
      var found, next := TryWindow(cs, x);
      if found {
        fs', starts := TakeWindow(p, cs, n, x, next, fs', fs, starts, was);
      } else {
        StartsKeep(cs, starts, x, next);
      }
      x := next;
    }
    forall w | Window(cs, w) ensures w < n { }
  }

  // The search keeps the meaning.
  lemma XorsSound(fs: seq<Function>, was: seq<Clause>, starts: seq<nat>, now: seq<Clause>)
    requires Input(Lits(was)) && Droppable(fs, was)
    requires forall w :: w in starts <==> Window(Lits(was), w)
    requires forall i :: 0 <= i < |starts| ==> starts[i] < |was|
    requires MarkedBlocks(Lits(was), starts, was, now)
    ensures Searched(fs, was, fs + XorFunctions(Lits(was), starts), now)
  {
    var cs := Lits(was);
    var more := XorFunctions(cs, starts);
    assert Lits(now) == cs;
    forall a: Assignment, i | 0 <= i < |starts|
      ensures Window(cs, starts[i])
      ensures Eval(more[i].bdd, a) <==>
              forall y :: starts[i] <= y < starts[i] + Domain(|cs[starts[i]]|) ==> ClauseTrue(cs[y], a)
    {
      assert starts[i] in starts;
      XorIsWindow(cs, starts[i], a);
    }
    forall k, a: Assignment | 0 <= k < |now| && now[k].subsumed && !was[k].subsumed && Holds(more, a)
      ensures ClauseTrue(was[k].lits, a)
    {
      var s :| s in starts && InBlock(cs, s, k);
      var i :| 0 <= i < |starts| && starts[i] == s;
      assert Eval(more[i].bdd, a);
      assert cs[k] == was[k].lits;
    }
    SearchSound(fs, was, more, now);
  }
}
