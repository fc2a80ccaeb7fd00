// The Ramsey generator (src/generator/rn.cc): edges of a complete graph on n nodes in two
// colours, no clique of k nodes in one and none of l nodes in the other.

module Ramsey {
  import opened Arithmetic
  import opened Basics
  import opened Bdd
  import opened Clauses

  // ----- edges -----

  // The edges from nodes below i.
  function Before(n: nat, i: nat): int
    requires 1 <= i <= n + 1
  {
    if i == 1 then 0 else Before(n, i - 1) + (n - (i - 1))
  }

  function Edge(n: nat, i: nat, j: nat): int
    requires 1 <= i < j <= n
  {
    Before(n, i) + (j - i)
  }

  lemma {:induction false} BeforeGrows(n: nat, i: nat, j: nat)
    requires 1 <= i <= j <= n + 1
    ensures 0 <= Before(n, i) <= Before(n, j)
    decreases j
  {
    if j > 1 {
      if i < j {
        BeforeGrows(n, i, j - 1);
      } else {
        BeforeGrows(n, i - 1, i - 1);
      }
    }
  }

  lemma {:induction false} BeforeClosed(n: nat, i: nat)
    requires 1 <= i <= n + 1
    ensures 2 * Before(n, i) == (i - 1) * (2 * n - i)
  {
    if i > 1 {
      BeforeClosed(n, i - 1);
    }
  }

  // Every edge has its own number, from 1 to n (n - 1) / 2.
  lemma EdgeBound(n: nat, i: nat, j: nat)
    requires 1 <= i < j <= n
    ensures 1 <= Before(n, i) + 1 <= Edge(n, i, j) <= Before(n, i + 1) <= Before(n, n + 1)
  {
    BeforeGrows(n, i, i + 1);
    BeforeGrows(n, i + 1, n + 1);
  }

  lemma EdgeInjective(n: nat, i: nat, j: nat, i': nat, j': nat)
    requires 1 <= i < j <= n && 1 <= i' < j' <= n && Edge(n, i, j) == Edge(n, i', j')
    ensures i == i' && j == j'
  {
    EdgeBound(n, i, j);
    EdgeBound(n, i', j');
    if i < i' {
      BeforeGrows(n, i + 1, i');
    } else if i' < i {
      BeforeGrows(n, i' + 1, i);
    }
  }

  ghost predicate EdgesSet(edges: array2<int>, n: nat)
    reads edges
  {
    && edges.Length0 > n && edges.Length1 > n
    && forall i: nat, j: nat :: 1 <= i < j <= n ==> edges[i, j] == Edge(n, i, j)
  }

  // edge_counter - 1 edges are numbered, row after row.
  method NumberEdges(edges: array2<int>, n: nat) returns (edge_counter: int)
    requires edges.Length0 > n && edges.Length1 > n
    modifies edges
    ensures EdgesSet(edges, n) && edge_counter - 1 == Before(n, n + 1)
  {
    edge_counter := 1;
    var i: nat := 1;
    while i <= n
      invariant 1 <= i <= n + 1 && edge_counter - 1 == Before(n, i)
      invariant forall i0: nat, j: nat :: 1 <= i0 < j <= n && i0 < i ==> edges[i0, j] == Edge(n, i0, j)
    {
      var j: nat := i + 1;
      while j <= n
        invariant i < j <= n + 1 && edge_counter - 1 == Before(n, i) + (j - 1 - i)
        invariant forall i0: nat, j0: nat :: 1 <= i0 < j0 <= n && (i0 < i || (i0 == i && j0 < j)) ==> edges[i0, j0] == Edge(n, i0, j0)
      {
        edges[i, j] := edge_counter;
        edge_counter := edge_counter + 1;
        j := j + 1;
      }
      i := i + 1;
    }
  }

  // ----- choosing k of n nodes -----

  // What print_clauses prints from here on: first without the current node, then with it.
  function Choices(n: nat, k: nat, current: nat, chosen: seq<nat>): seq<seq<nat>>
    requires current <= n + 1
    decreases n + 1 - current
  {
    if |chosen| == k then [chosen]
    else if current > n then []
    else Choices(n, k, current + 1, chosen) + Choices(n, k, current + 1, chosen + [current])
  }

  ghost predicate Increasing(s: seq<nat>) {
    forall i, j :: 0 <= i < j < |s| ==> s[i] < s[j]
  }

  ghost predicate Nodes(s: seq<nat>, n: nat) {
    forall i :: 0 <= i < |s| ==> 1 <= s[i] <= n
  }

  // k nodes, in increasing order.
  ghost predicate IsChoice(n: nat, k: nat, s: seq<nat>) {
    |s| == k && Increasing(s) && Nodes(s, n)
  }

  ghost predicate From(current: nat, s: seq<nat>, at: nat) {
    forall i :: at <= i < |s| ==> current <= s[i]
  }

  ghost predicate Until(current: nat, s: seq<nat>) {
    forall i :: 0 <= i < |s| ==> s[i] < current
  }

  // What has been chosen before the current node.
  ghost predicate Chosen(n: nat, current: nat, chosen: seq<nat>) {
    Increasing(chosen) && Nodes(chosen, n) && Until(current, chosen)
  }

  lemma ChooseOn(n: nat, current: nat, chosen: seq<nat>)
    requires 1 <= current <= n && Chosen(n, current, chosen)
    ensures Chosen(n, current + 1, chosen) && Chosen(n, current + 1, chosen + [current])
  {
  }

  // s is a choice that goes on from the nodes chosen, none of them below current.
  ghost predicate GoesOn(n: nat, k: nat, current: nat, chosen: seq<nat>, s: seq<nat>) {
    IsChoice(n, k, s) && chosen <= s && From(current, s, |chosen|)
  }

  // It has the current node next, or a later one.
  lemma NextNode(n: nat, k: nat, current: nat, chosen: seq<nat>, s: seq<nat>)
    requires |chosen| < k
    ensures GoesOn(n, k, current, chosen, s) <==>
            GoesOn(n, k, current + 1, chosen, s) || GoesOn(n, k, current + 1, chosen + [current], s)
  {
    var with := chosen + [current];
    if GoesOn(n, k, current, chosen, s) {
      if s[|chosen|] == current {
        assert with <= s;
      }
    }
    if GoesOn(n, k, current + 1, with, s) {
      assert s[|chosen|] == with[|chosen|];
      assert chosen <= with;
    }
  }

  lemma NoNodeLeft(n: nat, k: nat, current: nat, chosen: seq<nat>, s: seq<nat>)
    requires |chosen| == k && Increasing(chosen) && Nodes(chosen, n)
    ensures GoesOn(n, k, current, chosen, s) <==> s in [chosen]
  {
    if chosen <= s && |s| == k {
      assert s == s[..k] == chosen;
    }
  }

  lemma NoNextNode(n: nat, k: nat, chosen: seq<nat>, s: seq<nat>)
    requires |chosen| < k
    ensures !GoesOn(n, k, n + 1, chosen, s)
  {
    if |s| == k && From(n + 1, s, |chosen|) {
      assert s[|chosen|] >= n + 1;
    }
  }

  lemma Unfolded(n: nat, k: nat, current: nat, chosen: seq<nat>)
    requires current <= n && |chosen| != k
    ensures Choices(n, k, current, chosen) == Choices(n, k, current + 1, chosen) + Choices(n, k, current + 1, chosen + [current])
  {
  }

  // The choices that one more step reaches, kept apart from the recursion.
  ghost predicate Reached(n: nat, k: nat, current: nat, chosen: seq<nat>, s: seq<nat>)
    requires current <= n + 1
  {
    s in Choices(n, k, current, chosen)
  }

  lemma ReachedEnd(n: nat, k: nat, current: nat, chosen: seq<nat>, s: seq<nat>)
    requires 1 <= current <= n + 1 && |chosen| <= k && Chosen(n, current, chosen)
    requires |chosen| == k || current > n
    ensures Reached(n, k, current, chosen, s) <==> GoesOn(n, k, current, chosen, s)
  {
    if |chosen| == k {
      NoNodeLeft(n, k, current, chosen, s);
    } else {
      NoNextNode(n, k, chosen, s);
    }
  }

  lemma ReachedStep(n: nat, k: nat, current: nat, chosen: seq<nat>, s: seq<nat>)
    requires current <= n && |chosen| < k
    requires Reached(n, k, current + 1, chosen, s) <==> GoesOn(n, k, current + 1, chosen, s)
    requires Reached(n, k, current + 1, chosen + [current], s) <==> GoesOn(n, k, current + 1, chosen + [current], s)
    ensures Reached(n, k, current, chosen, s) <==> GoesOn(n, k, current, chosen, s)
  {
    Unfolded(n, k, current, chosen);
    NextNode(n, k, current, chosen, s);
  }

  lemma {:induction false} ReachedExactly(n: nat, k: nat, current: nat, chosen: seq<nat>, s: seq<nat>)
    requires 1 <= current <= n + 1 && |chosen| <= k && Chosen(n, current, chosen)
    ensures Reached(n, k, current, chosen, s) <==> GoesOn(n, k, current, chosen, s)
    decreases n + 1 - current
  {
    if |chosen| == k || current > n {
      ReachedEnd(n, k, current, chosen, s);
    } else {
      ChooseOn(n, current, chosen);
      ReachedExactly(n, k, current + 1, chosen, s);
      ReachedExactly(n, k, current + 1, chosen + [current], s);
      ReachedStep(n, k, current, chosen, s);
    }
  }

  lemma ChoicesExact(n: nat, k: nat, current: nat, chosen: seq<nat>, s: seq<nat>)
    requires 1 <= current <= n + 1 && |chosen| <= k && Chosen(n, current, chosen)
    ensures s in Choices(n, k, current, chosen) <==> GoesOn(n, k, current, chosen, s)
  {
    ReachedExactly(n, k, current, chosen, s);
  }

  lemma {:induction false} ChoicesOnce(n: nat, k: nat, current: nat, chosen: seq<nat>)
    requires 1 <= current <= n + 1 && |chosen| <= k && Chosen(n, current, chosen)
    ensures NoDuplicates(Choices(n, k, current, chosen))
    decreases n + 1 - current
  {
    if |chosen| < k && current <= n {
      ChooseOn(n, current, chosen);
      ChoicesOnce(n, k, current + 1, chosen);
      ChoicesOnce(n, k, current + 1, chosen + [current]);
      HalvesApart(n, k, current, chosen, Choices(n, k, current + 1, chosen));
      DisjointLists(Choices(n, k, current + 1, chosen), Choices(n, k, current + 1, chosen + [current]));
      Unfolded(n, k, current, chosen);
    }
  }

  lemma HalvesApart(n: nat, k: nat, current: nat, chosen: seq<nat>, without: seq<seq<nat>>)
    requires 1 <= current <= n && |chosen| < k && Chosen(n, current, chosen)
    requires without == Choices(n, k, current + 1, chosen)
    ensures forall i :: 0 <= i < |without| ==> without[i] !in Choices(n, k, current + 1, chosen + [current])
  {
    forall i | 0 <= i < |without| ensures without[i] !in Choices(n, k, current + 1, chosen + [current]) {
      NotInBoth(n, k, current, chosen, without[i]);
    }
  }

  lemma NotInBoth(n: nat, k: nat, current: nat, chosen: seq<nat>, s: seq<nat>)
    requires 1 <= current <= n && |chosen| < k && Chosen(n, current, chosen)
    requires s in Choices(n, k, current + 1, chosen)
    ensures s !in Choices(n, k, current + 1, chosen + [current])
  {
    ReachedGoesOn(n, k, current, chosen, s);
    NotBothNext(n, k, current, chosen, s);
    if s in Choices(n, k, current + 1, chosen + [current]) {
      ReachedGoesOnWith(n, k, current, chosen, s);
    }
  }

  lemma ReachedGoesOn(n: nat, k: nat, current: nat, chosen: seq<nat>, s: seq<nat>)
    requires 1 <= current <= n && |chosen| < k && Chosen(n, current, chosen)
    requires s in Choices(n, k, current + 1, chosen)
    ensures GoesOn(n, k, current + 1, chosen, s)
  {
    ChooseOn(n, current, chosen);
    ChoicesExact(n, k, current + 1, chosen, s);
  }

  lemma ReachedGoesOnWith(n: nat, k: nat, current: nat, chosen: seq<nat>, s: seq<nat>)
    requires 1 <= current <= n && |chosen| < k && Chosen(n, current, chosen)
    requires s in Choices(n, k, current + 1, chosen + [current])
    ensures GoesOn(n, k, current + 1, chosen + [current], s)
  {
    ChooseOn(n, current, chosen);
    ChoicesExact(n, k, current + 1, chosen + [current], s);
  }

  lemma NotBothNext(n: nat, k: nat, current: nat, chosen: seq<nat>, s: seq<nat>)
    requires |chosen| < k && GoesOn(n, k, current + 1, chosen, s)
    ensures !GoesOn(n, k, current + 1, chosen + [current], s)
  {
    assert s[|chosen|] >= current + 1;
    assert (chosen + [current])[|chosen|] == current;
  }

  lemma DisjointLists<T>(s: seq<T>, t: seq<T>)
    requires NoDuplicates(s) && NoDuplicates(t) && forall i :: 0 <= i < |s| ==> s[i] !in t
    ensures NoDuplicates(s + t)
  {
    forall i, j | 0 <= i < j < |s + t| ensures (s + t)[i] != (s + t)[j] {
      if i < |s| && j >= |s| {
        assert t[j - |s|] in t;
      }
    }
  }

  function Binomial(n: nat, k: nat): nat {
    if k == 0 then 1 else if n == 0 then 0 else Binomial(n - 1, k) + Binomial(n - 1, k - 1)
  }

  lemma {:induction false} ChoicesCount(n: nat, k: nat, current: nat, chosen: seq<nat>)
    requires current <= n + 1 && |chosen| <= k
    ensures |Choices(n, k, current, chosen)| == Binomial(n + 1 - current, k - |chosen|)
    decreases n + 1 - current
  {
    if |chosen| < k && current <= n {
      ChoicesCount(n, k, current + 1, chosen);
      ChoicesCount(n, k, current + 1, chosen + [current]);
    }
  }

  // ----- the binomial coefficient by multiplying and dividing -----

  function Falling(n: int, k: nat): int {
    if k == 0 then 1 else Falling(n, k - 1) * (n - (k - 1))
  }

  function Fact(k: nat): nat {
    if k == 0 then 1 else k * Fact(k - 1)
  }

  // (j + 1) (j + 2) ... k
  function Above(j: nat, k: nat): nat
    requires j <= k
    decreases k - j
  {
    if j == k then 1 else (j + 1) * Above(j + 1, k)
  }

  lemma {:induction false} AboveFact(j: nat, k: nat)
    requires j <= k
    ensures Fact(j) * Above(j, k) == Fact(k)
    decreases k - j
  {
    if j < k {
      AboveFact(j + 1, k);
      Reassociate(Fact(j), j + 1, Above(j + 1, k));
    }
  }

  lemma Reassociate(x: int, y: int, z: int)
    ensures x * (y * z) == (y * x) * z
  {
  }

  lemma {:induction false} FallingHead(n: int, k: nat)
    requires k >= 1
    ensures Falling(n, k) == n * Falling(n - 1, k - 1)
  {
    if k > 1 {
      FallingHead(n, k - 1);
      Regroup(n, Falling(n - 1, k - 2), n - (k - 1));
    }
  }

  lemma Regroup(n: int, f: int, d: int)
    ensures (n * f) * d == n * (f * d)
  {
  }

  // n (n - 1) ... (n - k + 1) is k! times the binomial coefficient, also for k > n.
  lemma {:induction false} FallingBinomial(n: nat, k: nat)
    ensures Falling(n, k) == Binomial(n, k) * Fact(k)
  {
    if k > 0 {
      FallingHead(n, k);
      if n > 0 {
        FallingBinomial(n - 1, k);
        FallingBinomial(n - 1, k - 1);
        Pascal(n, k, Falling(n - 1, k - 1), Binomial(n - 1, k), Binomial(n - 1, k - 1), Fact(k - 1));
      }
    }
  }

  lemma Pascal(n: int, k: int, f: int, b: int, c: int, g: int)
    requires f * (n - k) == b * (k * g) && f == c * g
    ensures n * f == (b + c) * (k * g)
  {
    assert n * f == f * (n - k) + k * f;
    assert k * f == k * (c * g) == c * (k * g);
    assert (b + c) * (k * g) == b * (k * g) + c * (k * g);
  }

  lemma Quotient(b: nat, j: nat, r: nat)
    ensures b * ((j + 1) * r) / (j + 1) == b * r
  {
    assert b * ((j + 1) * r) == (j + 1) * (b * r);
    DivUnique(b * ((j + 1) * r), j + 1, b * r, 0);
  }

  // Every division is exact.
  method C(k: nat, n: nat) returns (x: int)
    ensures x == Binomial(n, k)
  {
    x := 1;
    var m: int := n;
    for i: nat := 0 to k
      invariant x == Falling(n, i) && m == n - i
    {
      x := x * m;
      m := m - 1;
    }
    FallingBinomial(n, k);
    AboveFact(0, k);
    for j: nat := 0 to k
      invariant x == Binomial(n, k) * Above(j, k)
    {
      Quotient(Binomial(n, k), j, Above(j + 1, k));
      x := x / (j + 1);
    }
  }

  // ----- clauses -----

  // All edges among the nodes of s are true, or all are false.
  ghost predicate OneColour(s: seq<nat>, n: nat, colour: bool, a: Assignment)
    requires Increasing(s) && Nodes(s, n)
  {
    forall i, j :: 0 <= i < j < |s| ==> EdgeHas(s, n, i, j, colour, a)
  }

  ghost predicate EdgeHas(s: seq<nat>, n: nat, i: int, j: int, colour: bool, a: Assignment)
    requires Increasing(s) && Nodes(s, n) && 0 <= i < j < |s|
  {
    EdgeIn(n, s[i], s[j], a) == colour
  }

  ghost predicate EdgeIn(n: nat, i: nat, j: nat, a: Assignment)
    requires 1 <= i < j <= n
  {
    EdgeBound(n, i, j);
    (Edge(n, i, j) as nat) in a
  }

  ghost predicate Fits(c: seq<int>, vars: int) {
    forall j :: 0 <= j < |c| ==> c[j] != 0 && -vars <= c[j] <= vars
  }

  // The clause printed with sign '-' excludes that all edges are true, the other one
  // that all are false.
  ghost predicate Excludes(c: seq<int>, s: seq<nat>, n: nat, minus: bool)
    requires Increasing(s) && Nodes(s, n)
  {
    && Fits(c, Before(n, n + 1))
    && forall a: Assignment :: ClauseTrue(c, a) <==> !OneColour(s, n, minus, a)
  }

  // The edges up to (i, j) in the order of the two loops.
  ghost predicate ExcludesSoFar(c: seq<int>, s: seq<nat>, n: nat, minus: bool, i: int, j: int)
    requires Increasing(s) && Nodes(s, n)
  {
    && Fits(c, Before(n, n + 1))
    && forall a: Assignment :: ClauseTrue(c, a) <==> !ColourSoFar(s, n, minus, i, j, a)
  }

  ghost predicate ColourSoFar(s: seq<nat>, n: nat, colour: bool, i: int, j: int, a: Assignment)
    requires Increasing(s) && Nodes(s, n)
  {
    forall i0, j0 :: 0 <= i0 < j0 < |s| && (i0 < i || (i0 == i && j0 < j)) ==> EdgeHas(s, n, i0, j0, colour, a)
  }

  lemma LiteralMore(c: seq<int>, s: seq<nat>, n: nat, minus: bool, i: nat, j: nat)
    requires Increasing(s) && Nodes(s, n) && i < j < |s| && ExcludesSoFar(c, s, n, minus, i, j)
    ensures ExcludesSoFar(c + [if minus then -Edge(n, s[i], s[j]) else Edge(n, s[i], s[j])], s, n, minus, i, j + 1)
  {
    var lit := if minus then -Edge(n, s[i], s[j]) else Edge(n, s[i], s[j]);
    EdgeBound(n, s[i], s[j]);
    forall a: Assignment ensures ClauseTrue(c + [lit], a) <==> !ColourSoFar(s, n, minus, i, j + 1, a) {
      ClauseMore(c, lit, a);
      assert LitTrue(lit, a) <==> !EdgeHas(s, n, i, j, minus, a);
    }
  }

  lemma ClauseMore(c: seq<int>, lit: int, a: Assignment)
    ensures ClauseTrue(c + [lit], a) <==> ClauseTrue(c, a) || LitTrue(lit, a)
  {
    if k :| 0 <= k < |c| && LitTrue(c[k], a) {
      assert LitTrue((c + [lit])[k], a);
    }
    assert (c + [lit])[|c|] == lit;
  }

  // The two loops over the nodes in arr.
  method PrintClique(arr: array<nat>, out: nat, edges: array2<int>, n: nat, minus: bool) returns (c: seq<int>)
    requires out <= arr.Length && EdgesSet(edges, n) && Increasing(arr[..out]) && Nodes(arr[..out], n)
    ensures Excludes(c, arr[..out], n, minus)
  {
    c := [];
    ghost var s := arr[..out];
    for i: nat := 0 to out
      invariant ExcludesSoFar(c, s, n, minus, i, i + 1)
    {
      for j: nat := i + 1 to out
        invariant ExcludesSoFar(c, s, n, minus, i, j)
      {
        LiteralMore(c, s, n, minus, i, j);
        assert s[i] == arr[i] && s[j] == arr[j] && 1 <= s[i] < s[j] <= n;
        c := c + [if minus then -edges[arr[i], arr[j]] else edges[arr[i], arr[j]]];
      }
      RowDone(c, s, n, minus, i);
    }
    forall a: Assignment ensures ColourSoFar(s, n, minus, out, out + 1, a) <==> OneColour(s, n, minus, a) {
    }
  }

  lemma RowDone(c: seq<int>, s: seq<nat>, n: nat, minus: bool, i: nat)
    requires Increasing(s) && Nodes(s, n) && i < |s| && ExcludesSoFar(c, s, n, minus, i, |s|)
    ensures ExcludesSoFar(c, s, n, minus, i + 1, i + 2)
  {
    forall a: Assignment ensures ColourSoFar(s, n, minus, i, |s|, a) <==> ColourSoFar(s, n, minus, i + 1, i + 2, a) {
    }
  }

  // One clause for each choice, in the same order.
  ghost predicate Printed(out: seq<seq<int>>, choices: seq<seq<nat>>, n: nat, minus: bool) {
    && |out| == |choices|
    && forall m :: 0 <= m < |out| ==> Increasing(choices[m]) && Nodes(choices[m], n) && Excludes(out[m], choices[m], n, minus)
  }

  lemma PrintedAppend(out: seq<seq<int>>, more: seq<seq<int>>, choices: seq<seq<nat>>, further: seq<seq<nat>>, n: nat, minus: bool)
    requires Printed(out, choices, n, minus) && Printed(more, further, n, minus)
    ensures Printed(out + more, choices + further, n, minus)
  {
  }

  lemma PrintedHalves(out: seq<seq<int>>, more: seq<seq<int>>, n: nat, k: nat, current: nat, chosen: seq<nat>, minus: bool)
    requires current <= n && |chosen| != k
    requires Printed(out, Choices(n, k, current + 1, chosen), n, minus)
    requires Printed(more, Choices(n, k, current + 1, chosen + [current]), n, minus)
    ensures Printed(out + more, Choices(n, k, current, chosen), n, minus)
  {
    Unfolded(n, k, current, chosen);
    PrintedAppend(out, more, Choices(n, k, current + 1, chosen), Choices(n, k, current + 1, chosen + [current]), n, minus);
  }

  // print_clauses: one array for all choices, its first out entries are the ones made.
  method PrintClauses(arr: array<nat>, edges: array2<int>, n: nat, k: nat, minus: bool, current: nat, out: nat) returns (printed: seq<seq<int>>)
    requires out <= k <= arr.Length && 1 <= current <= n + 1 && EdgesSet(edges, n)
    requires Chosen(n, current, arr[..out])
    modifies arr
    ensures arr[..out] == old(arr[..out])
    ensures Printed(printed, Choices(n, k, current, arr[..out]), n, minus)
    decreases n + 1 - current
  {
    if out == k {
      var c := PrintClique(arr, out, edges, n, minus);
      return [c];
    }
    if current > n {
      return [];
    }
    ghost var chosen := arr[..out];
    ChooseOn(n, current, chosen);
    printed := PrintClauses(arr, edges, n, k, minus, current + 1, out);
    arr[out] := current;
    assert arr[..out + 1] == chosen + [current];
    var more := PrintClauses(arr, edges, n, k, minus, current + 1, out + 1);
    assert arr[..out] == arr[..out + 1][..out] == chosen;
    PrintedHalves(printed, more, n, k, current, chosen, minus);
    printed := printed + more;
  }

  // ----- the whole formula -----

  // No k nodes have all their edges of that colour.
  ghost predicate NoClique(n: nat, k: nat, colour: bool, a: Assignment) {
    forall s :: IsChoice(n, k, s) ==> !OneColour(s, n, colour, a)
  }

  lemma PrintedSays(out: seq<seq<int>>, n: nat, k: nat, minus: bool, a: Assignment)
    requires Printed(out, Choices(n, k, 1, []), n, minus)
    ensures AllTrue(out, a) <==> NoClique(n, k, minus, a)
  {
    var choices := Choices(n, k, 1, []);
    if AllTrue(out, a) {
      forall s | IsChoice(n, k, s) ensures !OneColour(s, n, minus, a) {
        ChoicesExact(n, k, 1, [], s);
        var m :| 0 <= m < |choices| && choices[m] == s;
        assert ClauseTrue(out[m], a);
      }
    }
    if NoClique(n, k, minus, a) {
      forall m | 0 <= m < |out| ensures ClauseTrue(out[m], a) {
        assert choices[m] in choices;
        ChoicesExact(n, k, 1, [], choices[m]);
      }
    }
  }

  // The header counts the edges and the clauses that follow; the models are the
  // colourings without the two cliques.
  method Rn(arr: array<nat>, edges: array2<int>, n: nat, k: nat, l: nat) returns (vars: int, clauses: int, out: seq<seq<int>>)
    requires k <= arr.Length && l <= arr.Length && n < edges.Length0 && n < edges.Length1
    modifies arr, edges
    ensures vars == n * (n - 1) / 2 && clauses == |out|
    ensures forall m :: 0 <= m < |out| ==> Fits(out[m], vars)
    ensures forall a: Assignment :: AllTrue(out, a) <==> NoClique(n, k, false, a) && NoClique(n, l, true, a)
  {
    var edge_counter := NumberEdges(edges, n);
    BeforeClosed(n, n + 1);
    vars := edge_counter - 1;
    var c := C(k, n);
    var d := C(l, n);
    clauses := c + d;
    var plus := PrintClauses(arr, edges, n, k, false, 1, 0);
    ChoicesCount(n, k, 1, []);
    assert arr[..0] == [];
    var minus := PrintClauses(arr, edges, n, l, true, 1, 0);
    ChoicesCount(n, l, 1, []);
    out := plus + minus;
    forall a: Assignment ensures AllTrue(out, a) <==> NoClique(n, k, false, a) && NoClique(n, l, true, a) {
      AllTrueAppend(plus, minus, a);
      PrintedSays(plus, n, k, false, a);
      PrintedSays(minus, n, l, true, a);
    }
  }

  // ----- colourings -----

  // Every clique of k nodes has an edge in red, every clique of l nodes one outside.
  ghost predicate Avoids(red: iset<(nat, nat)>, n: nat, k: nat, l: nat) {
    && (forall s :: IsChoice(n, k, s) ==> !Mono(s, red, false))
    && (forall s :: IsChoice(n, l, s) ==> !Mono(s, red, true))
  }

  ghost predicate Mono(s: seq<nat>, red: iset<(nat, nat)>, colour: bool) {
    forall i, j :: 0 <= i < j < |s| ==> ((s[i], s[j]) in red) == colour
  }

  ghost function Reds(n: nat, a: Assignment): iset<(nat, nat)> {
    iset i: nat, j: nat | 1 <= i < j <= n && EdgeIn(n, i, j, a) :: (i, j)
  }

  ghost function AssignmentOf(n: nat, red: iset<(nat, nat)>): Assignment {
    iset v: nat | RedEdge(n, red, v)
  }

  ghost predicate RedEdge(n: nat, red: iset<(nat, nat)>, v: nat) {
    exists i: nat, j: nat :: (i, j) in red && 1 <= i < j <= n && Edge(n, i, j) == v
  }

  lemma EdgeRed(n: nat, red: iset<(nat, nat)>, i: nat, j: nat)
    requires 1 <= i < j <= n
    ensures EdgeIn(n, i, j, AssignmentOf(n, red)) <==> (i, j) in red
  {
    EdgeBound(n, i, j);
    if RedEdge(n, red, Edge(n, i, j) as nat) {
      var i', j' :| (i', j') in red && 1 <= i' < j' <= n && Edge(n, i', j') == Edge(n, i, j);
      EdgeInjective(n, i, j, i', j');
    }
  }

  // The formula has a model if and only if the edges can be coloured like that.
  lemma SatisfiableExactly(n: nat, k: nat, l: nat)
    ensures (exists a: Assignment :: NoClique(n, k, false, a) && NoClique(n, l, true, a)) <==> exists red :: Avoids(red, n, k, l)
  {
    if a: Assignment :| NoClique(n, k, false, a) && NoClique(n, l, true, a) {
      var red := Reds(n, a);
      forall s, colour | Increasing(s) && Nodes(s, n) ensures Mono(s, red, colour) <==> OneColour(s, n, colour, a) {
        SameColour(s, n, colour, red, a);
      }
      assert Avoids(red, n, k, l);
    }
    if red :| Avoids(red, n, k, l) {
      var a := AssignmentOf(n, red);
      forall s, colour | Increasing(s) && Nodes(s, n) ensures Mono(s, red, colour) <==> OneColour(s, n, colour, a) {
        forall i: nat, j: nat | 1 <= i < j <= n ensures EdgeIn(n, i, j, a) <==> (i, j) in red {
          EdgeRed(n, red, i, j);
        }
        SameColour(s, n, colour, red, a);
      }
      assert NoClique(n, k, false, a) && NoClique(n, l, true, a);
    }
  }

  lemma SameColour(s: seq<nat>, n: nat, colour: bool, red: iset<(nat, nat)>, a: Assignment)
    requires Increasing(s) && Nodes(s, n)
    requires forall i: nat, j: nat :: 1 <= i < j <= n ==> (EdgeIn(n, i, j, a) <==> (i, j) in red)
    ensures Mono(s, red, colour) <==> OneColour(s, n, colour, a)
  {
    forall i, j | 0 <= i < j < |s| ensures EdgeHas(s, n, i, j, colour, a) <==> ((s[i], s[j]) in red) == colour {
      assert 1 <= s[i] < s[j] <= n;
    }
  }
}
