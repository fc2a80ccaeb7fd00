// bdd2cnf (src/formats/bdd2cnf.cc): one made-up variable per inner node of a shared
// diagram, at most four clauses each.

module Tseitin {
  import opened Bdd
  import opened Clauses

  // A node of the table.  Only tmp_int changes; tree is what the node means.
  class BDDNode {
    const variable: nat
    const thenCase: BDDNode?
    const elseCase: BDDNode?
    ghost const tree: Bdd
    var tmp_int: int

    constructor (variable: nat, thenCase: BDDNode?, elseCase: BDDNode?, ghost tree: Bdd)
      ensures this.variable == variable && this.thenCase == thenCase && this.elseCase == elseCase
      ensures this.tree == tree && tmp_int == 0
    {
      this.variable, this.thenCase, this.elseCase, this.tree := variable, thenCase, elseCase, tree;
      tmp_int := 0;
    }
  }

  // The table around the node: one object for each terminal.
  ghost predicate Wf(n: BDDNode, t: BDDNode, f: BDDNode)
    decreases n.tree
  {
    && (n.tree.True? <==> n == t)
    && (n.tree.False? <==> n == f)
    && (n.tree.Node? ==>
          && n.thenCase != null && n.elseCase != null
          && n.tree == Node(n.variable, n.thenCase.tree, n.elseCase.tree)
          && Wf(n.thenCase, t, f) && Wf(n.elseCase, t, f))
  }

  // The inner nodes under n.
  ghost function Nodes(n: BDDNode, t: BDDNode, f: BDDNode): set<BDDNode>
    requires Wf(n, t, f)
    decreases n.tree
  {
    if n.tree.Node? then {n} + Nodes(n.thenCase, t, f) + Nodes(n.elseCase, t, f) else {}
  }

  predicate IsLiteral(g: Bdd) {
    g.Node? && ((g.hi.True? && g.lo.False?) || (g.hi.False? && g.lo.True?))
  }

  // ----- clauses, written in the order of their variables -----

  function AbsOf(x: int): nat { if x < 0 then -x else x }

  function Order2(i: int, v: int): seq<int> {
    if AbsOf(i) < AbsOf(v) then [i, v] else [v, i]
  }

  function Order3(i: int, v: int, w: int): seq<int> {
    if AbsOf(i) < AbsOf(v) then
      if AbsOf(i) < AbsOf(w) then
        if AbsOf(v) < AbsOf(w) then [i, v, w] else [i, w, v]
      else [w, i, v]
    else if AbsOf(w) < AbsOf(v) then [w, v, i]
    else if AbsOf(i) < AbsOf(w) then [v, i, w] else [v, w, i]
  }

  lemma OrderTrue(i: int, v: int, w: int, b: Assignment)
    ensures ClauseTrue(Order2(i, v), b) <==> LitTrue(i, b) || LitTrue(v, b)
    ensures ClauseTrue(Order3(i, v, w), b) <==> LitTrue(i, b) || LitTrue(v, b) || LitTrue(w, b)
  {
    var c, d := Order2(i, v), Order3(i, v, w);
    assert ClauseTrue(c, b) <==> LitTrue(c[0], b) || LitTrue(c[1], b);
    assert ClauseTrue(d, b) <==> LitTrue(d[0], b) || LitTrue(d[1], b) || LitTrue(d[2], b);
  }

  // The numbers standing for the constants.
  function T(numinp: nat): int { numinp + 2 }
  function F(numinp: nat): int { numinp + 3 }

  // (i, v, !e) (i, !v, !t) (!i, v, e) (!i, !v, t), with constants left out.
  function NodeClauses(i: int, v: nat, t: int, e: int, numinp: nat): seq<seq<int>> {
    (if e == T(numinp) then [Order2(i, v)] else if e != F(numinp) then [Order3(i, v, -e)] else [])
    + (if t == T(numinp) then [Order2(i, -(v as int))] else if t != F(numinp) then [Order3(i, -(v as int), -t)] else [])
    + (if e == F(numinp) then [Order2(-i, v)] else if e != T(numinp) then [Order3(-i, v, e)] else [])
    + (if t == F(numinp) then [Order2(-i, -(v as int))] else if t != T(numinp) then [Order3(-i, -(v as int), t)] else [])
  }

  // cl_cnt goes up by one for each clause; a constant child saves one or the other.
  function ClauseCount(t: int, e: int, numinp: nat): nat {
    (if e == F(numinp) then 0 else 1) + (if t == F(numinp) then 0 else 1)
    + (if e == T(numinp) then 0 else 1) + (if t == T(numinp) then 0 else 1)
  }

  lemma CountRight(i: int, v: nat, t: int, e: int, numinp: nat)
    ensures |NodeClauses(i, v, t, e, numinp)| == ClauseCount(t, e, numinp)
  {
  }

  // What a child number means to the clauses.
  ghost predicate ChildTrue(x: int, numinp: nat, b: Assignment) {
    x == T(numinp) || (x != F(numinp) && LitTrue(x, b))
  }

  lemma AllTrueOne(c: seq<int>, b: Assignment)
    ensures AllTrue([c], b) <==> ClauseTrue(c, b)
  {
    assert [c][0] == c;
  }

  lemma ElsePart(i: int, v: nat, e: int, numinp: nat, b: Assignment)
    requires i > 0 && v > 0 && e != 0
    ensures AllTrue(if e == T(numinp) then [Order2(i, v)] else if e != F(numinp) then [Order3(i, v, -e)] else [], b)
            <==> v in b || !ChildTrue(e, numinp, b) || i in b
    ensures AllTrue(if e == F(numinp) then [Order2(-i, v)] else if e != T(numinp) then [Order3(-i, v, e)] else [], b)
            <==> v in b || ChildTrue(e, numinp, b) || i !in b
  {
    OrderTrue(i, v, -e, b);
    OrderTrue(-i, v, e, b);
    AllTrueOne(Order2(i, v), b);
    AllTrueOne(Order3(i, v, -e), b);
    AllTrueOne(Order2(-i, v), b);
    AllTrueOne(Order3(-i, v, e), b);
  }

  lemma ThenPart(i: int, v: nat, t: int, numinp: nat, b: Assignment)
    requires i > 0 && v > 0 && t != 0
    ensures AllTrue(if t == T(numinp) then [Order2(i, -(v as int))] else if t != F(numinp) then [Order3(i, -(v as int), -t)] else [], b)
            <==> v !in b || !ChildTrue(t, numinp, b) || i in b
    ensures AllTrue(if t == F(numinp) then [Order2(-i, -(v as int))] else if t != T(numinp) then [Order3(-i, -(v as int), t)] else [], b)
            <==> v !in b || ChildTrue(t, numinp, b) || i !in b
  {
    OrderTrue(i, -(v as int), -t, b);
    OrderTrue(-i, -(v as int), t, b);
    AllTrueOne(Order2(i, -(v as int)), b);
    AllTrueOne(Order3(i, -(v as int), -t), b);
    AllTrueOne(Order2(-i, -(v as int)), b);
    AllTrueOne(Order3(-i, -(v as int), t), b);
  }

  // The clauses of a node define its number.
  lemma NodeClausesDefine(i: int, v: nat, t: int, e: int, numinp: nat, b: Assignment)
    requires i > 0 && v > 0 && t != 0 && e != 0
    ensures AllTrue(NodeClauses(i, v, t, e, numinp), b) <==>
            (i in b <==> if v in b then ChildTrue(t, numinp, b) else ChildTrue(e, numinp, b))
  {
    var c1 := if e == T(numinp) then [Order2(i, v)] else if e != F(numinp) then [Order3(i, v, -e)] else [];
    var c2 := if t == T(numinp) then [Order2(i, -(v as int))] else if t != F(numinp) then [Order3(i, -(v as int), -t)] else [];
    var c3 := if e == F(numinp) then [Order2(-i, v)] else if e != T(numinp) then [Order3(-i, v, e)] else [];
    var c4 := if t == F(numinp) then [Order2(-i, -(v as int))] else if t != T(numinp) then [Order3(-i, -(v as int), t)] else [];
    AllTrueAppend(c1 + c2 + c3, c4, b);
    AllTrueAppend(c1 + c2, c3, b);
    AllTrueAppend(c1, c2, b);
    ElsePart(i, v, e, numinp, b);
    ThenPart(i, v, t, numinp, b);
  }

  // ----- definitions: made-up variable base + k stands for defs[k] -----

  ghost predicate Defined(defs: seq<Bdd>, base: nat, b: Assignment) {
    forall k :: 0 <= k < |defs| ==> (base + k in b <==> Eval(defs[k], b))
  }

  // All definitions are over variables before base.
  ghost predicate OverOriginal(defs: seq<Bdd>, base: nat) {
    forall k :: 0 <= k < |defs| ==> forall v :: v in Support(defs[k]) ==> 1 <= v < base
  }

  // An assignment of the original variables has one extension, and only one.
  ghost function Extension(defs: seq<Bdd>, base: nat, a: Assignment): Assignment {
    iset v: nat | if v < base then v in a else v - base < |defs| && Eval(defs[v - base], a)
  }

  lemma ExtensionDefines(defs: seq<Bdd>, base: nat, a: Assignment)
    requires OverOriginal(defs, base)
    ensures Defined(defs, base, Extension(defs, base, a))
    ensures forall v: nat :: v < base ==> (v in Extension(defs, base, a) <==> v in a)
  {
    forall k | 0 <= k < |defs| ensures Eval(defs[k], Extension(defs, base, a)) == Eval(defs[k], a) {
      EvalSupport(defs[k], Extension(defs, base, a), a);
    }
  }

  lemma ExtensionUnique(defs: seq<Bdd>, base: nat, a: Assignment, b: Assignment)
    requires OverOriginal(defs, base) && Defined(defs, base, b)
    requires forall v: nat :: v < base ==> (v in b <==> v in a)
    ensures forall v: nat :: v < base + |defs| ==> (v in b <==> v in Extension(defs, base, a))
  {
    forall v: nat | base <= v < base + |defs| ensures v in b <==> v in Extension(defs, base, a) {
      assert base + (v - base) == v;
      EvalSupport(defs[v - base], a, b);
    }
  }

  // ----- diagrams read through the numbers T and F -----

  // g' is g with some inner diagrams mistaken for constants.
  ghost predicate Mistaken(g: Bdd, g': Bdd) {
    || g == g'
    || (g.Node? && (g'.True? || g'.False?))
    || (g.Node? && g'.Node? && g.v == g'.v && Mistaken(g.hi, g'.hi) && Mistaken(g.lo, g'.lo))
  }

  lemma {:induction false} MistakenSupport(g: Bdd, g': Bdd)
    requires Mistaken(g, g')
    ensures Support(g') <= Support(g)
  {
    if g != g' && g'.Node? {
      MistakenSupport(g.hi, g'.hi);
      MistakenSupport(g.lo, g'.lo);
    }
  }

  // A mistake shows: some assignment gets the wrong value.
  lemma {:induction false} MistakeShows(g: Bdd, g': Bdd) returns (a: Assignment)
    requires Robdd(g) && Mistaken(g, g') && g != g'
    ensures Eval(g, a) != Eval(g', a)
  {
    if !g'.Node? {
      a := Distinguish(g, g');
    } else {
      var left := g.hi != g'.hi;
      var c, c' := if left then g.hi else g.lo, if left then g'.hi else g'.lo;
      var a0 := MistakeShows(c, c');
      a := if left then a0 + iset{g.v} else a0 - iset{g.v};
      SupportBelowTop(c);
      MistakenSupport(c, c');
      EvalSupport(c, a0, a);
      EvalSupport(c', a0, a);
    }
  }

  // ----- numbers of nodes -----

  datatype Env = Env(t: BDDNode, f: BDDNode, numinp: nat, base: nat)

  // The number the clauses of a parent use for n.
  ghost function Code(n: BDDNode, env: Env): int
    reads n
  {
    if n == env.t then T(env.numinp) else if n == env.f then F(env.numinp) else n.tmp_int
  }

  // The diagram that number x of a node with diagram g stands for.
  ghost function Stands(x: int, g: Bdd, env: Env, defs: seq<Bdd>): Bdd {
    if IsLiteral(g) then g else if env.base <= x < env.base + |defs| then defs[x - env.base] else False
  }

  // What the clauses of a parent make of it.
  ghost function Seen(x: int, g: Bdd, env: Env, defs: seq<Bdd>): Bdd {
    if x == T(env.numinp) then True else if x == F(env.numinp) then False else Stands(x, g, env, defs)
  }

  ghost function Mean(n: BDDNode, env: Env, defs: seq<Bdd>): Bdd
    reads n
  {
    Stands(n.tmp_int, n.tree, env, defs)
  }

  ghost function Read(n: BDDNode, env: Env, defs: seq<Bdd>): Bdd
    reads n
  {
    Seen(Code(n, env), n.tree, env, defs)
  }

  // A made-up variable is taken for a constant.
  ghost predicate Clash(k: int, env: Env) {
    env.base + k == T(env.numinp) || env.base + k == F(env.numinp)
  }

  ghost predicate Below(c: BDDNode, n: BDDNode)
    reads c, n
  {
    c.tree.Node? ==> c.tmp_int != 0 && (!IsLiteral(c.tree) ==> c.tmp_int < n.tmp_int)
  }

  ghost predicate Labelled(n: BDDNode, env: Env, defs: seq<Bdd>)
    reads n, n.thenCase, n.elseCase
  {
    && n.tree.Node? && n.thenCase != null && n.elseCase != null
    && if IsLiteral(n.tree) then n.tmp_int == if n.tree.hi.True? then n.variable else -(n.variable as int)
       else
         && env.base <= n.tmp_int < env.base + |defs|
         && Below(n.thenCase, n) && Below(n.elseCase, n)
         && Mean(n, env, defs) == Node(n.variable, Read(n.thenCase, env, defs), Read(n.elseCase, env, defs))
         && Mistaken(n.tree, Mean(n, env, defs))
         && ((forall k :: 0 <= k < n.tmp_int - env.base ==> !Clash(k, env)) ==> Mean(n, env, defs) == n.tree)
  }

  ghost predicate Shared(n: BDDNode, env: Env) {
    && Wf(n, env.t, env.f) && Robdd(n.tree)
    && forall v :: v in Support(n.tree) ==> v < env.base && v <= env.numinp
  }

  // The nodes of all diagrams, in a consistent state.
  ghost predicate State(u: set<BDDNode>, env: Env, defs: seq<Bdd>)
    reads u, env.t, env.f
  {
    && env.base >= 1 && env.t != env.f && env.t !in u && env.f !in u
    && env.t.tmp_int == 0 && env.f.tmp_int == 0
    && OverOriginal(defs, env.base)
    && forall n :: n in u ==>
         && Shared(n, env) && n.tree.Node?
         && (n.thenCase in u || n.thenCase == env.t || n.thenCase == env.f)
         && (n.elseCase in u || n.elseCase == env.t || n.elseCase == env.f)
         && (n.tmp_int != 0 ==> Labelled(n, env, defs))
  }

  // ----- the order of numbering -----

  // The nodes numbered once n is printed after the ones in seen: the else part first,
  // then the then part, then n itself; literals need no number.
  ghost function Order(n: BDDNode, t: BDDNode, f: BDDNode, seen: seq<BDDNode>): (s: seq<BDDNode>)
    requires Wf(n, t, f)
    ensures seen <= s
    decreases n.tree
  {
    if !n.tree.Node? || IsLiteral(n.tree) || n in seen then seen
    else Order(n.thenCase, t, f, Order(n.elseCase, t, f, seen)) + [n]
  }

  ghost predicate HasNumber(n: BDDNode)
    reads n
  {
    !IsLiteral(n.tree) && n.tmp_int != 0
  }

  ghost predicate NumberedAs(n: BDDNode, x: int, u: set<BDDNode>)
    reads u
  {
    n in u && !IsLiteral(n.tree) && n.tmp_int == x
  }

  // The owners are the numbered nodes, and their numbers count up from base.
  ghost predicate Owned(u: set<BDDNode>, env: Env, defs: seq<Bdd>, owners: seq<BDDNode>)
    reads u
  {
    && |owners| == |defs|
    && (forall k :: 0 <= k < |owners| ==> NumberedAs(owners[k], env.base + k, u))
    && forall n :: n in u && HasNumber(n) ==> n in owners
  }

  // The order after a node, from the one after its children.
  lemma OrderStep(n: BDDNode, env: Env, owners: seq<BDDNode>, owners1: seq<BDDNode>, numbered: bool)
    requires Shared(n, env) && n.tree.Node? && !IsLiteral(n.tree) && (numbered <==> n in owners)
    requires owners1 == Order(n.thenCase, env.t, env.f, Order(n.elseCase, env.t, env.f, owners))
    requires numbered ==> |owners1| == |owners|
    ensures owners <= owners1
    ensures Order(n, env.t, env.f, owners) == if numbered then owners1 else owners1 + [n]
  {
    if numbered {
      assert owners1 == owners;
    }
  }

  // Numbers mean what they stand for, wherever the definitions hold.
  lemma MeanTrue(n: BDDNode, env: Env, defs: seq<Bdd>, b: Assignment)
    requires Shared(n, env) && Labelled(n, env, defs) && Defined(defs, env.base, b) && env.base >= 1
    ensures n.tmp_int != 0 && (LitTrue(n.tmp_int, b) <==> Eval(Mean(n, env, defs), b))
  {
    if !IsLiteral(n.tree) {
      assert env.base + (n.tmp_int - env.base) == n.tmp_int;
    }
  }

  lemma ReadTrue(n: BDDNode, env: Env, defs: seq<Bdd>, b: Assignment)
    requires Shared(n, env) && Defined(defs, env.base, b) && env.base >= 1
    requires n.tree.Node? ==> Labelled(n, env, defs)
    ensures Code(n, env) != 0 && (ChildTrue(Code(n, env), env.numinp, b) <==> Eval(Read(n, env, defs), b))
  {
    if n.tree.Node? {
      MeanTrue(n, env, defs, b);
    }
  }

  lemma ReadMistaken(n: BDDNode, env: Env, defs: seq<Bdd>)
    requires Shared(n, env) && (n.tree.Node? ==> Labelled(n, env, defs))
    ensures Mistaken(n.tree, Read(n, env, defs))
  {
  }

  // A literal's number is its own variable, never T or F.
  lemma ReadLiteral(n: BDDNode, env: Env, defs: seq<Bdd>)
    requires Shared(n, env) && n.tree.Node? && IsLiteral(n.tree) && Labelled(n, env, defs)
    ensures Read(n, env, defs) == n.tree
  {
    assert n.variable in Support(n.tree);
  }

  // Without a clash among the numbers below, a child is read as it is.
  lemma ReadClean(c: BDDNode, n: BDDNode, env: Env, defs: seq<Bdd>)
    requires Shared(c, env) && (c.tree.Node? ==> Labelled(c, env, defs)) && Below(c, n)
    requires forall k :: 0 <= k < n.tmp_int - env.base ==> !Clash(k, env)
    ensures Read(c, env, defs) == c.tree
  {
    if c.tree.Node? {
      if IsLiteral(c.tree) {
        ReadLiteral(c, env, defs);
      } else {
        assert !Clash(c.tmp_int - env.base, env);
      }
    }
  }

  // ----- bdd2cnf -----

  lemma ChildrenShared(n: BDDNode, env: Env)
    requires Shared(n, env) && n.tree.Node?
    ensures Shared(n.thenCase, env) && Shared(n.elseCase, env)
    ensures (n.thenCase.tree.True? <==> n.thenCase == env.t) && (n.thenCase.tree.False? <==> n.thenCase == env.f)
    ensures (n.elseCase.tree.True? <==> n.elseCase == env.t) && (n.elseCase.tree.False? <==> n.elseCase == env.f)
  {
    assert Support(n.thenCase.tree) <= Support(n.tree) && Support(n.elseCase.tree) <= Support(n.tree);
  }

  lemma MeanGrows(n: BDDNode, env: Env, defs: seq<Bdd>, g: Bdd)
    requires Shared(n, env) && (n.tree.Node? ==> Labelled(n, env, defs))
    ensures Read(n, env, defs + [g]) == Read(n, env, defs)
    ensures n.tree.Node? ==> Mean(n, env, defs + [g]) == Mean(n, env, defs)
  {
  }

  // What a new number is given: its definition and what holds of it.
  lemma NewLabel(n: BDDNode, env: Env, defs: seq<Bdd>)
    requires Shared(n, env) && n.tree.Node? && !IsLiteral(n.tree)
    requires (n.thenCase.tree.Node? ==> Labelled(n.thenCase, env, defs)) && (n.elseCase.tree.Node? ==> Labelled(n.elseCase, env, defs))
    requires n.tmp_int == env.base + |defs| && env.base >= 1
    ensures Labelled(n, env, defs + [Node(n.variable, Read(n.thenCase, env, defs), Read(n.elseCase, env, defs))])
  {
    var g := Node(n.variable, Read(n.thenCase, env, defs), Read(n.elseCase, env, defs));
    var defs' := defs + [g];
    ChildrenShared(n, env);
    MeanGrows(n.thenCase, env, defs, g);
    MeanGrows(n.elseCase, env, defs, g);
    ReadMistaken(n.thenCase, env, defs);
    ReadMistaken(n.elseCase, env, defs);
    assert Below(n.thenCase, n) && Below(n.elseCase, n);
    if forall k :: 0 <= k < n.tmp_int - env.base ==> !Clash(k, env) {
      ReadClean(n.thenCase, n, env, defs);
      ReadClean(n.elseCase, n, env, defs);
    }
  }

  // Labels stay as the definitions grow.
  lemma LabelledGrows(n: BDDNode, env: Env, defs: seq<Bdd>, g: Bdd)
    requires Shared(n, env) && Labelled(n, env, defs) && env.base >= 1
    requires n.thenCase.tree.Node? ==> Labelled(n.thenCase, env, defs)
    requires n.elseCase.tree.Node? ==> Labelled(n.elseCase, env, defs)
    ensures Labelled(n, env, defs + [g])
  {
    ChildrenShared(n, env);
    MeanGrows(n.thenCase, env, defs, g);
    MeanGrows(n.elseCase, env, defs, g);
  }

  // The node's clauses, added to ones that already give the definitions,
  // define its own number as well.
  lemma NodeDefines(n: BDDNode, env: Env, defs: seq<Bdd>, g: Bdd, b: Assignment)
    requires Shared(n, env) && n.tree.Node? && env.base >= 1
    requires (n.thenCase.tree.Node? ==> Labelled(n.thenCase, env, defs)) && (n.elseCase.tree.Node? ==> Labelled(n.elseCase, env, defs))
    requires g == Node(n.variable, Read(n.thenCase, env, defs), Read(n.elseCase, env, defs))
    requires Defined(defs, env.base, b)
    ensures Code(n.thenCase, env) != 0 && Code(n.elseCase, env) != 0
    ensures forall i: int :: i > 0 ==>
              (AllTrue(NodeClauses(i, n.variable, Code(n.thenCase, env), Code(n.elseCase, env), env.numinp), b)
               <==> (i in b <==> Eval(g, b)))
  {
    ChildrenShared(n, env);
    ReadTrue(n.thenCase, env, defs, b);
    ReadTrue(n.elseCase, env, defs, b);
    forall i: int | i > 0
      ensures AllTrue(NodeClauses(i, n.variable, Code(n.thenCase, env), Code(n.elseCase, env), env.numinp), b)
              <==> (i in b <==> Eval(g, b))
    {
      NodeClausesDefine(i, n.variable, Code(n.thenCase, env), Code(n.elseCase, env), env.numinp, b);
    }
  }

  // The clauses so far imply the definitions so far.
  ghost predicate Gives(out: seq<seq<int>>, defs: seq<Bdd>, base: nat) {
    forall b: Assignment :: AllTrue(out, b) ==> Defined(defs, base, b)
  }

  // What was added is the new definitions and nothing else.
  ghost predicate Adds(out: seq<seq<int>>, out': seq<seq<int>>, defs': seq<Bdd>, base: nat) {
    forall b: Assignment :: AllTrue(out', b) <==> AllTrue(out, b) && Defined(defs', base, b)
  }

  lemma AddsTransitive(out: seq<seq<int>>, out1: seq<seq<int>>, out2: seq<seq<int>>,
                       defs1: seq<Bdd>, defs2: seq<Bdd>, base: nat)
    requires Adds(out, out1, defs1, base) && Adds(out1, out2, defs2, base) && defs1 <= defs2
    ensures Adds(out, out2, defs2, base)
  {
    forall b: Assignment | Defined(defs2, base, b) ensures Defined(defs1, base, b) {
      forall k | 0 <= k < |defs1| ensures base + k in b <==> Eval(defs1[k], b) {
        assert defs1[k] == defs2[k];
      }
    }
  }

  // The clauses of n, appended to ones that give the definitions of its children.
  lemma NodeAdds(n: BDDNode, i: int, env: Env, out: seq<seq<int>>, defs: seq<Bdd>, defs': seq<Bdd>)
    requires Shared(n, env) && n.tree.Node? && env.base >= 1 && Gives(out, defs, env.base)
    requires (n.thenCase.tree.Node? ==> Labelled(n.thenCase, env, defs)) && (n.elseCase.tree.Node? ==> Labelled(n.elseCase, env, defs))
    requires defs <= defs' <= defs + [Node(n.variable, Read(n.thenCase, env, defs), Read(n.elseCase, env, defs))]
    requires env.base <= i < env.base + |defs'| && (defs' != defs ==> i == env.base + |defs|)
    requires defs'[i - env.base] == Node(n.variable, Read(n.thenCase, env, defs), Read(n.elseCase, env, defs))
    ensures Code(n.thenCase, env) != 0 && Code(n.elseCase, env) != 0
    ensures Adds(out, out + NodeClauses(i, n.variable, Code(n.thenCase, env), Code(n.elseCase, env), env.numinp), defs', env.base)
  {
    var g := Node(n.variable, Read(n.thenCase, env, defs), Read(n.elseCase, env, defs));
    ChildrenNumbered(n, env, defs);
    var c := NodeClauses(i, n.variable, Code(n.thenCase, env), Code(n.elseCase, env), env.numinp);
    forall b: Assignment ensures AllTrue(out + c, b) <==> AllTrue(out, b) && Defined(defs', env.base, b) {
      AllTrueAppend(out, c, b);
      if Defined(defs, env.base, b) {
        NodeDefines(n, env, defs, g, b);
        assert env.base + (i - env.base) == i;
      } else {
        DefinedPrefix(defs, defs', env.base, b);
      }
    }
  }

  lemma ChildrenNumbered(n: BDDNode, env: Env, defs: seq<Bdd>)
    requires Shared(n, env) && n.tree.Node? && env.base >= 1
    requires (n.thenCase.tree.Node? ==> Labelled(n.thenCase, env, defs)) && (n.elseCase.tree.Node? ==> Labelled(n.elseCase, env, defs))
    ensures Code(n.thenCase, env) != 0 && Code(n.elseCase, env) != 0
  {
    ChildrenShared(n, env);
  }

  lemma DefinedPrefix(defs: seq<Bdd>, defs': seq<Bdd>, base: nat, b: Assignment)
    requires defs <= defs'
    ensures Defined(defs', base, b) ==> Defined(defs, base, b)
  {
    assert forall k :: 0 <= k < |defs| ==> defs[k] == defs'[k];
  }

  // The number a literal node gets is its literal.
  method NumberLiteral(n: BDDNode, i: int, env: Env, ghost u: set<BDDNode>, ghost defs: seq<Bdd>, ghost owners: seq<BDDNode>)
    requires State(u, env, defs) && Owned(u, env, defs, owners) && n in u && IsLiteral(n.tree)
    requires i == if n.tree.hi.True? then n.variable else -(n.variable as int)
    modifies n
    ensures State(u, env, defs) && Owned(u, env, defs, owners) && Labelled(n, env, defs) && n.tmp_int == i
    ensures old(n.tmp_int) != 0 ==> n.tmp_int == old(n.tmp_int)
  {
    assert n.variable in Support(n.tree);
    label Before:
    n.tmp_int := i;
    forall k | 0 <= k < |owners| ensures NumberedAs(owners[k], env.base + k, u) {
      assert old@Before(NumberedAs(owners[k], env.base + k, u));
    }
    assert forall m :: m in u && HasNumber(m) ==> old@Before(HasNumber(m));
    forall m | m in u && m.tmp_int != 0 ensures Labelled(m, env, defs) {
      if m != n {
        assert old@Before(Labelled(m, env, defs));
      }
    }
  }

  // The state stays with one definition more.
  lemma StateGrows(n: BDDNode, env: Env, u: set<BDDNode>, defs: seq<Bdd>)
    requires State(u, env, defs) && n in u && !IsLiteral(n.tree)
    requires (n.thenCase.tree.Node? ==> Labelled(n.thenCase, env, defs)) && (n.elseCase.tree.Node? ==> Labelled(n.elseCase, env, defs))
    ensures State(u, env, defs + [Node(n.variable, Read(n.thenCase, env, defs), Read(n.elseCase, env, defs))])
  {
    var g := Node(n.variable, Read(n.thenCase, env, defs), Read(n.elseCase, env, defs));
    NewDefinition(n, env, defs);
    forall m | m in u && m.tmp_int != 0 ensures Labelled(m, env, defs + [g]) {
      LabelledGrows(m, env, defs, g);
    }
  }

  // A fresh number for any other node, once its children have theirs.
  method NumberNode(n: BDDNode, i: int, env: Env, ghost u: set<BDDNode>, ghost defs: seq<Bdd>)
    returns (ghost defs': seq<Bdd>)
    requires State(u, env, defs) && n in u && !IsLiteral(n.tree)
    requires n.tmp_int == 0 && i == env.base + |defs|
    requires (n.thenCase.tree.Node? ==> Labelled(n.thenCase, env, defs)) && (n.elseCase.tree.Node? ==> Labelled(n.elseCase, env, defs))
    modifies n
    ensures n.tmp_int == i
    ensures defs' == defs + [Node(n.variable, old(Read(n.thenCase, env, defs)), old(Read(n.elseCase, env, defs)))]
    ensures State(u, env, defs') && Labelled(n, env, defs')
  {
    defs' := defs + [Node(n.variable, Read(n.thenCase, env, defs), Read(n.elseCase, env, defs))];
    StateGrows(n, env, u, defs);
    label Before:
    n.tmp_int := i;
    NewLabel(n, env, defs);
    forall m | m in u && m.tmp_int != 0 ensures Labelled(m, env, defs') {
      if m != n {
        assert old@Before(Labelled(m, env, defs'));
      }
    }
  }

  lemma NewDefinition(n: BDDNode, env: Env, defs: seq<Bdd>)
    requires Shared(n, env) && n.tree.Node? && OverOriginal(defs, env.base)
    requires (n.thenCase.tree.Node? ==> Labelled(n.thenCase, env, defs)) && (n.elseCase.tree.Node? ==> Labelled(n.elseCase, env, defs))
    ensures OverOriginal(defs + [Node(n.variable, Read(n.thenCase, env, defs), Read(n.elseCase, env, defs))], env.base)
  {
    var l, r := Read(n.thenCase, env, defs), Read(n.elseCase, env, defs);
    ChildrenShared(n, env);
    ReadMistaken(n.thenCase, env, defs);
    ReadMistaken(n.elseCase, env, defs);
    MistakenSupport(n.thenCase.tree, l);
    MistakenSupport(n.elseCase.tree, r);
    SupportBelowTop(n.tree);
    var g := Node(n.variable, l, r);
    assert Support(g) == {n.variable} + Support(l) + Support(r);
    assert Support(g) <= Support(n.tree);
  }

  // Every new number except the last one is a child's: if it is T or F, the
  // parent takes the child for a constant.
  ghost predicate ClashShows(lo: int, hi: int, env: Env, right: bool) {
    right ==> forall k :: lo <= k < hi ==> !Clash(k, env)
  }

  lemma SameAdds(out: seq<seq<int>>, out': seq<seq<int>>, defs: seq<Bdd>, defs': seq<Bdd>, base: nat)
    requires Gives(out, defs, base) && (Adds(out, out', defs', base) || (out' == out && defs' == defs))
    ensures Adds(out, out', defs', base)
  {
  }

  lemma GivesAdds(out: seq<seq<int>>, out': seq<seq<int>>, defs: seq<Bdd>, defs': seq<Bdd>, base: nat)
    requires Gives(out, defs, base) && Adds(out, out', defs', base)
    ensures Gives(out', defs', base)
  {
  }

  // Between two nodes: the clauses so far give the definitions so far, and both are counted.
  ghost predicate Ready(u: set<BDDNode>, env: Env, defs: seq<Bdd>, owners: seq<BDDNode>, curr: int, clCnt: int, out: seq<seq<int>>)
    reads u, env.t, env.f
  {
    && State(u, env, defs) && Owned(u, env, defs, owners)
    && curr == env.base + |defs| && clCnt == |out| && Gives(out, defs, env.base)
  }

  // Reads a child's number, numbering the child first where it has none.
  method ChildNumber(c: BDDNode, curr: int, clCnt: int, out: seq<seq<int>>, env: Env,
                     ghost u: set<BDDNode>, ghost defs: seq<Bdd>, ghost owners: seq<BDDNode>)
    returns (x: int, curr': int, clCnt': int, out': seq<seq<int>>, ghost defs': seq<Bdd>, ghost owners': seq<BDDNode>)
    requires Ready(u, env, defs, owners, curr, clCnt, out) && c in u + {env.t, env.f} && Shared(c, env)
    modifies u
    ensures Ready(u, env, defs', owners', curr', clCnt', out') && owners' == Order(c, env.t, env.f, owners)
    ensures c.tree.Node? ==> Labelled(c, env, defs')
    ensures x == Code(c, env)
    ensures forall n :: n in u && Top(n.tree) > Top(c.tree) ==> n.tmp_int == old(n.tmp_int)
    ensures forall n :: n in u && old(n.tmp_int) != 0 ==> n.tmp_int == old(n.tmp_int)
    ensures defs <= defs' && out <= out' && Adds(out, out', defs', env.base)
    ensures ClashShows(|defs|, |defs'|, env, Read(c, env, defs') == c.tree)
    ensures c == env.t || c == env.f || old(c.tmp_int) != 0 ==> defs' == defs
    decreases c.tree, 3
  {
    x, curr', clCnt', out', defs', owners' := c.tmp_int, curr, clCnt, out, defs, owners;
    if x == 0 {
      if c == env.t {
        x := T(env.numinp);
      } else if c == env.f {
        x := F(env.numinp);
      } else {
        curr', clCnt', out', defs', owners' := Bdd2Cnf(c, curr', clCnt', out', env, u, defs', owners');
        x := c.tmp_int;
      }
    }
    SameAdds(out, out', defs, defs', env.base);
  }

  // What a node with child numbers t and e stands for.
  ghost function Definition(n: BDDNode, t: int, e: int, env: Env, defs: seq<Bdd>): Bdd
    requires n.thenCase != null && n.elseCase != null
  {
    Node(n.variable, Seen(t, n.thenCase.tree, env, defs), Seen(e, n.elseCase.tree, env, defs))
  }

  // The definitions after a node got a number, or already had one.
  ghost function DefsWith(number: int, g: Bdd, defs: seq<Bdd>): seq<Bdd> {
    if number == 0 then defs + [g] else defs
  }

  // The number of a node, a new one if it has none.
  method TakeNumber(n: BDDNode, curr: int, ghost t: int, ghost e: int, env: Env,
                    ghost u: set<BDDNode>, ghost defs: seq<Bdd>, ghost owners: seq<BDDNode>)
    returns (i: int, curr': int, ghost defs': seq<Bdd>, ghost owners': seq<BDDNode>)
    requires State(u, env, defs) && Owned(u, env, defs, owners) && n in u && !IsLiteral(n.tree)
    requires curr == env.base + |defs|
    requires (n.thenCase.tree.Node? ==> Labelled(n.thenCase, env, defs)) && (n.elseCase.tree.Node? ==> Labelled(n.elseCase, env, defs))
    requires t == Code(n.thenCase, env) && e == Code(n.elseCase, env)
    modifies n
    ensures State(u, env, defs') && Labelled(n, env, defs')
    ensures Owned(u, env, defs', owners') && owners' == if old(n.tmp_int) == 0 then owners + [n] else owners
    ensures curr' == env.base + |defs'| && n.tmp_int == i == if old(n.tmp_int) == 0 then curr else old(n.tmp_int)
    ensures defs' == DefsWith(old(n.tmp_int), Definition(n, t, e, env, defs), defs)
    ensures Mean(n, env, defs') == Definition(n, t, e, env, defs)
  {
    i, curr', defs', owners' := n.tmp_int, curr, defs, owners;
    if i == 0 {
      i := curr';
      curr' := curr' + 1;
      label Before:
      defs' := NumberNode(n, i, env, u, defs);
      owners' := owners + [n];
      forall k | 0 <= k < |owners'| ensures NumberedAs(owners'[k], env.base + k, u) {
        if k < |owners| {
          assert old@Before(NumberedAs(owners[k], env.base + k, u));
        }
      }
      forall m | m in u && HasNumber(m) ensures m in owners' {
        if m != n {
          assert old@Before(HasNumber(m));
        }
      }
    }
  }

  method PrintClauses(i: int, v: nat, t: int, e: int, numinp: nat, clCnt: int, out: seq<seq<int>>)
    returns (clCnt': int, out': seq<seq<int>>)
    requires clCnt == |out|
    ensures clCnt' == |out'| && out <= out' && out' == out + NodeClauses(i, v, t, e, numinp)
  {
    CountRight(i, v, t, e, numinp);
    out' := out + NodeClauses(i, v, t, e, numinp);
    clCnt' := clCnt + ClauseCount(t, e, numinp);
  }

  // The clauses of n, appended to ones that give the definitions so far, add its own
  // if that is new.
  lemma EmitAdds(n: BDDNode, curr: int, out: seq<seq<int>>, t: int, e: int, env: Env, u: set<BDDNode>, defs: seq<Bdd>)
    requires State(u, env, defs) && n in u && !IsLiteral(n.tree)
    requires curr == env.base + |defs| && Gives(out, defs, env.base)
    requires (n.thenCase.tree.Node? ==> Labelled(n.thenCase, env, defs)) && (n.elseCase.tree.Node? ==> Labelled(n.elseCase, env, defs))
    requires t == Code(n.thenCase, env) && e == Code(n.elseCase, env)
    ensures Adds(out, out + NodeClauses(if n.tmp_int == 0 then curr else n.tmp_int, n.variable, t, e, env.numinp),
                 DefsWith(n.tmp_int, Definition(n, t, e, env, defs), defs), env.base)
  {
    NodeAdds(n, if n.tmp_int == 0 then curr else n.tmp_int, env, out, defs, DefsWith(n.tmp_int, Definition(n, t, e, env, defs), defs));
  }

  // The last part of bdd2cnf: a number for the node, if it has none, and its clauses.
  method EmitNode(n: BDDNode, curr: int, clCnt: int, out: seq<seq<int>>, t: int, e: int, env: Env,
                  ghost u: set<BDDNode>, ghost defs: seq<Bdd>, ghost owners: seq<BDDNode>)
    returns (curr': int, clCnt': int, out': seq<seq<int>>, ghost defs': seq<Bdd>, ghost owners': seq<BDDNode>)
    requires Ready(u, env, defs, owners, curr, clCnt, out) && n in u && !IsLiteral(n.tree)
    requires (n.thenCase.tree.Node? ==> Labelled(n.thenCase, env, defs)) && (n.elseCase.tree.Node? ==> Labelled(n.elseCase, env, defs))
    requires t == Code(n.thenCase, env) && e == Code(n.elseCase, env)
    modifies n
    ensures Ready(u, env, defs', owners', curr', clCnt', out') && Labelled(n, env, defs')
    ensures owners' == if old(n.tmp_int) == 0 then owners + [n] else owners
    ensures n.tmp_int == if old(n.tmp_int) == 0 then curr else old(n.tmp_int)
    ensures defs' == DefsWith(old(n.tmp_int), Definition(n, t, e, env, defs), defs)
    ensures out <= out' && Adds(out, out', defs', env.base)
    ensures Mean(n, env, defs') == Definition(n, t, e, env, defs)
  {
    EmitAdds(n, curr, out, t, e, env, u, defs);
    var i;
    i, curr', defs', owners' := TakeNumber(n, curr, t, e, env, u, defs, owners);
    clCnt', out' := PrintClauses(i, n.variable, t, e, env.numinp, clCnt, out);
    GivesAdds(out, out', defs, defs', env.base);
  }

  lemma SeenPrefix(x: int, g: Bdd, env: Env, defs: seq<Bdd>, defs': seq<Bdd>)
    requires defs <= defs' && (g.Node? && !IsLiteral(g) ==> env.base <= x < env.base + |defs|)
    requires g.True? ==> x == T(env.numinp)
    requires g.False? ==> x == F(env.numinp)
    ensures Seen(x, g, env, defs') == Seen(x, g, env, defs)
  {
  }

  // The numbers the clauses of a node need: first the else child's, then the then child's.
  method ChildNumbers(bdd: BDDNode, curr: int, clCnt: int, out: seq<seq<int>>, env: Env,
                      ghost u: set<BDDNode>, ghost defs: seq<Bdd>, ghost owners: seq<BDDNode>)
    returns (t: int, e: int, curr': int, clCnt': int, out': seq<seq<int>>, ghost defs': seq<Bdd>, ghost owners': seq<BDDNode>)
    requires Ready(u, env, defs, owners, curr, clCnt, out) && bdd in u && !IsLiteral(bdd.tree)
    modifies u
    ensures Ready(u, env, defs', owners', curr', clCnt', out')
    ensures owners' == Order(bdd.thenCase, env.t, env.f, Order(bdd.elseCase, env.t, env.f, owners))
    ensures (bdd.thenCase.tree.Node? ==> Labelled(bdd.thenCase, env, defs')) && (bdd.elseCase.tree.Node? ==> Labelled(bdd.elseCase, env, defs'))
    ensures t == Code(bdd.thenCase, env) && e == Code(bdd.elseCase, env)
    ensures forall n :: n in u && old(n.tmp_int) != 0 ==> n.tmp_int == old(n.tmp_int)
    ensures forall n :: n in u && Top(n.tree) >= Top(bdd.tree) ==> n.tmp_int == old(n.tmp_int)
    ensures defs <= defs' && out <= out' && Adds(out, out', defs', env.base)
    ensures bdd.tmp_int != 0 ==> defs' == defs
    ensures ClashShows(|defs|, |defs'|, env, Seen(t, bdd.thenCase.tree, env, defs') == bdd.thenCase.tree
                                             && Seen(e, bdd.elseCase.tree, env, defs') == bdd.elseCase.tree)
    decreases bdd.tree, 0
  {
    ChildrenShared(bdd, env);
    assert bdd.tmp_int != 0 ==> Labelled(bdd, env, defs);
    e, curr', clCnt', out', defs', owners' := ChildNumber(bdd.elseCase, curr, clCnt, out, env, u, defs, owners);
    ghost var out1, defs1 := out', defs';
    t, curr', clCnt', out', defs', owners' := ChildNumber(bdd.thenCase, curr', clCnt', out', env, u, defs', owners');
    SeenPrefix(e, bdd.elseCase.tree, env, defs1, defs');
    AddsTransitive(out, out1, out', defs1, defs', env.base);
  }

  lemma MeanShows(n: BDDNode, t: int, e: int, env: Env, defs: seq<Bdd>, defs1: seq<Bdd>, defs': seq<Bdd>)
    requires Wf(n, env.t, env.f) && n.tree.Node? && |defs'| <= |defs1| + 1
    requires Mean(n, env, defs') == Definition(n, t, e, env, defs1)
    requires ClashShows(|defs|, |defs1|, env, Seen(t, n.thenCase.tree, env, defs1) == n.thenCase.tree
                                              && Seen(e, n.elseCase.tree, env, defs1) == n.elseCase.tree)
    ensures ClashShows(|defs|, |defs'| - 1, env, Mean(n, env, defs') == n.tree)
  {
  }

  // A node that is no literal, with its children first.
  method PrintInner(bdd: BDDNode, curr: int, clCnt: int, out: seq<seq<int>>, env: Env,
                    ghost u: set<BDDNode>, ghost defs: seq<Bdd>, ghost owners: seq<BDDNode>)
    returns (curr': int, clCnt': int, out': seq<seq<int>>, ghost defs': seq<Bdd>, ghost owners': seq<BDDNode>)
    requires Ready(u, env, defs, owners, curr, clCnt, out) && bdd in u && !IsLiteral(bdd.tree)
    modifies u
    ensures Ready(u, env, defs', owners', curr', clCnt', out') && owners' == Order(bdd, env.t, env.f, owners)
    ensures Labelled(bdd, env, defs')
    ensures forall n :: n in u && old(n.tmp_int) != 0 ==> n.tmp_int == old(n.tmp_int)
    ensures forall n :: n in u && Top(n.tree) > Top(bdd.tree) ==> n.tmp_int == old(n.tmp_int)
    ensures defs <= defs' && out <= out' && Adds(out, out', defs', env.base)
    ensures defs' != defs ==> bdd.tmp_int == curr' - 1
    ensures ClashShows(|defs|, |defs'| - 1, env, Mean(bdd, env, defs') == bdd.tree)
    decreases bdd.tree, 1
  {
    ghost var numbered := HasNumber(bdd);
    var t, e, out1;
    ghost var defs1, owners1;
    t, e, curr', clCnt', out1, defs1, owners1 := ChildNumbers(bdd, curr, clCnt, out, env, u, defs, owners);
    OrderStep(bdd, env, owners, owners1, numbered);
    curr', clCnt', out', defs', owners' := EmitNode(bdd, curr', clCnt', out1, t, e, env, u, defs1, owners1);
    AddsTransitive(out, out1, out', defs1, defs', env.base);
    MeanShows(bdd, t, e, env, defs, defs1, defs');
  }

  // Prints the diagram below bdd: every node without a number gets the next one and
  // one definition, the others stay as they are.
  method Bdd2Cnf(bdd: BDDNode, curr: int, clCnt: int, out: seq<seq<int>>, env: Env,
                 ghost u: set<BDDNode>, ghost defs: seq<Bdd>, ghost owners: seq<BDDNode>)
    returns (curr': int, clCnt': int, out': seq<seq<int>>, ghost defs': seq<Bdd>, ghost owners': seq<BDDNode>)
    requires Ready(u, env, defs, owners, curr, clCnt, out) && bdd in u
    modifies u
    ensures Ready(u, env, defs', owners', curr', clCnt', out') && owners' == Order(bdd, env.t, env.f, owners)
    ensures Labelled(bdd, env, defs')
    ensures forall n :: n in u && old(n.tmp_int) != 0 ==> n.tmp_int == old(n.tmp_int)
    ensures forall n :: n in u && Top(n.tree) > Top(bdd.tree) ==> n.tmp_int == old(n.tmp_int)
    ensures defs <= defs' && out <= out' && Adds(out, out', defs', env.base)
    ensures defs' != defs ==> bdd.tmp_int == curr' - 1 && !IsLiteral(bdd.tree)
    ensures ClashShows(|defs|, |defs'| - 1, env, Mean(bdd, env, defs') == bdd.tree)
    decreases bdd.tree, 2
  {
    curr', clCnt', out', defs', owners' := curr, clCnt, out, defs, owners;
    ChildrenShared(bdd, env);
    if bdd.thenCase == env.t && bdd.elseCase == env.f {
      NumberLiteral(bdd, bdd.variable, env, u, defs, owners);
    } else if bdd.thenCase == env.f && bdd.elseCase == env.t {
      NumberLiteral(bdd, -(bdd.variable as int), env, u, defs, owners);
    } else {
      curr', clCnt', out', defs', owners' := PrintInner(bdd, curr, clCnt, out, env, u, defs, owners);
    }
  }

  // ----- which diagrams come out right -----

  // A parent of n's child takes the child's number for a constant.
  ghost predicate Misread(n: BDDNode, env: Env)
    reads n, n.thenCase, n.elseCase
  {
    && n.thenCase != null && n.elseCase != null && !IsLiteral(n.tree)
    && ((n.thenCase.tree.Node? && !IsLiteral(n.thenCase.tree) && Clash(n.thenCase.tmp_int - env.base, env))
        || (n.elseCase.tree.Node? && !IsLiteral(n.elseCase.tree) && Clash(n.elseCase.tmp_int - env.base, env)))
  }

  // No node of u has a child taken for a constant.
  ghost predicate NoneMisread(u: set<BDDNode>, env: Env)
    reads u, env.t, env.f
  {
    forall n :: n in u && ChildrenIn(n, u, env) ==> !Misread(n, env)
  }

  ghost predicate ChildrenIn(n: BDDNode, u: set<BDDNode>, env: Env) {
    && (n.thenCase in u || n.thenCase == env.t || n.thenCase == env.f)
    && (n.elseCase in u || n.elseCase == env.t || n.elseCase == env.f)
  }

  // A numbered node means its own diagram if and only if nothing below it is misread.
  lemma {:induction false} RightUnlessMisread(n: BDDNode, env: Env, u: set<BDDNode>, defs: seq<Bdd>)
    requires State(u, env, defs) && n in u && n.tmp_int != 0
    ensures Mean(n, env, defs) == n.tree <==> forall m :: m in Nodes(n, env.t, env.f) ==> !Misread(m, env)
    decreases n.tree
  {
    ChildrenShared(n, env);
    if IsLiteral(n.tree) {
      assert Nodes(n, env.t, env.f) == {n};
    } else {
      assert Labelled(n, env, defs);
      RightChild(n, n.thenCase, env, u, defs);
      RightChild(n, n.elseCase, env, u, defs);
      var l, r := Nodes(n.thenCase, env.t, env.f), Nodes(n.elseCase, env.t, env.f);
      assert Nodes(n, env.t, env.f) == {n} + l + r;
      assert n in Nodes(n, env.t, env.f);
      assert forall m :: m in l || m in r ==> m in Nodes(n, env.t, env.f);
    }
  }

  lemma {:induction false} RightChild(n: BDDNode, c: BDDNode, env: Env, u: set<BDDNode>, defs: seq<Bdd>)
    requires State(u, env, defs) && n in u && n.tmp_int != 0 && !IsLiteral(n.tree)
    requires c == n.thenCase || c == n.elseCase
    requires Shared(c, env) && c.tree < n.tree
    ensures Read(c, env, defs) == c.tree <==>
            && !(c.tree.Node? && !IsLiteral(c.tree) && Clash(c.tmp_int - env.base, env))
            && forall m :: m in Nodes(c, env.t, env.f) ==> !Misread(m, env)
    decreases n.tree, 0
  {
    assert Labelled(n, env, defs);
    if c.tree.Node? {
      RightUnlessMisread(c, env, u, defs);
      if IsLiteral(c.tree) {
        ReadLiteral(c, env, defs);
      }
    }
  }
}
