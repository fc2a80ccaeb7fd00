// printBDDToCNF3SAT (src/formats/bdd2cnf.cc): all functions as one formula of
// clauses, and exactly when it has the models of the functions.

module ThreeSat {
  import opened Bdd
  import opened Clauses
  import opened Tseitin

  lemma {:induction false} NodesClosed(n: BDDNode, t: BDDNode, f: BDDNode)
    requires Wf(n, t, f) && Robdd(n.tree)
    ensures forall m :: m in Nodes(n, t, f) ==>
              && Wf(m, t, f) && Robdd(m.tree) && m.tree.Node? && Support(m.tree) <= Support(n.tree)
              && m.thenCase in Nodes(n, t, f) + {t, f} && m.elseCase in Nodes(n, t, f) + {t, f}
    decreases n.tree
  {
    if n.tree.Node? {
      NodesClosed(n.thenCase, t, f);
      NodesClosed(n.elseCase, t, f);
      RootIn(n.thenCase, t, f);
      RootIn(n.elseCase, t, f);
    }
  }

  lemma RootIn(n: BDDNode, t: BDDNode, f: BDDNode)
    requires Wf(n, t, f)
    ensures n in Nodes(n, t, f) + {t, f}
  {
  }

  // Clears the numbers and finds the largest variable.
  method GetMaxNo(bdd: BDDNode, no: int, t: BDDNode, f: BDDNode, ghost u: set<BDDNode>) returns (no': int)
    requires Wf(bdd, t, f) && Robdd(bdd.tree) && Nodes(bdd, t, f) <= u && no >= -1
    modifies u
    ensures forall n :: n in Nodes(bdd, t, f) ==> n.tmp_int == 0
    ensures forall n :: n in u && old(n.tmp_int) == 0 ==> n.tmp_int == 0
    ensures no' == if no < Top(bdd.tree) then Top(bdd.tree) else no
    decreases bdd.tree
  {
    no' := no;
    if bdd == f || bdd == t {
      return;
    }
    if no' < bdd.variable {
      no' := bdd.variable;
    }
    bdd.tmp_int := 0;
    assert Nodes(bdd, t, f) == {bdd} + Nodes(bdd.thenCase, t, f) + Nodes(bdd.elseCase, t, f);
    no' := GetMaxNo(bdd.thenCase, no', t, f, u);
    no' := GetMaxNo(bdd.elseCase, no', t, f, u);
  }

  // The largest variable of a diagram, -1 for a constant.
  method GetMaxVarNoInBDD(bdd: BDDNode, t: BDDNode, f: BDDNode, ghost u: set<BDDNode>) returns (no: int)
    requires Wf(bdd, t, f) && Robdd(bdd.tree) && Nodes(bdd, t, f) <= u
    modifies u
    ensures forall n :: n in Nodes(bdd, t, f) ==> n.tmp_int == 0
    ensures forall n :: n in u && old(n.tmp_int) == 0 ==> n.tmp_int == 0
    ensures forall v :: v in Support(bdd.tree) ==> v <= no
    ensures no == Top(bdd.tree) && (no == -1 || no in Support(bdd.tree))
  {
    no := GetMaxNo(bdd, -1, t, f, u);
    SupportBelowTop(bdd.tree);
  }

  // The largest variable of all functions, 0 without one.
  ghost function MaxTop(functions: seq<BDDNode>): nat {
    if functions == [] then 0
    else
      var no, rest := Top(functions[|functions| - 1].tree), MaxTop(functions[..|functions| - 1]);
      if rest < no then no else rest
  }

  lemma {:induction false} MaxTopHolds(functions: seq<BDDNode>, n: BDDNode)
    requires n in functions && Robdd(n.tree)
    ensures UpTo(n, MaxTop(functions))
  {
    SupportBelowTop(n.tree);
    if n in functions[..|functions| - 1] {
      MaxTopHolds(functions[..|functions| - 1], n);
    }
  }

  ghost function AllNodes(functions: seq<BDDNode>, t: BDDNode, f: BDDNode): set<BDDNode>
    requires forall n :: n in functions ==> Wf(n, t, f)
  {
    if functions == [] then {} else Nodes(functions[0], t, f) + AllNodes(functions[1..], t, f)
  }

  lemma {:induction false} AllNodesOwner(functions: seq<BDDNode>, t: BDDNode, f: BDDNode, n: BDDNode) returns (root: BDDNode)
    requires forall n :: n in functions ==> Wf(n, t, f)
    requires n in AllNodes(functions, t, f)
    ensures root in functions && n in Nodes(root, t, f)
  {
    if n in Nodes(functions[0], t, f) {
      root := functions[0];
    } else {
      root := AllNodesOwner(functions[1..], t, f, n);
    }
  }

  lemma {:induction false} AllNodesHolds(functions: seq<BDDNode>, t: BDDNode, f: BDDNode, root: BDDNode)
    requires forall n :: n in functions ==> Wf(n, t, f)
    requires root in functions
    ensures Nodes(root, t, f) <= AllNodes(functions, t, f)
  {
    if root != functions[0] {
      AllNodesHolds(functions[1..], t, f, root);
    }
  }

  // What the solver's table holds when the clauses are printed.
  ghost predicate Table(functions: seq<BDDNode>, t: BDDNode, f: BDDNode, numinp: nat) {
    && t != f && t.tree.True? && f.tree.False?
    && forall n :: n in functions ==> Wf(n, t, f) && Robdd(n.tree) && forall v :: v in Support(n.tree) ==> v <= numinp
  }

  ghost predicate Cleared(n: BDDNode, t: BDDNode, f: BDDNode, u: set<BDDNode>)
    requires Wf(n, t, f)
    reads u
  {
    forall m :: m in Nodes(n, t, f) && m in u ==> m.tmp_int == 0
  }

  ghost predicate UpTo(n: BDDNode, no: int) {
    forall v :: v in Support(n.tree) ==> v <= no
  }

  // The first number free for a made-up variable.
  method FirstFree(functions: seq<BDDNode>, t: BDDNode, f: BDDNode, numinp: nat, ghost u: set<BDDNode>)
    returns (base: nat)
    requires Table(functions, t, f, numinp) && forall n :: n in functions ==> Nodes(n, t, f) <= u
    modifies u
    ensures forall n :: n in functions ==> Cleared(n, t, f, u) && UpTo(n, base - 1)
    ensures 1 <= base <= numinp + 1 && base == 1 + MaxTop(functions)
  {
    var max_var_no, i := 0, 0;
    while i < |functions|
      invariant 0 <= i <= |functions|
      invariant 0 <= max_var_no <= numinp && max_var_no == MaxTop(functions[..i])
      invariant forall j :: 0 <= j < i ==> Cleared(functions[j], t, f, u)
    {
      assert functions[i] in functions;
      var t_cnt := GetMaxVarNoInBDD(functions[i], t, f, u);
      TakeOneMore(functions, i);
      if max_var_no < t_cnt {
        max_var_no := t_cnt;
      }
      i := i + 1;
    }
    TakeEverything(functions, i);
    base := max_var_no + 1;
    forall n | n in functions ensures UpTo(n, base - 1) {
      MaxTopHolds(functions, n);
    }
  }

  lemma FreshNode(root: BDDNode, n: BDDNode, env: Env, u: set<BDDNode>)
    requires Wf(root, env.t, env.f) && Robdd(root.tree) && UpTo(root, env.numinp) && UpTo(root, env.base - 1)
    requires Nodes(root, env.t, env.f) <= u && n in Nodes(root, env.t, env.f) && Cleared(root, env.t, env.f, u)
    ensures Shared(n, env) && n.tree.Node? && n.tmp_int == 0
    ensures n.thenCase in u || n.thenCase == env.t || n.thenCase == env.f
    ensures n.elseCase in u || n.elseCase == env.t || n.elseCase == env.f
  {
    NodesClosed(root, env.t, env.f);
  }

  lemma FreshState(functions: seq<BDDNode>, env: Env, u: set<BDDNode>)
    requires Table(functions, env.t, env.f, env.numinp) && u == AllNodes(functions, env.t, env.f)
    requires env.t.tmp_int == 0 && env.f.tmp_int == 0 && env.base >= 1
    requires forall n :: n in functions ==> Cleared(n, env.t, env.f, u) && UpTo(n, env.base - 1)
    ensures State(u, env, [])
  {
    forall n | n in u
      ensures Shared(n, env) && n.tree.Node? && n.tmp_int == 0
      ensures n.thenCase in u || n.thenCase == env.t || n.thenCase == env.f
      ensures n.elseCase in u || n.elseCase == env.t || n.elseCase == env.f
    {
      var root := AllNodesOwner(functions, env.t, env.f, n);
      AllNodesHolds(functions, env.t, env.f, root);
      FreshNode(root, n, env, u);
    }
  }

  // The clauses so far: the definitions, and each printed root's meaning.
  ghost predicate Says(out: seq<seq<int>>, defs: seq<Bdd>, means: seq<Bdd>, base: nat) {
    forall b: Assignment :: AllTrue(out, b) <==> Defined(defs, base, b) && AllHold(means, b)
  }

  ghost predicate AllHold(means: seq<Bdd>, b: Assignment) {
    forall j :: 0 <= j < |means| ==> Eval(means[j], b)
  }

  ghost predicate Printed(roots: seq<BDDNode>, means: seq<Bdd>, env: Env, u: set<BDDNode>, defs: seq<Bdd>)
    reads u
  {
    |means| == |roots| && forall j :: 0 <= j < |roots| ==> PrintedOne(roots[j], means[j], env, u, defs)
  }

  ghost predicate PrintedOne(root: BDDNode, mean: Bdd, env: Env, u: set<BDDNode>, defs: seq<Bdd>)
    reads u
  {
    root in u && root.tmp_int != 0 && mean == Mean(root, env, defs)
  }

  lemma SaysMore(out: seq<seq<int>>, out': seq<seq<int>>, defs: seq<Bdd>, defs': seq<Bdd>, means: seq<Bdd>,
                 root: BDDNode, env: Env)
    requires Says(out, defs, means, env.base) && Adds(out, out', defs', env.base) && defs <= defs'
    requires Shared(root, env) && Labelled(root, env, defs') && env.base >= 1
    ensures Says(out' + [[root.tmp_int]], defs', means + [Mean(root, env, defs')], env.base)
  {
    var mean := Mean(root, env, defs');
    forall b: Assignment
      ensures AllTrue(out' + [[root.tmp_int]], b) <==> Defined(defs', env.base, b) && AllHold(means + [mean], b)
    {
      AllTrueAppend(out', [[root.tmp_int]], b);
      AllTrueOne([root.tmp_int], b);
      assert ClauseTrue([root.tmp_int], b) <==> LitTrue([root.tmp_int][0], b);
      DefinedPrefix(defs, defs', env.base, b);
      AllHoldAppend(means, mean, b);
      if Defined(defs', env.base, b) {
        MeanTrue(root, env, defs', b);
      }
    }
  }

  lemma AllHoldAppend(means: seq<Bdd>, mean: Bdd, b: Assignment)
    ensures AllHold(means + [mean], b) <==> AllHold(means, b) && Eval(mean, b)
  {
    var all := means + [mean];
    assert all[|means|] == mean;
    assert forall j :: 0 <= j < |means| ==> all[j] == means[j];
  }

  // What was printed of a root earlier, its number aside.
  ghost predicate WasPrinted(root: BDDNode, was: int, mean: Bdd, env: Env, u: set<BDDNode>, defs: seq<Bdd>) {
    && root in u && was != 0 && mean == Stands(was, root.tree, env, defs)
    && (!IsLiteral(root.tree) ==> env.base <= was < env.base + |defs|)
  }

  lemma NumbersBefore(roots: seq<BDDNode>, means: seq<Bdd>, env: Env, u: set<BDDNode>, defs: seq<Bdd>) returns (was: seq<int>)
    requires State(u, env, defs) && Printed(roots, means, env, u, defs)
    ensures |was| == |roots| == |means|
    ensures forall j :: 0 <= j < |roots| ==> was[j] == roots[j].tmp_int && WasPrinted(roots[j], was[j], means[j], env, u, defs)
  {
    was := seq(|roots|, j requires 0 <= j < |roots| reads roots => roots[j].tmp_int);
    forall j | 0 <= j < |roots| ensures WasPrinted(roots[j], was[j], means[j], env, u, defs) {
      assert PrintedOne(roots[j], means[j], env, u, defs);
      assert Labelled(roots[j], env, defs);
    }
  }

  lemma PrintedStays(roots: seq<BDDNode>, means: seq<Bdd>, env: Env, u: set<BDDNode>, was: seq<int>, defs: seq<Bdd>, defs': seq<Bdd>)
    requires defs <= defs' && |was| == |roots| == |means|
    requires forall j :: 0 <= j < |roots| ==> was[j] == roots[j].tmp_int && WasPrinted(roots[j], was[j], means[j], env, u, defs)
    ensures Printed(roots, means, env, u, defs')
  {
    forall j | 0 <= j < |roots| ensures PrintedOne(roots[j], means[j], env, u, defs') {
      assert WasPrinted(roots[j], was[j], means[j], env, u, defs);
    }
  }

  // The clauses of one function and the unit clause of its root.
  method PrintRoot(root: BDDNode, curr: int, clCnt: int, out: seq<seq<int>>, env: Env, ghost u: set<BDDNode>, ghost defs: seq<Bdd>,
                   ghost owners: seq<BDDNode>, ghost roots: seq<BDDNode>, ghost means: seq<Bdd>)
    returns (curr': int, clCnt': int, out': seq<seq<int>>, ghost defs': seq<Bdd>, ghost owners': seq<BDDNode>)
    requires State(u, env, defs) && root in u && curr == env.base + |defs|
    requires Owned(u, env, defs, owners) && clCnt == |out| && env.base <= env.numinp + 1
    requires Says(out, defs, means, env.base) && Printed(roots, means, env, u, defs)
    modifies u
    ensures State(u, env, defs') && curr' == env.base + |defs'|
    ensures Owned(u, env, defs', owners') && owners' == Order(root, env.t, env.f, owners) && clCnt' == |out'|
    ensures Says(out', defs', means + [Mean(root, env, defs')], env.base)
    ensures Printed(roots + [root], means + [Mean(root, env, defs')], env, u, defs')
    ensures Labelled(root, env, defs')
    ensures defs == [] ==> (Mean(root, env, defs') == root.tree <==> curr' - 1 <= T(env.numinp))
    ensures defs <= defs'
  {
    ghost var was := NumbersBefore(roots, means, env, u, defs);
    curr', clCnt', out', defs', owners' := Bdd2Cnf(root, curr, clCnt, out, env, u, defs, owners);
    SaysMore(out, out', defs, defs', means, root, env);
    ClashFree(env, |defs'|);
    out', clCnt' := out' + [[root.tmp_int]], clCnt' + 1;
    PrintedStays(roots, means, env, u, was, defs, defs');
  }

  // The numbers of the "p cnf" line, and the clauses.
  datatype Output = Garbage | Cnf(vars: int, count: int, clauses: seq<seq<int>>)

  // All numbered nodes once every function is printed.
  ghost function OrderAll(functions: seq<BDDNode>, t: BDDNode, f: BDDNode): seq<BDDNode>
    requires forall n :: n in functions ==> Wf(n, t, f)
  {
    if functions == [] then []
    else
      var last := functions[|functions| - 1];
      Order(last, t, f, OrderAll(functions[..|functions| - 1], t, f))
  }

  lemma OrderAllMore(roots: seq<BDDNode>, root: BDDNode, t: BDDNode, f: BDDNode)
    requires (forall n :: n in roots ==> Wf(n, t, f)) && Wf(root, t, f)
    ensures OrderAll(roots + [root], t, f) == Order(root, t, f, OrderAll(roots, t, f))
  {
    assert (roots + [root])[..|roots|] == roots;
  }

  lemma TakeOneMore(functions: seq<BDDNode>, i: nat)
    requires i < |functions|
    ensures functions[..i + 1] == functions[..i] + [functions[i]] && functions[..i + 1][..i] == functions[..i]
    ensures forall n :: n in functions[..i + 1] <==> n in functions[..i] || n == functions[i]
  {
  }

  // T and F are among the n - 1 first made-up numbers unless the n-th is at most T.
  lemma ClashFree(env: Env, n: nat)
    requires env.base <= env.numinp + 1
    ensures (forall k :: 0 <= k < n - 1 ==> !Clash(k, env)) <==> env.base + n - 1 <= T(env.numinp)
  {
    if env.base + n - 1 > T(env.numinp) {
      assert Clash(T(env.numinp) - env.base, env);
    }
  }

  // The functions in roots are printed.
  ghost predicate PrintedTo(roots: seq<BDDNode>, env: Env, u: set<BDDNode>, defs: seq<Bdd>, means: seq<Bdd>,
                            owners: seq<BDDNode>, out: seq<seq<int>>)
    requires forall n :: n in roots ==> Wf(n, env.t, env.f)
    reads u, env.t, env.f
  {
    && State(u, env, defs) && Owned(u, env, defs, owners) && owners == OrderAll(roots, env.t, env.f)
    && Says(out, defs, means, env.base) && Printed(roots, means, env, u, defs)
    && (roots == [] ==> defs == [])
    && (|roots| == 1 ==> (means[0] == roots[0].tree <==> env.base + |defs| - 1 <= T(env.numinp)))
  }

  method PrintNext(root: BDDNode, curr: int, clCnt: int, out: seq<seq<int>>, env: Env, ghost u: set<BDDNode>, ghost defs: seq<Bdd>,
                   ghost owners: seq<BDDNode>, ghost roots: seq<BDDNode>, ghost means: seq<Bdd>)
    returns (curr': int, clCnt': int, out': seq<seq<int>>, ghost defs': seq<Bdd>, ghost owners': seq<BDDNode>, ghost means': seq<Bdd>)
    requires (forall n :: n in roots ==> Wf(n, env.t, env.f)) && Wf(root, env.t, env.f) && root in u
    requires PrintedTo(roots, env, u, defs, means, owners, out)
    requires curr == env.base + |defs| && clCnt == |out| && env.base <= env.numinp + 1
    modifies u
    ensures PrintedTo(roots + [root], env, u, defs', means', owners', out')
    ensures curr' == env.base + |defs'| && clCnt' == |out'|
  {
    curr', clCnt', out', defs', owners' := PrintRoot(root, curr, clCnt, out, env, u, defs, owners, roots, means);
    means' := means + [Mean(root, env, defs')];
    OrderAllMore(roots, root, env.t, env.f);
  }

  method PrintRoots(functions: seq<BDDNode>, env: Env, ghost u: set<BDDNode>)
    returns (r: Output, ghost defs: seq<Bdd>, ghost means: seq<Bdd>, ghost owners: seq<BDDNode>)
    requires State(u, env, []) && Owned(u, env, [], []) && env.base <= env.numinp + 1
    requires forall n :: n in functions ==> Wf(n, env.t, env.f)
    requires forall n :: n in functions ==> n in u || n == env.t || n == env.f
    modifies u
    ensures r.Garbage? <==> env.t in functions || env.f in functions
    ensures r.Cnf? ==> r.vars == env.base + |defs| - 1 && r.count == |r.clauses|
    ensures r.Cnf? ==> PrintedTo(functions, env, u, defs, means, owners, r.clauses)
  {
    var max_var_no: int, clause_cnt: int := env.base, 0;
    var out: seq<seq<int>>, i: nat := [], 0;
    defs, means, owners := [], [], [];
    ghost var roots: seq<BDDNode> := [];
    while i < |functions|
      invariant i <= |functions| && roots == functions[..i] && env.t !in roots && env.f !in roots
      invariant max_var_no == env.base + |defs| && clause_cnt == |out|
      invariant PrintedTo(roots, env, u, defs, means, owners, out)
    {
      if functions[i] == env.f || functions[i] == env.t {
        return Garbage, defs, means, owners;
      }
      max_var_no, clause_cnt, out, defs, owners, means :=
        PrintNext(functions[i], max_var_no, clause_cnt, out, env, u, defs, owners, roots, means);
      TakeOneMore(functions, i);
      roots := roots + [functions[i]];
      i := i + 1;
    }
    TakeEverything(functions, i);
    r := Cnf(max_var_no - 1, clause_cnt, out);
  }

  lemma TakeEverything(functions: seq<BDDNode>, i: nat)
    requires i == |functions|
    ensures functions[..i] == functions
  {
  }

  // ----- what the printed clauses say -----

  ghost predicate Trees(functions: seq<BDDNode>, means: seq<Bdd>) {
    |means| == |functions| && forall i :: 0 <= i < |functions| ==> means[i] == functions[i].tree
  }

  ghost predicate AllMistaken(functions: seq<BDDNode>, means: seq<Bdd>) {
    |means| == |functions| && forall i :: 0 <= i < |functions| ==> Mistaken(functions[i].tree, means[i])
  }

  // ----- which numbers are taken for constants, before anything is numbered -----

  // The nodes that get a number.
  ghost function Inner(u: set<BDDNode>): set<BDDNode> {
    set n | n in u && !IsLiteral(n.tree)
  }

  ghost predicate IsChild(c: BDDNode, n: BDDNode) {
    !IsLiteral(n.tree) && (n.thenCase == c || n.elseCase == c)
  }

  ghost predicate ChildIn(c: BDDNode, u: set<BDDNode>) {
    exists n :: n in u && IsChild(c, n)
  }

  // The node numbered k-th gets the number of true or false and is somebody's child.
  ghost predicate TakenAt(k: int, order: seq<BDDNode>, u: set<BDDNode>, base: nat, numinp: nat) {
    0 <= k < |order| && (base + k == T(numinp) || base + k == F(numinp)) && ChildIn(order[k], u)
  }

  ghost predicate AnyTaken(order: seq<BDDNode>, u: set<BDDNode>, base: nat, numinp: nat) {
    exists k :: TakenAt(k, order, u, base, numinp)
  }

  // Some node is taken for a constant by a parent.  All of it is known beforehand: the
  // largest variable, the order of the nodes and numinp.
  ghost predicate Taken(functions: seq<BDDNode>, t: BDDNode, f: BDDNode, numinp: nat)
    requires forall n :: n in functions ==> Wf(n, t, f)
  {
    AnyTaken(OrderAll(functions, t, f), AllNodes(functions, t, f), 1 + MaxTop(functions), numinp)
  }

  // All numbers fit below the one of true.
  ghost predicate Fits(functions: seq<BDDNode>, t: BDDNode, f: BDDNode, numinp: nat)
    requires forall n :: n in functions ==> Wf(n, t, f)
  {
    MaxTop(functions) + |Inner(AllNodes(functions, t, f))| <= T(numinp)
  }

  // Under a numbered node everything has its number.
  lemma {:induction false} NumberedBelow(n: BDDNode, env: Env, u: set<BDDNode>, defs: seq<Bdd>)
    requires State(u, env, defs) && n in u && n.tmp_int != 0
    ensures forall m :: m in Nodes(n, env.t, env.f) ==> m in u && m.tmp_int != 0
    decreases n.tree
  {
    ChildrenShared(n, env);
    assert Labelled(n, env, defs);
    if !IsLiteral(n.tree) {
      if n.thenCase.tree.Node? {
        NumberedBelow(n.thenCase, env, u, defs);
      }
      if n.elseCase.tree.Node? {
        NumberedBelow(n.elseCase, env, u, defs);
      }
    }
  }

  lemma AllNumbered(functions: seq<BDDNode>, means: seq<Bdd>, env: Env, u: set<BDDNode>, defs: seq<Bdd>)
    requires Table(functions, env.t, env.f, env.numinp) && u == AllNodes(functions, env.t, env.f)
    requires State(u, env, defs) && Printed(functions, means, env, u, defs)
    ensures forall n :: n in u ==> n.tmp_int != 0
  {
    forall n | n in u ensures n.tmp_int != 0 {
      var root := AllNodesOwner(functions, env.t, env.f, n);
      var i :| 0 <= i < |functions| && functions[i] == root;
      assert PrintedOne(functions[i], means[i], env, u, defs);
      NumberedBelow(root, env, u, defs);
    }
  }

  // Each node with a number has its own place in the order.
  lemma {:induction false} CountOwners(owners: seq<BDDNode>, s: set<BDDNode>)
    requires forall n :: n in s <==> n in owners
    requires forall i, j :: 0 <= i < j < |owners| ==> owners[i] != owners[j]
    ensures |owners| == |s|
  {
    if owners == [] {
      assert s == {};
    } else {
      var last, rest := owners[|owners| - 1], owners[..|owners| - 1];
      assert owners == rest + [last];
      assert forall n :: n in s - {last} <==> n in rest;
      CountOwners(rest, s - {last});
    }
  }

  lemma OwnersAreInner(u: set<BDDNode>, env: Env, defs: seq<Bdd>, owners: seq<BDDNode>)
    requires Owned(u, env, defs, owners) && forall n :: n in u ==> n.tmp_int != 0
    ensures |owners| == |Inner(u)|
  {
    forall i, j | 0 <= i < j < |owners| ensures owners[i] != owners[j] {
      assert NumberedAs(owners[i], env.base + i, u) && NumberedAs(owners[j], env.base + j, u);
    }
    forall n ensures n in Inner(u) <==> n in owners {
      if n in owners {
        var k :| 0 <= k < |owners| && owners[k] == n;
        assert NumberedAs(owners[k], env.base + k, u);
      }
      assert n in Inner(u) ==> n in u && HasNumber(n);
    }
    CountOwners(owners, Inner(u));
  }

  lemma MisreadTaken(n: BDDNode, c: BDDNode, u: set<BDDNode>, env: Env, defs: seq<Bdd>, owners: seq<BDDNode>)
    requires State(u, env, defs) && Owned(u, env, defs, owners) && n in u && !IsLiteral(n.tree)
    requires (c == n.thenCase || c == n.elseCase) && c in u && HasNumber(c) && Clash(c.tmp_int - env.base, env)
    ensures AnyTaken(owners, u, env.base, env.numinp)
  {
    OwnerPlace(c, u, env, defs, owners);
    assert IsChild(c, n);
    assert TakenAt(c.tmp_int - env.base, owners, u, env.base, env.numinp);
  }

  // A node is misread if and only if the order says so.
  lemma MisreadExactly(u: set<BDDNode>, env: Env, defs: seq<Bdd>, owners: seq<BDDNode>)
    requires State(u, env, defs) && Owned(u, env, defs, owners) && forall n :: n in u ==> n.tmp_int != 0
    ensures NoneMisread(u, env) <==> !AnyTaken(owners, u, env.base, env.numinp)
  {
    forall n | n in u && ChildrenIn(n, u, env) && Misread(n, env) ensures AnyTaken(owners, u, env.base, env.numinp) {
      ChildrenShared(n, env);
      if n.thenCase.tree.Node? && !IsLiteral(n.thenCase.tree) && Clash(n.thenCase.tmp_int - env.base, env) {
        MisreadTaken(n, n.thenCase, u, env, defs, owners);
      } else {
        MisreadTaken(n, n.elseCase, u, env, defs, owners);
      }
    }
    forall k | TakenAt(k, owners, u, env.base, env.numinp) ensures !NoneMisread(u, env) {
      assert NumberedAs(owners[k], env.base + k, u);
      var n :| n in u && IsChild(owners[k], n);
      ChildrenShared(n, env);
      assert ChildrenIn(n, u, env) && Misread(n, env);
    }
  }

  lemma OwnerPlace(c: BDDNode, u: set<BDDNode>, env: Env, defs: seq<Bdd>, owners: seq<BDDNode>)
    requires Owned(u, env, defs, owners) && c in u && HasNumber(c)
    ensures 0 <= c.tmp_int - env.base < |owners| && owners[c.tmp_int - env.base] == c
  {
    assert c in owners;
    var k :| 0 <= k < |owners| && owners[k] == c;
    assert NumberedAs(owners[k], env.base + k, u);
  }

  // Every diagram is printed as itself if and only if no child's number is T or F.
  lemma RightExactly(functions: seq<BDDNode>, means: seq<Bdd>, env: Env, u: set<BDDNode>, defs: seq<Bdd>)
    requires Table(functions, env.t, env.f, env.numinp) && u == AllNodes(functions, env.t, env.f)
    requires State(u, env, defs) && Printed(functions, means, env, u, defs)
    ensures Trees(functions, means) <==> NoneMisread(u, env)
    ensures AllMistaken(functions, means)
    ensures env.base + |defs| - 1 <= T(env.numinp) ==> Trees(functions, means)
  {
    forall i | 0 <= i < |functions|
      ensures means[i] == functions[i].tree <==> forall m :: m in Nodes(functions[i], env.t, env.f) ==> !Misread(m, env)
      ensures Mistaken(functions[i].tree, means[i])
      ensures env.base + |defs| - 1 <= T(env.numinp) ==> means[i] == functions[i].tree
    {
      assert PrintedOne(functions[i], means[i], env, u, defs);
      RightUnlessMisread(functions[i], env, u, defs);
      RightBelow(functions[i], env, defs);
    }
    forall i | 0 <= i < |functions| ensures Nodes(functions[i], env.t, env.f) <= u {
      AllNodesHolds(functions, env.t, env.f, functions[i]);
    }
    if Trees(functions, means) {
      forall n | n in u ensures !Misread(n, env) {
        var root := AllNodesOwner(functions, env.t, env.f, n);
        var i :| 0 <= i < |functions| && functions[i] == root;
      }
    }
  }

  lemma RightBelow(n: BDDNode, env: Env, defs: seq<Bdd>)
    requires Shared(n, env) && Labelled(n, env, defs)
    ensures Mistaken(n.tree, Mean(n, env, defs))
    ensures env.base + |defs| - 1 <= T(env.numinp) ==> Mean(n, env, defs) == n.tree
  {
  }

  ghost predicate Agree(a: Assignment, b: Assignment, base: nat) {
    forall v: nat :: v < base ==> (v in a <==> v in b)
  }

  ghost predicate SupportsBelow(trees: seq<Bdd>, base: nat) {
    forall i, v :: 0 <= i < |trees| && v in Support(trees[i]) ==> v < base
  }

  // Some choice of the made-up variables satisfies the clauses.
  ghost predicate Extends(out: seq<seq<int>>, a: Assignment, base: nat) {
    exists b: Assignment :: Agree(a, b, base) && AllTrue(out, b)
  }

  // Models of the clauses are exactly the joint models of what the roots mean,
  // each with one choice of the made-up variables.
  lemma EquisatisfiableClauses(out: seq<seq<int>>, defs: seq<Bdd>, means: seq<Bdd>, base: nat, a: Assignment)
    requires Says(out, defs, means, base) && OverOriginal(defs, base) && SupportsBelow(means, base)
    ensures AllHold(means, a) <==> Extends(out, a, base)
    ensures forall b: Assignment, v: nat :: Agree(a, b, base) && AllTrue(out, b) && v < base + |defs| ==>
              (v in b <==> v in Extension(defs, base, a))
  {
    forall b: Assignment | Agree(a, b, base) ensures AllHold(means, a) <==> AllHold(means, b) {
      forall i | 0 <= i < |means| ensures Eval(means[i], a) == Eval(means[i], b) {
        EvalSupport(means[i], a, b);
      }
    }
    ExtensionDefines(defs, base, a);
    var e := Extension(defs, base, a);
    assert Agree(a, e, base);
    forall b: Assignment | Agree(a, b, base) && AllTrue(out, b)
      ensures forall v: nat :: v < base + |defs| ==> (v in b <==> v in e)
    {
      ExtensionUnique(defs, base, a, b);
    }
  }

  // The clauses say what the functions say if every function is printed as itself.
  lemma PrintedAsItself(out: seq<seq<int>>, functions: seq<BDDNode>, defs: seq<Bdd>, means: seq<Bdd>, base: nat)
    requires Says(out, defs, means, base) && OverOriginal(defs, base) && SupportsBelow(means, base)
    requires Trees(functions, means)
    ensures SameModels(functions, out, base)
  {
    forall a: Assignment
      ensures Extends(out, a, base) <==> AllTreesHold(functions, a)
    {
      EquisatisfiableClauses(out, defs, means, base, a);
      assert forall i :: 0 <= i < |functions| ==> means[i] == functions[i].tree;
    }
  }

  // One function printed as something else has a wrong model or misses one.
  lemma PrintedWrongly(out: seq<seq<int>>, g: Bdd, defs: seq<Bdd>, mean: Bdd, base: nat) returns (a: Assignment)
    requires Says(out, defs, [mean], base) && OverOriginal(defs, base) && SupportsBelow([mean], base)
    requires Robdd(g) && Mistaken(g, mean) && mean != g
    ensures Extends(out, a, base) != Eval(g, a)
  {
    a := MistakeShows(g, mean);
    EquisatisfiableClauses(out, defs, [mean], base, a);
    assert AllHold([mean], a) <==> Eval([mean][0], a);
  }

  // Four variables and their conjunction already go wrong: 6 is both the
  // number of x1 x2 x3 and the number of true, and 7 stands for x4 alone.
  lemma FourConjuncts(b: Assignment)
    requires forall v :: v in b <==> v == 4 || v == 7
    ensures AllTrue(NodeClauses(5, 2, 1, F(4), 4) + NodeClauses(6, 3, 5, F(4), 4) + NodeClauses(7, 4, 6, F(4), 4) + [[7]], b)
    ensures !Eval(Node(4, Node(3, Node(2, Node(1, True, False), False), False), False), b)
  {
    var c5, c6, c7 := NodeClauses(5, 2, 1, F(4), 4), NodeClauses(6, 3, 5, F(4), 4), NodeClauses(7, 4, 6, F(4), 4);
    NodeClausesDefine(5, 2, 1, F(4), 4, b);
    NodeClausesDefine(6, 3, 5, F(4), 4, b);
    NodeClausesDefine(7, 4, 6, F(4), 4, b);
    AllTrueOne([7], b);
    assert LitTrue([7][0], b);
    AllTrueAppend(c5 + c6 + c7, [[7]], b);
    AllTrueAppend(c5 + c6, c7, b);
    AllTrueAppend(c5, c6, b);
  }

  // The header counts variables and clauses; the made-up variables are one for each
  // inner node, in the order of printing.  The functions are printed as themselves if
  // and only if no node is taken for a constant; for one function, if and only if all
  // numbers fit.
  method PrintBDDToCNF3SAT(functions: seq<BDDNode>, t: BDDNode, f: BDDNode, numinp: nat)
    returns (r: Output, ghost env: Env, ghost defs: seq<Bdd>, ghost means: seq<Bdd>)
    requires Table(functions, t, f, numinp) && t.tmp_int == 0 && f.tmp_int == 0
    modifies AllNodes(functions, t, f)
    ensures r.Garbage? <==> t in functions || f in functions
    ensures r.Cnf? ==> r.vars == MaxTop(functions) + |Inner(AllNodes(functions, t, f))| && r.count == |r.clauses|
    ensures env == Env(t, f, numinp, 1 + MaxTop(functions))
    ensures r.Cnf? ==> Owned(AllNodes(functions, t, f), env, defs, OrderAll(functions, t, f))
    ensures r.Cnf? ==> Says(r.clauses, defs, means, env.base) && OverOriginal(defs, env.base)
    ensures r.Cnf? ==> SupportsBelow(means, env.base) && AllMistaken(functions, means)
    ensures r.Cnf? ==> (Trees(functions, means) <==> !Taken(functions, t, f, numinp))
    ensures r.Cnf? && Fits(functions, t, f, numinp) ==> !Taken(functions, t, f, numinp)
    ensures r.Cnf? && !Taken(functions, t, f, numinp) ==> SameModels(functions, r.clauses, env.base)
    ensures r.Cnf? && |functions| == 1 ==> (SameModels(functions, r.clauses, env.base) <==> Fits(functions, t, f, numinp))
  {
    ghost var u := AllNodes(functions, t, f);
    forall n | n in functions ensures Nodes(n, t, f) <= u {
      AllNodesHolds(functions, t, f, n);
    }
    forall n | n in u ensures n.tree.Node? {
      var root := AllNodesOwner(functions, t, f, n);
      NodesClosed(root, t, f);
    }
    var max_var_no: int := FirstFree(functions, t, f, numinp, u);
    var table := Env(t, f, numinp, max_var_no);
    env := table;
    FreshState(functions, env, u);
    forall n | n in functions && n.tree.Node? ensures n in u {
      RootIn(n, t, f);
    }
    ghost var owners;
    r, defs, means, owners := PrintRoots(functions, table, u);
    if r.Cnf? {
      PrintedExactly(functions, r, env, u, defs, means, owners);
    }
  }

  // The models of the clauses, on the variables below base, are those of the functions.
  ghost predicate SameModels(functions: seq<BDDNode>, out: seq<seq<int>>, base: nat) {
    forall a: Assignment :: Extends(out, a, base) <==> AllTreesHold(functions, a)
  }

  ghost predicate AllTreesHold(functions: seq<BDDNode>, a: Assignment) {
    forall i :: 0 <= i < |functions| ==> Eval(functions[i].tree, a)
  }

  lemma PrintedExactly(functions: seq<BDDNode>, r: Output, env: Env, u: set<BDDNode>, defs: seq<Bdd>, means: seq<Bdd>, owners: seq<BDDNode>)
    requires Table(functions, env.t, env.f, env.numinp) && u == AllNodes(functions, env.t, env.f)
    requires env.base == 1 + MaxTop(functions) && r.Cnf? && r.vars == env.base + |defs| - 1
    requires PrintedTo(functions, env, u, defs, means, owners, r.clauses)
    ensures Owned(u, env, defs, OrderAll(functions, env.t, env.f)) && Says(r.clauses, defs, means, env.base)
    ensures OverOriginal(defs, env.base)
    ensures r.vars == MaxTop(functions) + |Inner(u)|
    ensures SupportsBelow(means, env.base) && AllMistaken(functions, means)
    ensures Trees(functions, means) <==> !Taken(functions, env.t, env.f, env.numinp)
    ensures Fits(functions, env.t, env.f, env.numinp) ==> Trees(functions, means)
    ensures Trees(functions, means) ==> SameModels(functions, r.clauses, env.base)
    ensures |functions| == 1 ==> (SameModels(functions, r.clauses, env.base) <==> Fits(functions, env.t, env.f, env.numinp))
  {
    AllNumbered(functions, means, env, u, defs);
    OwnersAreInner(u, env, defs, owners);
    TreesExactly(functions, means, env, u, defs, owners);
    ModelsExactly(functions, r.clauses, env, defs, means);
    if |functions| == 1 {
      assert Trees(functions, means) <==> means[0] == functions[0].tree;
    }
  }

  lemma TreesExactly(functions: seq<BDDNode>, means: seq<Bdd>, env: Env, u: set<BDDNode>, defs: seq<Bdd>, order: seq<BDDNode>)
    requires Table(functions, env.t, env.f, env.numinp) && u == AllNodes(functions, env.t, env.f)
    requires State(u, env, defs) && Printed(functions, means, env, u, defs)
    requires Owned(u, env, defs, order) && forall n :: n in u ==> n.tmp_int != 0
    requires order == OrderAll(functions, env.t, env.f) && env.base == 1 + MaxTop(functions)
    ensures AllMistaken(functions, means)
    ensures Trees(functions, means) <==> !Taken(functions, env.t, env.f, env.numinp)
    ensures env.base + |defs| - 1 <= T(env.numinp) ==> Trees(functions, means)
  {
    MisreadExactly(u, env, defs, order);
    RightExactly(functions, means, env, u, defs);
    TakenIs(functions, env.t, env.f, env.numinp, order, u, env.base);
  }

  lemma TakenIs(functions: seq<BDDNode>, t: BDDNode, f: BDDNode, numinp: nat, order: seq<BDDNode>, u: set<BDDNode>, base: nat)
    requires forall n :: n in functions ==> Wf(n, t, f)
    requires order == OrderAll(functions, t, f) && u == AllNodes(functions, t, f) && base == 1 + MaxTop(functions)
    ensures Taken(functions, t, f, numinp) == AnyTaken(order, u, base, numinp)
  {
  }

  // The clauses mean what the functions mean if every function is printed as itself;
  // a single function printed as something else has other models.
  lemma ModelsExactly(functions: seq<BDDNode>, out: seq<seq<int>>, env: Env, defs: seq<Bdd>, means: seq<Bdd>)
    requires Table(functions, env.t, env.f, env.numinp) && env.base == 1 + MaxTop(functions)
    requires AllMistaken(functions, means) && Says(out, defs, means, env.base) && OverOriginal(defs, env.base)
    ensures SupportsBelow(means, env.base)
    ensures Trees(functions, means) ==> SameModels(functions, out, env.base)
    ensures |functions| == 1 && !Trees(functions, means) ==> !SameModels(functions, out, env.base)
  {
    forall n | n in functions ensures UpTo(n, env.base - 1) {
      MaxTopHolds(functions, n);
    }
    MeansBelow(functions, means, env.base);
    if Trees(functions, means) {
      PrintedAsItself(out, functions, defs, means, env.base);
    } else if |functions| == 1 {
      assert functions[0] in functions && means == [means[0]];
      var a := PrintedWrongly(out, functions[0].tree, defs, means[0], env.base);
      assert AllTreesHold(functions, a) <==> Eval(functions[0].tree, a);
    }
  }

  lemma MeansBelow(functions: seq<BDDNode>, means: seq<Bdd>, base: nat)
    requires AllMistaken(functions, means) && base >= 1 && forall n :: n in functions ==> UpTo(n, base - 1)
    ensures SupportsBelow(means, base)
  {
    forall i, v | 0 <= i < |means| && v in Support(means[i]) ensures v < base {
      MistakenSupport(functions[i].tree, means[i]);
      assert functions[i] in functions && UpTo(functions[i], base - 1);
    }
  }
}