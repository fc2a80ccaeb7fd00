// aiger_reencode and aiger_is_reencoded (src/formats/aiger.c).

module Reencode {
  import opened AigGraph
  import opened Arithmetic
  import opened AigModel
  import opened AigSemantics
  import opened ReencodeWalk

  // Inputs first, then latches, then ANDs, without gaps, right-hand sides in order.
  ghost predicate Reencoded(n: Aig) {
    && (forall i: nat :: i < |n.inputs| ==> n.inputs[i] == Var2Lit(i + 1))
    && (forall i: nat :: i < |n.latches| ==> n.latches[i].lit == Var2Lit(|n.inputs| + i + 1))
    && forall i: nat :: i < |n.ands| ==>
         && n.ands[i].lhs == Var2Lit(|n.inputs| + |n.latches| + i + 1)
         && n.ands[i].lhs >= n.ands[i].rhs0 >= n.ands[i].rhs1
  }

  method MaxInputOrLatch(n: Aig) returns (res: nat)
    ensures forall i :: 0 <= i < |n.inputs| ==> n.inputs[i] <= res
    ensures forall i :: 0 <= i < |n.latches| ==> n.latches[i].lit <= res
    ensures res == 0 || res in n.inputs || exists i :: 0 <= i < |n.latches| && n.latches[i].lit == res
  {
    res := 0;
    var i := 0;
    while i < |n.inputs|
      invariant 0 <= i <= |n.inputs|
      invariant forall k :: 0 <= k < i ==> n.inputs[k] <= res
      invariant res == 0 || res in n.inputs
    {
      if n.inputs[i] > res {
        res := n.inputs[i];
      }
      i := i + 1;
    }
    i := 0;
    while i < |n.latches|
      invariant 0 <= i <= |n.latches|
      invariant forall k :: 0 <= k < |n.inputs| ==> n.inputs[k] <= res
      invariant forall k :: 0 <= k < i ==> n.latches[k].lit <= res
      invariant res == 0 || res in n.inputs || exists k :: 0 <= k < |n.latches| && n.latches[k].lit == res
    {
      if n.latches[i].lit > res {
        res := n.latches[i].lit;
      }
      i := i + 1;
    }
  }

  method IsReencoded(n: Aig) returns (r: bool)
    ensures r <==> Reencoded(n)
  {
    var max, i: nat := 0, 0;
    while i < |n.inputs|
      invariant 0 <= i <= |n.inputs| && max == Var2Lit(i)
      invariant forall k: nat :: k < i ==> n.inputs[k] == Var2Lit(k + 1)
    {
      max := max + 2;
      if max != n.inputs[i] {
        return false;
      }
      i := i + 1;
    }
    i := 0;
    while i < |n.latches|
      invariant 0 <= i <= |n.latches| && max == Var2Lit(|n.inputs| + i)
      invariant forall k: nat :: k < i ==> n.latches[k].lit == Var2Lit(|n.inputs| + k + 1)
    {
      max := max + 2;
      if max != n.latches[i].lit {
        return false;
      }
      i := i + 1;
    }
    var lhs := MaxInputOrLatch(n);
    MaxIsLast(n, lhs);
    lhs := lhs + 2;
    i := 0;
    while i < |n.ands|
      invariant 0 <= i <= |n.ands| && lhs == max + Var2Lit(i + 1)
      invariant forall k: nat :: k < i ==> n.ands[k].lhs == Var2Lit(|n.inputs| + |n.latches| + k + 1) && n.ands[k].lhs >= n.ands[k].rhs0 >= n.ands[k].rhs1
    {
      var and := n.ands[i];
      if and.lhs <= max || and.lhs != lhs || and.lhs < and.rhs0 || and.rhs0 < and.rhs1 {
        return false;
      }
      lhs := lhs + 2;
      i := i + 1;
    }
    return true;
  }

  lemma MaxIsLast(n: Aig, res: nat)
    requires forall i: nat :: i < |n.inputs| ==> n.inputs[i] == Var2Lit(i + 1)
    requires forall i: nat :: i < |n.latches| ==> n.latches[i].lit == Var2Lit(|n.inputs| + i + 1)
    requires forall i :: 0 <= i < |n.inputs| ==> n.inputs[i] <= res
    requires forall i :: 0 <= i < |n.latches| ==> n.latches[i].lit <= res
    requires res == 0 || res in n.inputs || exists i :: 0 <= i < |n.latches| && n.latches[i].lit == res
    ensures res == Var2Lit(|n.inputs| + |n.latches|)
  {
    if |n.latches| > 0 {
      assert n.latches[|n.latches| - 1].lit == Var2Lit(|n.inputs| + |n.latches|);
    } else if |n.inputs| > 0 {
      assert n.inputs[|n.inputs| - 1] == Var2Lit(|n.inputs|);
    }
  }

  // ----- the codes of inputs and latches -----

  function LeafVar(n: Aig, k: nat): nat
    requires k < |n.inputs| + |n.latches|
  {
    if k < |n.inputs| then Lit2Var(n.inputs[k]) else Lit2Var(n.latches[k - |n.inputs|].lit)
  }

  function LeafVars(n: Aig): (r: seq<nat>)
    ensures |r| == |n.inputs| + |n.latches|
    ensures forall k: nat :: k < |r| ==> r[k] == LeafVar(n, k)
  {
    seq(|n.inputs| + |n.latches|, k requires 0 <= k < |n.inputs| + |n.latches| => LeafVar(n, k))
  }

  // Every variable among inputs and latches occurs once.
  lemma LeafVarsDistinct(n: Aig, types: seq<Type>)
    requires TypesMatch(n, types)
    ensures Once(LeafVars(n), n.maxvar)
    ensures forall i: nat :: i < |LeafVars(n)| ==> types[LeafVars(n)[i]].input || types[LeafVars(n)[i]].latch
    ensures forall v: nat :: 1 <= v <= n.maxvar && (types[v].input || types[v].latch) ==> v in LeafVars(n)
  {
    var r := LeafVars(n);
    forall i: nat | i < |r|
      ensures 1 <= r[i] <= n.maxvar
      ensures if i < |n.inputs| then types[r[i]].input && types[r[i]].idx == i else types[r[i]].latch && types[r[i]].idx == i - |n.inputs|
    {
      if i < |n.inputs| {
        assert InputMatch(n, types, i);
      } else {
        assert LatchMatch(n, types, i - |n.inputs|);
      }
    }
    forall i: nat, j: nat | i < j < |r| ensures r[i] != r[j] {
      assert TypeMatch(n, types[r[i]], r[i]);
    }
    forall v: nat | 1 <= v <= n.maxvar && (types[v].input || types[v].latch) ensures v in r {
      assert TypeMatch(n, types[v], v);
      assert if types[v].input then r[types[v].idx] == v else r[|n.inputs| + types[v].idx] == v;
    }
  }

  method CodeLeaf(v: nat, new_: nat, code: array<nat>, ghost leaves: seq<nat>, ghost k: nat, ghost maxvar: nat) returns (new': nat)
    requires Once(leaves, maxvar) && k < |leaves| && leaves[k] == v
    requires Codes(code[..], leaves[..k], maxvar) && new_ == 2 * (k + 1)
    modifies code
    ensures Codes(code[..], leaves[..k + 1], maxvar) && new' == new_ + 2
  {
    Uncoded(code[..], leaves[..k], maxvar, v);
    new' := NewCode(v, new_, code, leaves[..k], maxvar);
    assert leaves[..k + 1] == leaves[..k] + [leaves[k]];
  }

  lemma TakeAll(s: seq<nat>, k: nat)
    requires k == |s|
    ensures s[..k] == s
  {
  }

  method CodeInputs(a: Aiger, code: array<nat>, ghost leaves: seq<nat>) returns (new_: nat)
    requires leaves == LeafVars(Public(a)) && Once(leaves, a.maxvar) && Codes(code[..], [], a.maxvar)
    modifies code
    ensures Codes(code[..], leaves[..|a.inputs|], a.maxvar) && new_ == 2 * (|a.inputs| + 1)
  {
    new_ := 2;
    var i: nat := 0;
    while i < |a.inputs|
      invariant 0 <= i <= |a.inputs| && new_ == 2 * (i + 1)
      invariant Codes(code[..], leaves[..i], a.maxvar)
    {
      new_ := CodeLeaf(Lit2Var(a.inputs[i]), new_, code, leaves, i, a.maxvar);
      i := i + 1;
    }
  }

  method CodeLatches(a: Aiger, new_: nat, code: array<nat>, ghost leaves: seq<nat>) returns (new': nat)
    requires leaves == LeafVars(Public(a)) && Once(leaves, a.maxvar)
    requires Codes(code[..], leaves[..|a.inputs|], a.maxvar) && new_ == 2 * (|a.inputs| + 1)
    modifies code
    ensures Codes(code[..], leaves, a.maxvar) && new' == 2 * (|leaves| + 1)
  {
    new' := new_;
    var i: nat := 0;
    ghost var k := |a.inputs|;
    while i < |a.latches|
      invariant 0 <= i <= |a.latches| && k == |a.inputs| + i && new' == 2 * (k + 1)
      invariant Codes(code[..], leaves[..k], a.maxvar)
    {
      assert leaves[k] == LeafVar(Public(a), k);
      new' := CodeLeaf(Lit2Var(a.latches[i].lit), new', code, leaves, k, a.maxvar);
      i, k := i + 1, k + 1;
    }
    TakeAll(leaves, k);
  }

  lemma Uncoded(code: seq<nat>, order: seq<nat>, maxvar: nat, v: nat)
    requires Codes(code, order, maxvar) && 1 <= v <= maxvar && v !in order
    ensures code[Var2Lit(v)] == 0
  {
    assert CodedRight(code, order, v);
  }

  // ----- the walk over all next-state functions and outputs -----

  ghost predicate InCone(g: Graph, roots: seq<nat>, v: nat) {
    exists i :: 0 <= i < |roots| && Reaches(g, Lit2Var(roots[i]), v)
  }

  // Everything numbered is a gate in the cone; every root that is a gate is numbered.
  ghost predicate ConeSoFar(g: Graph, roots: seq<nat>, order: seq<nat>, from: nat, rank: map<nat, nat>) {
    && (forall k :: from <= k < |order| ==> IsGate(g, order[k]) && InCone(g, roots, order[k]))
    && forall i :: 0 <= i < |roots| && IsGate(g, Lit2Var(roots[i])) ==> Lit2Var(roots[i]) in rank
  }

  lemma ConeMore(g: Graph, roots: seq<nat>, lit: nat, order: seq<nat>, order': seq<nat>, from: nat, rank: map<nat, nat>, rank': map<nat, nat>)
    requires ConeSoFar(g, roots, order, from, rank) && from <= |order| && order <= order' && rank.Keys <= rank'.Keys
    requires Below(g, Lit2Var(lit), order', |order|) && (IsGate(g, Lit2Var(lit)) ==> Lit2Var(lit) in rank')
    ensures ConeSoFar(g, roots + [lit], order', from, rank')
  {
    var roots' := roots + [lit];
    forall k | from <= k < |order'| ensures IsGate(g, order'[k]) && InCone(g, roots', order'[k]) {
      if k < |order| {
        assert order'[k] == order[k];
        var i :| 0 <= i < |roots| && Reaches(g, Lit2Var(roots[i]), order[k]);
        assert roots'[i] == roots[i];
      } else {
        assert roots'[|roots|] == lit;
      }
    }
  }

  // The numbered gates are exactly the cone.
  lemma ConeExactly(g: Graph, roots: seq<nat>, order: seq<nat>, from: nat, rank: map<nat, nat>, v: nat)
    requires ConeSoFar(g, roots, order, from, rank) && Ranked(g, rank) && IsGate(g, v)
    ensures InCone(g, roots, v) ==> v in rank
  {
    if InCone(g, roots, v) {
      var i :| 0 <= i < |roots| && Reaches(g, Lit2Var(roots[i]), v);
      RootIsGate(g, Lit2Var(roots[i]), v);
      RankedClosed(g, rank, Lit2Var(roots[i]), v);
    }
  }

  lemma RootIsGate(g: Graph, u: nat, v: nat)
    requires Reaches(g, u, v) && IsGate(g, v)
    ensures IsGate(g, u)
  {
    var p: seq<nat> :| |p| > 0 && p[0] == u && p[|p| - 1] == v && IsPath(g, p);
    if |p| > 1 {
      assert IsChild(g, p[0], p[1]);
    }
  }

  ghost predicate CodedLit(code: seq<nat>, lit: nat) {
    lit < |code| && Var2Lit(Lit2Var(lit)) + 1 < |code| && (Lit2Var(lit) == 0 || code[Var2Lit(Lit2Var(lit))] != 0)
  }

  // A coded literal keeps its code, which keeps its sign.
  lemma CodedLitKept(code: seq<nat>, order: seq<nat>, code': seq<nat>, order': seq<nat>, maxvar: nat, lit: nat)
    requires Codes(code, order, maxvar) && Codes(code', order', maxvar) && order <= order' && CodedLit(code, lit)
    ensures CodedLit(code', lit) && code'[lit] == code[lit]
  {
    CodesKept(code, order, code', order', maxvar);
    var v := Lit2Var(lit);
    assert lit == Var2Lit(v) || lit == Var2Lit(v) + 1;
    if v > 0 {
      assert CodedRight(code, order, v) && CodedRight(code', order', v);
    }
  }

  function Nexts(latches: seq<Latch>): (r: seq<nat>)
    ensures |r| == |latches| && forall i :: 0 <= i < |r| ==> r[i] == latches[i].next
  {
    seq(|latches|, i requires 0 <= i < |latches| => latches[i].next)
  }

  // Literals replaced by their codes, in their order.
  ghost predicate Recoded(code: seq<nat>, lits: seq<nat>, lits': seq<nat>) {
    |lits'| == |lits| && forall i :: 0 <= i < |lits| ==> CodedLit(code, lits[i]) && lits'[i] == code[lits[i]]
  }

  lemma RecodedMore(code: seq<nat>, order: seq<nat>, code': seq<nat>, order': seq<nat>, maxvar: nat,
                    lits: seq<nat>, lits': seq<nat>, lit: nat)
    requires Codes(code, order, maxvar) && Codes(code', order', maxvar) && order <= order'
    requires Recoded(code, lits, lits') && CodedLit(code', lit)
    ensures Recoded(code', lits + [lit], lits' + [code'[lit]])
  {
    forall i | 0 <= i < |lits| ensures CodedLit(code', lits[i]) && lits'[i] == code'[lits[i]] {
      CodedLitKept(code, order, code', order', maxvar, lits[i]);
    }
  }

  ghost predicate AllDefinedIn(types: seq<Type>, maxvar: nat, lits: seq<nat>) {
    forall i :: 0 <= i < |lits| ==> Defined(types, maxvar, lits[i])
  }

  // The state of the walk, with the cone of the roots done so far.
  ghost predicate ConeReady(types: seq<Type>, ands: seq<And>, maxvar: nat, g: Graph, code: seq<nat>, order: seq<nat>, rank: map<nat, nat>,
                            new_: nat, roots: seq<nat>, from: nat)
  {
    && Ready(types, ands, maxvar, g, code, order, rank, new_)
    && from <= |order| && ConeSoFar(g, roots, order, from, rank)
  }

  // aiger_reencode_lit, for one more root.
  method ReencodeRoot(a: Aiger, lit: nat, new_: nat, code: array<nat>, ghost g: Graph, ghost order: seq<nat>, ghost rank: map<nat, nat>,
                      ghost roots: seq<nat>, ghost from: nat)
    returns (res: nat, new': nat, ghost order': seq<nat>, ghost rank': map<nat, nat>)
    requires ConeReady(a.types, a.ands, a.maxvar, g, code[..], order, rank, new_, roots, from) && Defined(a.types, a.maxvar, lit)
    modifies a`types, code
    ensures a.types == old(a.types) && order <= order'
    ensures ConeReady(a.types, a.ands, a.maxvar, g, code[..], order', rank', new', roots + [lit], from)
    ensures CodedLit(code[..], lit) && res == code[lit]
  {
    res, new', order', rank' := ReencodeLit(a, lit, new_, code, g, order, rank);
    CodesKept(old(code[..]), order, code[..], order', a.maxvar);
    KeysGrow(g, old(code[..]), order, rank, |order| + 1, code[..], order', rank', |order'| + 1);
    ConeMore(g, roots, lit, order, order', from, rank, rank');
    RootCoded(a.types, a.ands, a.maxvar, g, code[..], order', rank', new', lit);
  }

  lemma KeysGrow(g: Graph, code: seq<nat>, order: seq<nat>, rank: map<nat, nat>, clock: nat,
                 code': seq<nat>, order': seq<nat>, rank': map<nat, nat>, clock': nat)
    requires Numbered(g, code, order, rank, clock) && Numbered(g, code', order', rank', clock') && order <= order'
    ensures rank.Keys <= rank'.Keys
  {
    CodesKept(code, order, code', order', |g| - 1);
    forall v | v in rank ensures v in rank' {
      assert IsGate(g, v) && 2 * rank[v] == code[Var2Lit(v)];
    }
  }

  lemma RootCoded(types: seq<Type>, ands: seq<And>, maxvar: nat, g: Graph, code: seq<nat>, order: seq<nat>, rank: map<nat, nat>, new_: nat, lit: nat)
    requires Ready(types, ands, maxvar, g, code, order, rank, new_) && Defined(types, maxvar, lit)
    requires IsGate(g, Lit2Var(lit)) ==> Lit2Var(lit) in rank
    ensures CodedLit(code, lit)
  {
  }

  // The literals before i have become their codes, the others are as they were.
  ghost predicate HalfRecoded(code: seq<nat>, lits: seq<nat>, now: seq<nat>, i: nat) {
    i <= |now| == |lits| && now[i..] == lits[i..] && Recoded(code, lits[..i], now[..i])
  }

  lemma HalfMore(types: seq<Type>, ands: seq<And>, maxvar: nat, g: Graph, code: seq<nat>, order: seq<nat>, rank: map<nat, nat>, new_: nat, roots: seq<nat>,
                 code': seq<nat>, order': seq<nat>, rank': map<nat, nat>, new': nat, roots': seq<nat>, from: nat, lits: seq<nat>, now: seq<nat>, i: nat)
    requires ConeReady(types, ands, maxvar, g, code, order, rank, new_, roots, from)
    requires ConeReady(types, ands, maxvar, g, code', order', rank', new', roots', from) && order <= order'
    requires i < |now| && HalfRecoded(code, lits, now, i) && CodedLit(code', lits[i])
    ensures HalfRecoded(code', lits, now[i := code'[lits[i]]], i + 1)
  {
    RecodedMore(code, order, code', order', maxvar, lits[..i], now[..i], lits[i]);
    var more := now[i := code'[lits[i]]];
    assert lits[..i + 1] == lits[..i] + [lits[i]] && more[..i + 1] == now[..i] + [code'[lits[i]]];
    assert more[i + 1..] == now[i..][1..] == lits[i..][1..] == lits[i + 1..];
  }

  lemma FirstLeft(lits: seq<nat>, now: seq<nat>, i: nat)
    requires i < |now| == |lits| && now[i..] == lits[i..]
    ensures now[i] == lits[i] && lits[..i + 1] == lits[..i] + [lits[i]]
  {
    assert now[i..][0] == now[i] && lits[i..][0] == lits[i];
  }

  lemma AllRecoded(code: seq<nat>, lits: seq<nat>, now: seq<nat>)
    requires HalfRecoded(code, lits, now, |lits|)
    ensures Recoded(code, lits, now) && lits[..|lits|] == lits
  {
    assert lits[..|lits|] == lits && now[..|lits|] == now;
  }

  lemma NextReplaced(latches: seq<Latch>, i: nat, res: nat)
    requires i < |latches|
    ensures Nexts(latches[i := latches[i].(next := res)]) == Nexts(latches)[i := res]
  {
  }

  // Both loops over the roots: latches first, then outputs.
  method ReencodeNexts(a: Aiger, new_: nat, code: array<nat>, ghost g: Graph, ghost order: seq<nat>, ghost rank: map<nat, nat>)
    returns (new': nat, ghost order': seq<nat>, ghost rank': map<nat, nat>)
    requires ConeReady(a.types, a.ands, a.maxvar, g, code[..], order, rank, new_, [], |order|) && AllDefinedIn(a.types, a.maxvar, Nexts(a.latches))
    modifies a`types, a`latches, code
    ensures a.types == old(a.types) && order <= order'
    ensures ConeReady(a.types, a.ands, a.maxvar, g, code[..], order', rank', new', Nexts(old(a.latches)), |order|)
    ensures |a.latches| == |old(a.latches)| && forall i :: 0 <= i < |a.latches| ==> a.latches[i].lit == old(a.latches)[i].lit
    ensures Recoded(code[..], Nexts(old(a.latches)), Nexts(a.latches))
  {
    ghost var nexts := Nexts(a.latches);
    new', order', rank' := new_, order, rank;
    var i := 0;
    while i < |a.latches|
      invariant 0 <= i <= |a.latches| == |nexts| && a.types == old(a.types) && order <= order'
      invariant ConeReady(a.types, a.ands, a.maxvar, g, code[..], order', rank', new', nexts[..i], |order|)
      invariant HalfRecoded(code[..], nexts, Nexts(a.latches), i)
      invariant forall k :: 0 <= k < |a.latches| ==> a.latches[k].lit == old(a.latches)[k].lit
    {
      FirstLeft(nexts, Nexts(a.latches), i);
      var res;
      res, new', order', rank' := ReencodeNext(a, i, new', code, g, order', rank', nexts, |order|);
      NextReplaced(a.latches, i, res);
      a.latches := a.latches[i := a.latches[i].(next := res)];
      i := i + 1;
    }
    AllRecoded(code[..], nexts, Nexts(a.latches));
  }

  // One root of each of the two loops.
  method ReencodeNext(a: Aiger, i: nat, new_: nat, code: array<nat>, ghost g: Graph, ghost order: seq<nat>, ghost rank: map<nat, nat>,
                      ghost nexts: seq<nat>, ghost from: nat)
    returns (res: nat, new': nat, ghost order': seq<nat>, ghost rank': map<nat, nat>)
    requires i < |a.latches| == |nexts| && HalfRecoded(code[..], nexts, Nexts(a.latches), i) && a.latches[i].next == nexts[i]
    requires ConeReady(a.types, a.ands, a.maxvar, g, code[..], order, rank, new_, nexts[..i], from) && Defined(a.types, a.maxvar, nexts[i])
    modifies a`types, code
    ensures a.types == old(a.types) && order <= order'
    ensures ConeReady(a.types, a.ands, a.maxvar, g, code[..], order', rank', new', nexts[..i] + [nexts[i]], from)
    ensures HalfRecoded(code[..], nexts, Nexts(a.latches)[i := res], i + 1)
  {
    ghost var was := code[..];
    res, new', order', rank' := ReencodeRoot(a, a.latches[i].next, new_, code, g, order, rank, nexts[..i], from);
    HalfMore(a.types, a.ands, a.maxvar, g, was, order, rank, new_, nexts[..i],
             code[..], order', rank', new', nexts[..i] + [nexts[i]], from, nexts, Nexts(a.latches), i);
  }

  method ReencodeOutput(a: Aiger, i: nat, new_: nat, code: array<nat>, ghost g: Graph, ghost order: seq<nat>, ghost rank: map<nat, nat>,
                        ghost roots: seq<nat>, ghost outputs: seq<nat>, ghost from: nat)
    returns (res: nat, new': nat, ghost order': seq<nat>, ghost rank': map<nat, nat>)
    requires i < |a.outputs| == |outputs| && HalfRecoded(code[..], outputs, a.outputs, i) && a.outputs[i] == outputs[i]
    requires ConeReady(a.types, a.ands, a.maxvar, g, code[..], order, rank, new_, roots, from) && Defined(a.types, a.maxvar, outputs[i])
    modifies a`types, code
    ensures a.types == old(a.types) && order <= order'
    ensures ConeReady(a.types, a.ands, a.maxvar, g, code[..], order', rank', new', roots + [outputs[i]], from)
    ensures HalfRecoded(code[..], outputs, a.outputs[i := res], i + 1)
  {
    ghost var was := code[..];
    res, new', order', rank' := ReencodeRoot(a, a.outputs[i], new_, code, g, order, rank, roots, from);
    HalfMore(a.types, a.ands, a.maxvar, g, was, order, rank, new_, roots,
             code[..], order', rank', new', roots + [outputs[i]], from, outputs, a.outputs, i);
  }

  method ReencodeOutputs(a: Aiger, new_: nat, code: array<nat>, ghost g: Graph, ghost order: seq<nat>, ghost rank: map<nat, nat>,
                         ghost roots: seq<nat>, ghost from: nat)
    returns (new': nat, ghost order': seq<nat>, ghost rank': map<nat, nat>)
    requires ConeReady(a.types, a.ands, a.maxvar, g, code[..], order, rank, new_, roots, from) && AllDefinedIn(a.types, a.maxvar, a.outputs)
    modifies a`types, a`outputs, code
    ensures a.types == old(a.types) && order <= order'
    ensures ConeReady(a.types, a.ands, a.maxvar, g, code[..], order', rank', new', roots + old(a.outputs), from)
    ensures Recoded(code[..], old(a.outputs), a.outputs)
  {
    ghost var outputs := a.outputs;
    new', order', rank' := new_, order, rank;
    var i := 0;
    assert roots + outputs[..0] == roots;
    while i < |a.outputs|
      invariant 0 <= i <= |a.outputs| == |outputs| && a.types == old(a.types) && order <= order'
      invariant ConeReady(a.types, a.ands, a.maxvar, g, code[..], order', rank', new', roots + outputs[..i], from)
      invariant HalfRecoded(code[..], outputs, a.outputs, i)
    {
      FirstLeft(outputs, a.outputs, i);
      var res;
      res, new', order', rank' := ReencodeOutput(a, i, new', code, g, order', rank', roots + outputs[..i], outputs, from);
      a.outputs := a.outputs[i := res];
      assert roots + outputs[..i + 1] == roots + outputs[..i] + [outputs[i]];
      i := i + 1;
    }
    AllRecoded(code[..], outputs, a.outputs);
  }
}
