// aiger_reencode_lit (src/formats/aiger.c): new codes for the AND gates below a
// literal, given out in the order in which an explicit-stack walk finishes them.

module ReencodeWalk {
  import opened AigGraph
  import opened AigModel

  // The code of the k-th variable numbered is 2 * (k + 1); 0 means no code yet.
  ghost predicate Codes(code: seq<nat>, order: seq<nat>, maxvar: nat) {
    && |code| == 2 * (maxvar + 1) && code[0] == 0 && code[1] == 1
    && (forall k :: 0 <= k < |order| ==> 1 <= order[k] <= maxvar && code[Var2Lit(order[k])] == 2 * (k + 1))
    && forall v: nat :: 1 <= v <= maxvar ==> CodedRight(code, order, v)
  }

  ghost predicate CodedRight(code: seq<nat>, order: seq<nat>, v: nat)
    requires Var2Lit(v) + 1 < |code|
  {
    var c := code[Var2Lit(v)];
    if c == 0 then code[Var2Lit(v) + 1] == 0
    else code[Var2Lit(v) + 1] == c + 1 && c / 2 >= 1 && c / 2 - 1 < |order| && order[c / 2 - 1] == v
  }

  // aiger_new_code.
  method NewCode(v: nat, new_: nat, code: array<nat>, ghost order: seq<nat>, ghost maxvar: nat) returns (new': nat)
    requires Codes(code[..], order, maxvar) && 1 <= v <= maxvar && new_ == 2 * (|order| + 1)
    requires code[Var2Lit(v)] == 0
    modifies code
    ensures Codes(code[..], order + [v], maxvar) && new' == new_ + 2
    ensures code[..] == old(code[..])[Var2Lit(v) := new_][Var2Lit(v) + 1 := new_ + 1]
  {
    var lit := Var2Lit(v);
    var res := new_;
    code[lit] := res;
    code[lit + 1] := res + 1;
    new' := new_ + 2;
    forall k | 0 <= k < |order| ensures order[k] != v && code[Var2Lit(order[k])] == 2 * (k + 1) {
      assert old(code[..])[Var2Lit(order[k])] == 2 * (k + 1);
    }
    forall w: nat | 1 <= w <= maxvar ensures CodedRight(code[..], order + [v], w) {
      assert CodedRight(old(code[..]), order, w);
    }
  }

  // The ranks of the walk are the codes of the gates.
  ghost predicate Numbered(g: Graph, code: seq<nat>, order: seq<nat>, rank: map<nat, nat>, clock: nat) {
    && |g| >= 1 && Codes(code, order, |g| - 1) && clock == |order| + 1
    && (forall v: nat :: v < |g| ==> (v in rank <==> IsGate(g, v) && code[Var2Lit(v)] != 0))
    && forall v: nat :: v in rank ==> IsGate(g, v) && 2 * rank[v] == code[Var2Lit(v)]
  }

  // Only the onstack bits of active gates are set.
  ghost predicate OnStack(types: seq<Type>, entry: seq<Type>, frames: seq<Frame>) {
    |types| == |entry| && forall v: nat :: v < |types| ==> OnStackAt(types, entry, frames, v)
  }

  ghost predicate OnStackAt(types: seq<Type>, entry: seq<Type>, frames: seq<Frame>, v: nat)
    requires v < |types| == |entry|
  {
    types[v] == entry[v].(onstack := Active(frames, v))
  }

  ghost function Fresh(types: seq<Type>, code: seq<nat>, g: Graph): set<nat>
    requires |g| <= |types| && 2 * |g| <= |code|
  {
    set v: nat | v < |g| && IsGate(g, v) && !types[v].onstack && code[Var2Lit(v)] == 0
  }

  // Every entry of the stack is a gate below the root.
  ghost predicate Entries(g: Graph, root: nat, stack: seq<nat>) {
    forall k :: 0 <= k < |stack| && stack[k] != 0 ==> IsGate(g, stack[k]) && Reaches(g, root, stack[k])
  }

  // What an AIG must be for the walk: every variable below a gate is defined, no cycles.
  ghost predicate Sound(types: seq<Type>, ands: seq<And>, maxvar: nat, g: Graph) {
    && TypesFit(types, ands, maxvar) && g == GatesOf(types, ands, maxvar) && !Cyclic(g)
    && (forall v: nat :: v <= maxvar && types[v].and ==> !types[v].input && !types[v].latch)
    && forall u, v: nat :: IsChild(g, u, v) && v != 0 ==> types[v].input || types[v].latch || types[v].and
  }

  // Pushes the children that still may need a code, the smaller one on top.
  method PushChildren(a: Aiger, old_: nat, stack: seq<nat>) returns (stack': seq<nat>, ghost kids: seq<nat>)
    requires TypesFit(a.types, a.ands, a.maxvar) && old_ <= a.maxvar && a.types[old_].and
    ensures stack' == stack + kids
    ensures forall k :: 0 <= k < |kids| ==> kids[k] != 0 && Pushed(a.types, kids[k])
    ensures forall k :: 0 <= k < |kids| ==> kids[k] == GateOf(a.types, a.ands, old_).l || kids[k] == GateOf(a.types, a.ands, old_).r
    ensures forall c :: c == GateOf(a.types, a.ands, old_).l || c == GateOf(a.types, a.ands, old_).r ==>
              c == 0 || !Pushed(a.types, c) || c in kids
  {
    var and := a.ands[a.types[old_].idx];
    var child0, child1 := Lit2Var(and.rhs0), Lit2Var(and.rhs1);
    if child0 < child1 {
      child0, child1 := child1, child0;
    }
    stack', kids := stack, [];
    if child0 != 0 {
      var type_ := a.types[child0];
      if !type_.input && !type_.latch && !type_.onstack {
        stack' := stack' + [child0];
        kids := kids + [child0];
      }
    }
    if child1 != 0 {
      var type_ := a.types[child1];
      if !type_.input && !type_.latch && !type_.onstack {
        stack' := stack' + [child1];
        kids := kids + [child1];
      }
    }
  }

  predicate Pushed(types: seq<Type>, c: nat) {
    c < |types| && !types[c].input && !types[c].latch && !types[c].onstack
  }

  lemma StillSound(types: seq<Type>, entry: seq<Type>, ands: seq<And>, maxvar: nat, g: Graph, frames: seq<Frame>)
    requires Sound(entry, ands, maxvar, g) && OnStack(types, entry, frames)
    ensures Sound(types, ands, maxvar, g) && WfGraph(g)
  {
    forall v: nat | v < |types|
      ensures types[v].and == entry[v].and && types[v].idx == entry[v].idx
      ensures types[v].input == entry[v].input && types[v].latch == entry[v].latch
    {
      assert OnStackAt(types, entry, frames, v);
    }
    assert GatesOf(types, ands, maxvar) == GatesOf(entry, ands, maxvar);
  }

  lemma OnStackMore(types: seq<Type>, entry: seq<Type>, frames: seq<Frame>, f: Frame)
    requires OnStack(types, entry, frames) && f.node < |types|
    ensures OnStack(types[f.node := types[f.node].(onstack := true)], entry, frames + [f])
  {
    var types' := types[f.node := types[f.node].(onstack := true)];
    forall v: nat | v < |types| ensures OnStackAt(types', entry, frames + [f], v) {
      assert OnStackAt(types, entry, frames, v);
      ActiveMore(frames, f, v);
    }
  }

  lemma OnStackLess(types: seq<Type>, entry: seq<Type>, frames: seq<Frame>)
    requires OnStack(types, entry, frames) && Distinct(frames) && |frames| > 0 && frames[|frames| - 1].node < |types|
    ensures OnStack(types[frames[|frames| - 1].node := types[frames[|frames| - 1].node].(onstack := false)], entry, frames[..|frames| - 1])
  {
    var j, frames' := frames[|frames| - 1].node, frames[..|frames| - 1];
    var types' := types[j := types[j].(onstack := false)];
    forall v: nat | v < |types| ensures OnStackAt(types', entry, frames', v) {
      assert OnStackAt(types, entry, frames, v);
      ActiveLess(frames, v);
    }
  }

  lemma KidsWait(g: Graph, types: seq<Type>, ands: seq<And>, maxvar: nat, entry: seq<Type>,
                 rank: map<nat, nat>, clock: nat, frames: seq<Frame>, top: seq<nat>, kids: seq<nat>, j: nat)
    requires Sound(types, ands, maxvar, g) && Walk(g, rank, clock, frames, top)
    requires |top| > 0 && j == top[|top| - 1] && IsGate(g, j) && j !in rank && !Active(frames, j)
    requires OnStack(types, entry, frames + [Frame(top[..|top| - 1], j)])
    requires forall v :: 0 <= v < |entry| ==> !entry[v].onstack
    requires forall k :: 0 <= k < |kids| ==> kids[k] != 0 && Pushed(types, kids[k])
    requires forall k :: 0 <= k < |kids| ==> IsChild(g, j, kids[k])
    requires forall c: nat :: IsChild(g, j, c) ==> c == 0 || !Pushed(types, c) || c in kids
    ensures ChildrenOf(g, j, kids) && Waits(g, rank, j, kids)
    ensures forall k :: 0 <= k < |kids| ==> IsGate(g, kids[k])
  {
    forall k | 0 <= k < |kids| ensures IsGate(g, kids[k]) {
      assert IsChild(g, j, kids[k]) && kids[k] < |g|;
    }
    forall c: nat | IsChild(g, j, c) && IsGate(g, c) ensures c in kids {
      NoActiveChild(g, rank, clock, frames, top, c);
      ActiveMore(frames, Frame(top[..|top| - 1], j), c);
      assert OnStackAt(types, entry, frames + [Frame(top[..|top| - 1], j)], c);
      assert Pushed(types, c);
    }
  }

  lemma EntriesMore(g: Graph, root: nat, stack: seq<nat>, j: nat, kids: seq<nat>)
    requires Entries(g, root, stack + [j]) && j != 0
    requires forall k :: 0 <= k < |kids| ==> IsGate(g, kids[k]) && IsChild(g, j, kids[k])
    ensures Entries(g, root, stack + [j, 0] + kids)
  {
    var s, s' := stack + [j], stack + [j, 0] + kids;
    assert s[|stack|] == j;
    forall k | 0 <= k < |s'| && s'[k] != 0 ensures IsGate(g, s'[k]) && Reaches(g, root, s'[k]) {
      if k <= |stack| {
        assert s'[k] == s[k];
      } else {
        assert s'[k] == kids[k - |stack| - 2];
        ReachesChild(g, root, j, s'[k]);
      }
    }
  }

  lemma FreshLess(types: seq<Type>, code: seq<nat>, g: Graph, j: nat)
    requires |g| <= |types| && 2 * |g| <= |code| && IsGate(g, j) && !types[j].onstack && code[Var2Lit(j)] == 0
    ensures Fresh(types[j := types[j].(onstack := true)], code, g) < Fresh(types, code, g)
  {
    var types' := types[j := types[j].(onstack := true)];
    assert j in Fresh(types, code, g) && j !in Fresh(types', code, g);
    assert forall v :: v in Fresh(types', code, g) ==> v in Fresh(types, code, g);
  }

  // A gate popped for the first time goes back with a marker and its children.
  method ExpandTop(a: Aiger, j: nat, stack: seq<nat>, ghost entry: seq<Type>, ghost g: Graph, ghost clock: nat,
                   ghost rank: map<nat, nat>, ghost frames: seq<Frame>, ghost top: seq<nat>, ghost root: nat, ghost code: seq<nat>)
    returns (stack': seq<nat>, ghost frames': seq<Frame>, ghost top': seq<nat>)
    requires Sound(entry, a.ands, a.maxvar, g) && OnStack(a.types, entry, frames)
    requires forall v :: 0 <= v < |entry| ==> !entry[v].onstack
    requires Walk(g, rank, clock, frames, top) && |top| > 0 && j == top[|top| - 1]
    requires stack + [j] == Flatten(frames) + top
    requires IsGate(g, j) && j !in rank && !Active(frames, j)
    requires Entries(g, root, stack + [j]) && Rooted(frames, top, root)
    requires j != 0 && |code| == 2 * |g| && code[Var2Lit(j)] == 0 && !a.types[j].onstack
    modifies a`types
    ensures Walk(g, rank, clock, frames', top') && OnStack(a.types, entry, frames')
    ensures stack' == Flatten(frames') + top' && Entries(g, root, stack')
    ensures Rooted(frames', top', root) && frames' != []
    ensures |g| <= |a.types| && Fresh(a.types, code, g) < Fresh(old(a.types), code, g)
  {
    ghost var f := Frame(top[..|top| - 1], j);
    frames' := frames + [f];
    StillSound(a.types, entry, a.ands, a.maxvar, g, frames);
    OnStackMore(a.types, entry, frames, f);
    FreshLess(a.types, code, g, j);
    a.types := a.types[j := a.types[j].(onstack := true)];
    StillSound(a.types, entry, a.ands, a.maxvar, g, frames');
    stack' := stack + [j] + [0];
    stack', top' := PushChildren(a, j, stack');
    assert GateOf(a.types, a.ands, j) == g[j];
    KidsWait(g, a.types, a.ands, a.maxvar, entry, rank, clock, frames, top, top', j);
    EntriesMore(g, root, stack, j, top');
    assert stack' == stack + [j, 0] + top';
    PushMarker(stack + [j], frames, top, top');
    WalkExpand(g, rank, clock, frames, top, top');
  }

  // The next code for gate j, which all its inputs have got.
  method CodeTop(j: nat, new_: nat, code: array<nat>, ghost g: Graph, ghost order: seq<nat>, ghost clock: nat, ghost rank: map<nat, nat>)
    returns (new': nat)
    requires Numbered(g, code[..], order, rank, clock) && WfGraph(g) && IsGate(g, j) && new_ == 2 * (|order| + 1)
    requires code[Var2Lit(j)] == 0
    modifies code
    ensures Numbered(g, code[..], order + [j], rank[j := clock], clock + 1) && new' == new_ + 2
    ensures code[..] == old(code[..])[Var2Lit(j) := new_][Var2Lit(j) + 1 := new_ + 1]
  {
    new' := NewCode(j, new_, code, order, |g| - 1);
    NumberedMore(g, old(code[..]), order, rank, clock, j, code[..]);
  }

  // A marker on top: the gate below it gets the next code.
  method FinishTop(a: Aiger, stack: seq<nat>, new_: nat, code: array<nat>, ghost entry: seq<Type>, ghost g: Graph,
                   ghost order: seq<nat>, ghost clock: nat, ghost rank: map<nat, nat>, ghost frames: seq<Frame>, ghost root: nat, ghost from: nat)
    returns (stack': seq<nat>, new': nat, ghost order': seq<nat>, ghost clock': nat, ghost rank': map<nat, nat>,
             ghost frames': seq<Frame>, ghost top': seq<nat>)
    requires |g| <= |entry| && OnStack(a.types, entry, frames)
    requires Walk(g, rank, clock, frames, []) && Numbered(g, code[..], order, rank, clock) && WfGraph(g)
    requires stack + [0] == Flatten(frames) && |frames| > 0 && new_ == 2 * (|order| + 1)
    requires Entries(g, root, stack) && Rooted(frames, [], root) && Below(g, root, order, from)
    modifies a`types, code
    ensures order <= order' && |order'| == |order| + 1 && new' == 2 * (|order'| + 1)
    ensures Numbered(g, code[..], order', rank', clock') && Walk(g, rank', clock', frames', top')
    ensures OnStack(a.types, entry, frames') && stack' == Flatten(frames') + top'
    ensures |stack'| < |stack| && Entries(g, root, stack') && Below(g, root, order', from)
    ensures Rooted(frames', top', root) && (frames' == [] && top' == [] ==> root in rank')
    ensures Fresh(a.types, code[..], g) == Fresh(old(a.types), old(code[..]), g)
  {
    ghost var node := frames[|frames| - 1].node;
    FinishStack(stack, frames, root);
    WalkFinish(g, rank, clock, frames);
    assert FrameOk(g, rank, frames, [], |frames| - 1);
    OnStackLess(a.types, entry, frames);
    assert OnStackAt(a.types, entry, frames, node) && Active(frames, node);
    var j := stack[|stack| - 1];
    stack' := stack[..|stack| - 1];
    a.types := a.types[j := a.types[j].(onstack := false)];
    new' := CodeTop(j, new_, code, g, order, clock, rank);
    order', clock', rank' := order + [j], clock + 1, rank[j := clock];
    frames', top' := frames[..|frames| - 1], frames[|frames| - 1].pend;
    FreshSame(old(a.types), a.types, old(code[..]), code[..], g, j);
    EntriesLess(g, root, stack, order, from);
  }

  lemma FinishStack(stack: seq<nat>, frames: seq<Frame>, root: nat)
    requires stack + [0] == Flatten(frames) && |frames| > 0 && Rooted(frames, [], root)
    ensures |stack| > 0 && stack[|stack| - 1] == frames[|frames| - 1].node
    ensures stack[..|stack| - 1] == Flatten(frames[..|frames| - 1]) + frames[|frames| - 1].pend
    ensures Rooted(frames[..|frames| - 1], frames[|frames| - 1].pend, root)
    ensures frames[..|frames| - 1] == [] ==> frames[|frames| - 1].node == root
  {
    PopMarker(stack + [0], frames);
    MarkerOff(stack);
    StillRooted(frames, root);
  }

  lemma MarkerOff(stack: seq<nat>)
    requires |stack| > 0
    ensures (stack + [0])[..|stack + [0]| - 2] == stack[..|stack| - 1] && (stack + [0])[|stack + [0]| - 2] == stack[|stack| - 1]
  {
  }

  lemma StillRooted(frames: seq<Frame>, root: nat)
    requires |frames| > 0 && Rooted(frames, [], root)
    ensures Rooted(frames[..|frames| - 1], frames[|frames| - 1].pend, root)
    ensures frames[..|frames| - 1] == [] ==> frames[|frames| - 1].node == root
  {
    if |frames| > 1 {
      assert frames[..|frames| - 1][0] == frames[0];
    }
  }

  lemma NumberedMore(g: Graph, code: seq<nat>, order: seq<nat>, rank: map<nat, nat>, clock: nat, j: nat, code': seq<nat>)
    requires Numbered(g, code, order, rank, clock) && IsGate(g, j) && WfGraph(g)
    requires Codes(code', order + [j], |g| - 1)
    requires code' == code[Var2Lit(j) := 2 * clock][Var2Lit(j) + 1 := 2 * clock + 1]
    ensures Numbered(g, code', order + [j], rank[j := clock], clock + 1)
  {
  }

  lemma FreshSame(types: seq<Type>, types': seq<Type>, code: seq<nat>, code': seq<nat>, g: Graph, j: nat)
    requires |g| <= |types| && 2 * |g| <= |code| && IsGate(g, j) && types[j].onstack
    requires |types'| == |types| && types' == types[j := types'[j]] && 2 * j + 1 < |code|
    requires |code'| == |code| && code' == code[Var2Lit(j) := code'[Var2Lit(j)]][Var2Lit(j) + 1 := code'[Var2Lit(j) + 1]] && code'[Var2Lit(j)] != 0
    ensures Fresh(types', code', g) == Fresh(types, code, g)
  {
    forall v: nat | v < |g| ensures v in Fresh(types', code', g) <==> v in Fresh(types, code, g) {
      if v != j {
        assert code'[Var2Lit(v)] == code[Var2Lit(v)];
      }
    }
  }

  lemma EntriesLess(g: Graph, root: nat, stack: seq<nat>, order: seq<nat>, from: nat)
    requires Entries(g, root, stack) && |stack| > 0 && stack[|stack| - 1] != 0 && Below(g, root, order, from)
    ensures Entries(g, root, stack[..|stack| - 1]) && Below(g, root, order + [stack[|stack| - 1]], from)
  {
  }

  // Everything the walk keeps between calls.
  ghost predicate Ready(types: seq<Type>, ands: seq<And>, maxvar: nat, g: Graph, code: seq<nat>, order: seq<nat>, rank: map<nat, nat>, new_: nat) {
    && Sound(types, ands, maxvar, g) && (forall v :: 0 <= v < |types| ==> !types[v].onstack)
    && Numbered(g, code, order, rank, |order| + 1) && Walk(g, rank, |order| + 1, [], [])
    && new_ == 2 * (|order| + 1)
    && forall v: nat :: v <= maxvar && (types[v].input || types[v].latch) ==> code[Var2Lit(v)] != 0
  }

  // The variables numbered since are gates below the root.
  ghost predicate Below(g: Graph, root: nat, order: seq<nat>, from: nat) {
    forall k :: from <= k < |order| ==> IsGate(g, order[k]) && Reaches(g, root, order[k])
  }

  method ReencodeLit(a: Aiger, lit: nat, new_: nat, code: array<nat>, ghost g: Graph, ghost order: seq<nat>, ghost rank: map<nat, nat>)
    returns (res: nat, new': nat, ghost order': seq<nat>, ghost rank': map<nat, nat>)
    requires Ready(a.types, a.ands, a.maxvar, g, code[..], order, rank, new_) && Defined(a.types, a.maxvar, lit)
    modifies a`types, code
    ensures a.types == old(a.types) && order <= order'
    ensures Ready(a.types, a.ands, a.maxvar, g, code[..], order', rank', new')
    ensures res == code[lit] && (lit >= 2 ==> res != 0)
    ensures Below(g, Lit2Var(lit), order', |order|)
    ensures IsGate(g, Lit2Var(lit)) ==> Lit2Var(lit) in rank'
  {
    new', order', rank' := new_, order, rank;
    if lit < 2 {
      return lit, new', order', rank';
    }
    res := code[lit];
    var root := Lit2Var(lit);
    assert CodedRight(code[..], order, root);
    if res != 0 {
      return;
    }
    ghost var entry := a.types;
    assert IsGate(g, root);
    new', order', rank' := WalkFrom(a, root, new_, code, g, order, rank);
    assert CodedRight(code[..], order', root);
    res := code[lit];
  }

  lemma NotActiveTop(g: Graph, rank: map<nat, nat>, clock: nat, frames: seq<Frame>, top: seq<nat>)
    requires Walk(g, rank, clock, frames, top) && |top| > 0 && !Cyclic(g)
    ensures !Active(frames, top[|top| - 1])
  {
    if Active(frames, top[|top| - 1]) {
      var p := WalkCycle(g, rank, clock, frames, top);
    }
  }

  method WalkFrom(a: Aiger, root: nat, new_: nat, code: array<nat>, ghost g: Graph, ghost order: seq<nat>, ghost rank: map<nat, nat>)
    returns (new': nat, ghost order': seq<nat>, ghost rank': map<nat, nat>)
    requires Ready(a.types, a.ands, a.maxvar, g, code[..], order, rank, new_) && IsGate(g, root)
    modifies a`types, code
    ensures a.types == old(a.types) && order <= order'
    ensures Ready(a.types, a.ands, a.maxvar, g, code[..], order', rank', new')
    ensures Below(g, root, order', |order|) && root in rank'
  {
    new', order', rank' := WalkLoop(a, root, new_, code, g, order, rank);
    CodesKept(old(code[..]), order, code[..], order', a.maxvar);
  }

  // An entry popped: skipped if it has its code, expanded otherwise.
  method VisitTop(a: Aiger, j: nat, stack: seq<nat>, code: array<nat>, ghost entry: seq<Type>, ghost g: Graph, ghost order: seq<nat>,
                  ghost clock: nat, ghost rank: map<nat, nat>, ghost frames: seq<Frame>, ghost top: seq<nat>, ghost root: nat)
    returns (stack': seq<nat>, ghost frames': seq<Frame>, ghost top': seq<nat>)
    requires Sound(entry, a.ands, a.maxvar, g) && OnStack(a.types, entry, frames)
    requires forall v :: 0 <= v < |entry| ==> !entry[v].onstack
    requires Walk(g, rank, clock, frames, top) && Numbered(g, code[..], order, rank, clock)
    requires stack + [j] == Flatten(frames) + top && j != 0
    requires Entries(g, root, stack + [j]) && Rooted(frames, top, root)
    modifies a`types
    ensures code[..] == old(code[..])
    ensures Walk(g, rank, clock, frames', top') && OnStack(a.types, entry, frames')
    ensures stack' == Flatten(frames') + top' && Entries(g, root, stack')
    ensures Rooted(frames', top', root) && (frames' == [] && top' == [] ==> root in rank)
    ensures |g| <= |a.types| == |old(a.types)|
    ensures Fresh(a.types, code[..], g) < Fresh(old(a.types), code[..], g)
            || (a.types == old(a.types) && |stack'| == |stack|)
  {
    TopEntry(stack, j, frames, top);
    assert (stack + [j])[|stack|] == j;
    assert OnStackAt(a.types, entry, frames, j);
    NotActiveTop(g, rank, clock, frames, top);
    if code[Var2Lit(j)] != 0 || a.types[j].onstack {
      WalkPop(g, rank, clock, frames, top);
      stack', frames', top' := stack, frames, top[..|top| - 1];
      EntriesPrefix(g, root, stack, j);
    } else {
      stack', frames', top' := ExpandTop(a, j, stack, entry, g, clock, rank, frames, top, root, code[..]);
    }
  }

  lemma EntriesPrefix(g: Graph, root: nat, stack: seq<nat>, j: nat)
    requires Entries(g, root, stack + [j])
    ensures Entries(g, root, stack)
  {
    forall k | 0 <= k < |stack| && stack[k] != 0 ensures IsGate(g, stack[k]) && Reaches(g, root, stack[k]) {
      assert (stack + [j])[k] == stack[k];
    }
  }

  // Where the loop stands.
  ghost predicate Walking(g: Graph, types: seq<Type>, entry: seq<Type>, code: seq<nat>, order: seq<nat>, clock: nat, rank: map<nat, nat>,
                          frames: seq<Frame>, top: seq<nat>, stack: seq<nat>, root: nat, from: nat) {
    && Walk(g, rank, clock, frames, top) && OnStack(types, entry, frames) && Numbered(g, code, order, rank, clock)
    && stack == Flatten(frames) + top && Entries(g, root, stack) && Below(g, root, order, from)
    && Rooted(frames, top, root) && (frames == [] && top == [] ==> root in rank)
  }

  lemma WalkStart(g: Graph, entry: seq<Type>, code: seq<nat>, order: seq<nat>, rank: map<nat, nat>, root: nat)
    requires Numbered(g, code, order, rank, |order| + 1) && Walk(g, rank, |order| + 1, [], []) && IsGate(g, root) && WfGraph(g)
    requires forall v :: 0 <= v < |entry| ==> !entry[v].onstack
    ensures Walking(g, entry, entry, code, order, |order| + 1, rank, [], [root], [root], root, |order|)
  {
    ReachesSelf(g, root);
    assert forall v: nat :: v < |entry| ==> OnStackAt(entry, entry, [], v);
    assert Flatten([]) + [root] == [root];
  }

  // One entry taken off the stack.
  method WalkStep(a: Aiger, stack: seq<nat>, new_: nat, code: array<nat>, ghost entry: seq<Type>, ghost g: Graph, ghost order: seq<nat>,
                  ghost clock: nat, ghost rank: map<nat, nat>, ghost frames: seq<Frame>, ghost top: seq<nat>, ghost root: nat, ghost from: nat)
    returns (stack': seq<nat>, new': nat, ghost order': seq<nat>, ghost clock': nat, ghost rank': map<nat, nat>,
             ghost frames': seq<Frame>, ghost top': seq<nat>)
    requires Sound(entry, a.ands, a.maxvar, g) && forall v :: 0 <= v < |entry| ==> !entry[v].onstack
    requires Walking(g, a.types, entry, code[..], order, clock, rank, frames, top, stack, root, from)
    requires |stack| > 0 && new_ == 2 * (|order| + 1)
    modifies a`types, code
    ensures Walking(g, a.types, entry, code[..], order', clock', rank', frames', top', stack', root, from)
    ensures order <= order' && new' == 2 * (|order'| + 1)
    ensures Fresh(a.types, code[..], g) < Fresh(old(a.types), old(code[..]), g)
            || (Fresh(a.types, code[..], g) == Fresh(old(a.types), old(code[..]), g) && |stack'| < |stack|)
  {
    var old_ := stack[|stack| - 1];
    SplitLast(stack);
    stack', new', order', clock', rank', frames', top' := stack[..|stack| - 1], new_, order, clock, rank, frames, top;
    if old_ != 0 {
      stack', frames', top' := VisitTop(a, old_, stack', code, entry, g, order, clock, rank, frames, top, root);
    } else {
      TopMarker(stack', frames, top);
      EntriesPrefix(g, root, stack', 0);
      stack', new', order', clock', rank', frames', top' := FinishTop(a, stack', new', code, entry, g, order, clock, rank, frames, root, from);
    }
  }

  method WalkLoop(a: Aiger, root: nat, new_: nat, code: array<nat>, ghost g: Graph, ghost order: seq<nat>, ghost rank: map<nat, nat>)
    returns (new': nat, ghost order': seq<nat>, ghost rank': map<nat, nat>)
    requires Sound(a.types, a.ands, a.maxvar, g) && forall v :: 0 <= v < |a.types| ==> !a.types[v].onstack
    requires Numbered(g, code[..], order, rank, |order| + 1) && Walk(g, rank, |order| + 1, [], [])
    requires new_ == 2 * (|order| + 1) && IsGate(g, root)
    modifies a`types, code
    ensures a.types == old(a.types) && order <= order' && new' == 2 * (|order'| + 1)
    ensures Numbered(g, code[..], order', rank', |order'| + 1) && Walk(g, rank', |order'| + 1, [], [])
    ensures Below(g, root, order', |order|) && root in rank'
  {
    ghost var entry := a.types;
    new', order', rank' := new_, order, rank;
    var stack: seq<nat> := [root];
    ghost var frames: seq<Frame>, top: seq<nat>, clock: nat := [], [root], |order| + 1;
    WalkStart(g, entry, code[..], order, rank, root);
    while |stack| > 0
      invariant Walking(g, a.types, entry, code[..], order', clock, rank', frames, top, stack, root, |order|)
      invariant order <= order' && new' == 2 * (|order'| + 1)
      decreases Fresh(a.types, code[..], g), |stack|
    {
      stack, new', order', clock, rank', frames, top := WalkStep(a, stack, new', code, entry, g, order', clock, rank', frames, top, root, |order|);
    }
    FlattenEnds(frames);
    OnStackEmpty(a.types, entry);
  }

  lemma TopEntry(stack: seq<nat>, j: nat, frames: seq<Frame>, top: seq<nat>)
    requires stack + [j] == Flatten(frames) + top && j != 0
    ensures |top| > 0 && top[|top| - 1] == j && stack == Flatten(frames) + top[..|top| - 1]
  {
    var s, t := stack + [j], Flatten(frames) + top;
    assert s[|s| - 1] == j && s[..|s| - 1] == stack;
    FlattenEnds(frames);
    assert top == [] ==> t == Flatten(frames);
    if |top| > 0 {
      assert t[|t| - 1] == top[|top| - 1];
      assert t[..|t| - 1] == Flatten(frames) + top[..|top| - 1];
    }
  }

  lemma TopMarker(stack: seq<nat>, frames: seq<Frame>, top: seq<nat>)
    requires stack + [0] == Flatten(frames) + top && NoMarker(top)
    ensures top == [] && |frames| > 0 && stack + [0] == Flatten(frames)
  {
    StackLast(frames, top);
    assert (stack + [0])[|stack|] == 0;
  }

  lemma SplitLast(stack: seq<nat>)
    requires |stack| > 0
    ensures stack == stack[..|stack| - 1] + [stack[|stack| - 1]]
  {
  }

  // Codes, once given, stay.
  lemma CodesKept(code: seq<nat>, order: seq<nat>, code': seq<nat>, order': seq<nat>, maxvar: nat)
    requires Codes(code, order, maxvar) && Codes(code', order', maxvar) && order <= order'
    ensures forall v: nat :: v <= maxvar && code[Var2Lit(v)] != 0 ==> code'[Var2Lit(v)] == code[Var2Lit(v)]
  {
    forall v: nat | v <= maxvar && code[Var2Lit(v)] != 0 ensures code'[Var2Lit(v)] == code[Var2Lit(v)] {
      assert CodedRight(code, order, v);
      var k := code[Var2Lit(v)] / 2 - 1;
      assert order'[k] == order[k];
    }
  }

  lemma OnStackEmpty(types: seq<Type>, entry: seq<Type>)
    requires OnStack(types, entry, []) && forall v :: 0 <= v < |entry| ==> !entry[v].onstack
    ensures types == entry
  {
    forall v: nat | v < |types| ensures types[v] == entry[v] {
      assert OnStackAt(types, entry, [], v);
    }
  }
}
