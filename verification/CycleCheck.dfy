// aiger_check_for_cycles (src/formats/aiger.c): a depth-first walk over the AND
// gates with an explicit stack.

module CycleCheck {
  import opened AigGraph
  import opened AigModel
  import opened Basics

  // The gates the walk looks at: ANDs whose mark is clear on entry.
  ghost function Unmarked(types: seq<Type>, ands: seq<And>, maxvar: nat): (g: Graph)
    requires TypesFit(types, ands, maxvar)
    ensures |g| == maxvar + 1
    ensures forall v :: 0 <= v <= maxvar ==> g[v] == if types[v].mark then Leaf else GateOf(types, ands, v)
  {
    seq(maxvar + 1, v requires 0 <= v <= maxvar => if types[v].mark then Leaf else GateOf(types, ands, v))
  }

  // The types during the walk: only the mark and onstack bits of gates change.
  ghost predicate Coloured(types: seq<Type>, entry: seq<Type>, g: Graph, rank: map<nat, nat>, frames: seq<Frame>) {
    |types| == |entry| >= |g| && forall v: nat :: v < |types| ==> ColouredAt(types, entry, g, rank, frames, v)
  }

  ghost predicate ColouredAt(types: seq<Type>, entry: seq<Type>, g: Graph, rank: map<nat, nat>, frames: seq<Frame>, v: nat)
    requires v < |types| == |entry|
  {
    types[v] == if IsGate(g, v) then entry[v].(mark := v in rank || Active(frames, v), onstack := Active(frames, v)) else entry[v]
  }

  lemma ColouredExpand(types: seq<Type>, entry: seq<Type>, g: Graph, rank: map<nat, nat>, frames: seq<Frame>, f: Frame)
    requires Coloured(types, entry, g, rank, frames) && IsGate(g, f.node)
    ensures Coloured(types[f.node := types[f.node].(mark := true, onstack := true)], entry, g, rank, frames + [f])
  {
    var types' := types[f.node := types[f.node].(mark := true, onstack := true)];
    forall v: nat | v < |types| ensures ColouredAt(types', entry, g, rank, frames + [f], v) {
      assert ColouredAt(types, entry, g, rank, frames, v);
      ActiveMore(frames, f, v);
    }
  }

  lemma ColouredFinish(types: seq<Type>, entry: seq<Type>, g: Graph, rank: map<nat, nat>, clock: nat, frames: seq<Frame>)
    requires Coloured(types, entry, g, rank, frames) && Walk(g, rank, clock, frames, []) && |frames| > 0
    ensures IsGate(g, frames[|frames| - 1].node)
    ensures var j := frames[|frames| - 1].node;
            types[j].mark && types[j].onstack
            && Coloured(types[j := types[j].(onstack := false)], entry, g, rank[j := clock], frames[..|frames| - 1])
  {
    var j := frames[|frames| - 1].node;
    assert FrameOk(g, rank, frames, [], |frames| - 1);
    assert ColouredAt(types, entry, g, rank, frames, j) && Active(frames, j);
    var types' := types[j := types[j].(onstack := false)];
    var rank', frames' := rank[j := clock], frames[..|frames| - 1];
    forall v: nat | v < |types| ensures ColouredAt(types', entry, g, rank', frames', v) {
      assert ColouredAt(types, entry, g, rank, frames, v);
      ActiveLess(frames, v);
    }
  }

  ghost function White(types: seq<Type>, g: Graph): set<nat>
    requires |g| <= |types|
  {
    set v: nat | v < |g| && IsGate(g, v) && !types[v].mark
  }

  // One AND becomes active: its bits are set, its children go on the stack.
  method Expand(a: Aiger, j: nat, stack: seq<nat>) returns (stack': seq<nat>, ghost kids: seq<nat>)
    requires TypesFit(a.types, a.ands, a.maxvar) && j <= a.maxvar && a.types[j].and
    modifies a`types
    ensures a.types == old(a.types)[j := old(a.types)[j].(mark := true, onstack := true)]
    ensures stack' == stack + [0] + kids && KidsOf(GateOf(old(a.types), a.ands, j), kids)
  {
    a.types := a.types[j := a.types[j].(mark := true, onstack := true)];
    stack' := stack + [0];
    kids := [];
    var and := a.ands[a.types[j].idx];
    var tmp := Lit2Var(and.rhs0);
    if tmp != 0 {
      stack' := stack' + [tmp];
      kids := kids + [tmp];
    }
    tmp := Lit2Var(and.rhs1);
    if tmp != 0 {
      stack' := stack' + [tmp];
      kids := kids + [tmp];
    }
  }

  ghost predicate KidsOf(gate: Gate, kids: seq<nat>)
    requires gate.Gate?
  {
    && NoMarker(kids)
    && (forall i :: 0 <= i < |kids| ==> kids[i] == gate.l || kids[i] == gate.r)
    && (gate.l == 0 || gate.l in kids) && (gate.r == 0 || gate.r in kids)
  }

  lemma EntryBound(g: Graph, rank: map<nat, nat>, clock: nat, frames: seq<Frame>, top: seq<nat>, i: nat)
    requires Walk(g, rank, clock, frames, top) && WfGraph(g) && Rooted(frames, top, i) && i < |g|
    ensures forall k :: 0 <= k < |top| ==> top[k] < |g|
  {
    if frames != [] {
      assert FrameOk(g, rank, frames, top, |frames| - 1);
    }
  }

  lemma UncolouredFit(types: seq<Type>, entry: seq<Type>, ands: seq<And>, maxvar: nat, g: Graph, rank: map<nat, nat>, frames: seq<Frame>)
    requires TypesFit(entry, ands, maxvar) && g == Unmarked(entry, ands, maxvar)
    requires Coloured(types, entry, g, rank, frames)
    ensures TypesFit(types, ands, maxvar) && WfGraph(g)
    ensures forall v: nat :: IsGate(g, v) ==> types[v].and && GateOf(types, ands, v) == g[v]
  {
    forall v: nat | v < |types| ensures types[v].and == entry[v].and && types[v].idx == entry[v].idx {
      assert ColouredAt(types, entry, g, rank, frames, v);
    }
  }

  // Expanding the top entry, an AND met for the first time.
  method ExpandTop(a: Aiger, j: nat, stack: seq<nat>, ghost entry: seq<Type>, ghost g: Graph, ghost clock: nat,
                   ghost rank: map<nat, nat>, ghost frames: seq<Frame>, ghost top: seq<nat>)
    returns (stack': seq<nat>, ghost frames': seq<Frame>, ghost top': seq<nat>)
    requires TypesFit(entry, a.ands, a.maxvar) && g == Unmarked(entry, a.ands, a.maxvar)
    requires Walk(g, rank, clock, frames, top) && Coloured(a.types, entry, g, rank, frames)
    requires stack == Flatten(frames) + top && |top| > 0 && j == top[|top| - 1]
    requires IsGate(g, j) && !a.types[j].mark
    modifies a`types
    ensures Walk(g, rank, clock, frames', top') && Coloured(a.types, entry, g, rank, frames')
    ensures stack' == Flatten(frames') + top'
    ensures frames' == frames + [Frame(top[..|top| - 1], j)]
    ensures White(a.types, g) < White(old(a.types), g)
  {
    frames' := frames + [Frame(top[..|top| - 1], j)];
    UncolouredFit(a.types, entry, a.ands, a.maxvar, g, rank, frames);
    assert ColouredAt(a.types, entry, g, rank, frames, j);
    ColouredExpand(a.types, entry, g, rank, frames, Frame(top[..|top| - 1], j));
    stack', top' := Expand(a, j, stack);
    WhiteLess(old(a.types), g, j);
    PushMarker(stack, frames, top, top');
    WalkExpand(g, rank, clock, frames, top, top');
  }

  lemma WhiteLess(types: seq<Type>, g: Graph, j: nat)
    requires |g| <= |types| && IsGate(g, j) && !types[j].mark
    ensures White(types[j := types[j].(mark := true, onstack := true)], g) < White(types, g)
  {
    var types' := types[j := types[j].(mark := true, onstack := true)];
    assert j in White(types, g) && j !in White(types', g);
    assert forall v :: v in White(types', g) ==> v in White(types, g);
  }

  // The postfix step: everything above the marker is done.
  method FinishTop(a: Aiger, stack: seq<nat>, ghost entry: seq<Type>, ghost g: Graph, ghost clock: nat,
                   ghost rank: map<nat, nat>, ghost frames: seq<Frame>)
    returns (stack': seq<nat>, ghost rank': map<nat, nat>)
    requires Walk(g, rank, clock, frames, []) && Coloured(a.types, entry, g, rank, frames)
    requires stack == Flatten(frames) && |frames| > 0
    modifies a`types
    ensures rank' == rank[frames[|frames| - 1].node := clock]
    ensures Walk(g, rank', clock + 1, frames[..|frames| - 1], frames[|frames| - 1].pend)
    ensures Coloured(a.types, entry, g, rank', frames[..|frames| - 1])
    ensures stack' == Flatten(frames[..|frames| - 1]) + frames[|frames| - 1].pend && |stack'| < |stack|
    ensures White(a.types, g) == White(old(a.types), g)
  {
    PopMarker(stack, frames);
    WalkFinish(g, rank, clock, frames);
    ColouredFinish(a.types, entry, g, rank, clock, frames);
    rank' := rank[frames[|frames| - 1].node := clock];
    var j := stack[|stack| - 2];
    stack' := stack[..|stack| - 2];
    a.types := a.types[j := a.types[j].(onstack := false)];
  }

  // Reports an AND if and only if the ANDs whose mark is clear have a cycle.
  method CheckForCycles(a: Aiger) returns (ghost rank: map<nat, nat>)
    requires TypesFit(a.types, a.ands, a.maxvar)
    requires forall v :: 0 <= v <= a.maxvar ==> !a.types[v].onstack
    modifies a`types, a`error
    ensures old(a.error).Some? ==> a.error == old(a.error) && a.types == old(a.types)
    ensures old(a.error).None? ==> (a.error.Some? <==> Cyclic(Unmarked(old(a.types), a.ands, a.maxvar)))
    ensures old(a.error).None? && a.error.Some? ==> exists p :: IsCycle(Unmarked(old(a.types), a.ands, a.maxvar), p) && p[0] == a.error.value
    ensures a.error.None? ==> a.types == Marked(old(a.types), a.maxvar)
    ensures a.error.None? ==> Ranked(Unmarked(old(a.types), a.ands, a.maxvar), rank)
    ensures a.error.None? ==> forall v: nat :: IsGate(Unmarked(old(a.types), a.ands, a.maxvar), v) ==> v in rank
  {
    rank := map[];
    if a.error.Some? {
      return;
    }
    ghost var entry := a.types;
    ghost var g := Unmarked(a.types, a.ands, a.maxvar);
    ghost var clock := 0;
    var i: nat := 1;
    assert forall v: nat :: v < |entry| ==> ColouredAt(entry, entry, g, rank, [], v);
    while a.error.None? && i <= a.maxvar
      invariant 1 <= i <= a.maxvar + 1
      invariant a.error.None? ==> Walk(g, rank, clock, [], []) && Coloured(a.types, entry, g, rank, [])
      invariant a.error.None? ==> forall v: nat :: v < i && IsGate(g, v) ==> v in rank
      invariant a.error.Some? ==> exists p :: IsCycle(g, p) && p[0] == a.error.value
    {
      assert ColouredAt(a.types, entry, g, rank, [], i);
      if a.types[i].and && !a.types[i].mark {
        clock, rank := WalkFrom(a, i, entry, g, clock, rank);
      }
      i := i + 1;
    }
    if a.error.None? {
      RankedAcyclic(g, rank);
      forall v: nat | v < |entry| ensures a.types[v] == Marked(entry, a.maxvar)[v] {
        assert ColouredAt(a.types, entry, g, rank, [], v);
      }
    }
  }

  // The types once the check has passed: every gate is marked.
  function Marked(types: seq<Type>, maxvar: nat): (r: seq<Type>)
  {
    seq(|types|, v requires 0 <= v < |types| => types[v].(mark := types[v].mark || (types[v].and && v <= maxvar)))
  }

  // A second check of the same AIG sees no gate at all and reports nothing.
  lemma SecondCheckBlind(types: seq<Type>, ands: seq<And>, maxvar: nat)
    requires TypesFit(types, ands, maxvar)
    ensures TypesFit(Marked(types, maxvar), ands, maxvar)
    ensures !Cyclic(Unmarked(Marked(types, maxvar), ands, maxvar))
  {
    RankedAcyclic(Unmarked(Marked(types, maxvar), ands, maxvar), map[]);
  }

  // A non-zero entry on top: active again, done, no gate, or to be expanded.
  method VisitTop(a: Aiger, stack: seq<nat>, ghost entry: seq<Type>, ghost g: Graph, ghost clock: nat,
                  ghost rank: map<nat, nat>, ghost frames: seq<Frame>, ghost top: seq<nat>, ghost root: nat)
    returns (stack': seq<nat>, cyclic: bool, ghost frames': seq<Frame>, ghost top': seq<nat>)
    requires forall v :: 0 <= v < |entry| && v <= a.maxvar ==> !entry[v].onstack
    requires TypesFit(entry, a.ands, a.maxvar) && g == Unmarked(entry, a.ands, a.maxvar)
    requires Walk(g, rank, clock, frames, top) && Coloured(a.types, entry, g, rank, frames)
    requires stack == Flatten(frames) + top && Rooted(frames, top, root) && IsGate(g, root)
    requires |stack| > 0 && stack[|stack| - 1] != 0
    modifies a`types
    ensures cyclic ==> exists p :: IsCycle(g, p) && p[0] == stack[|stack| - 1]
    ensures !cyclic ==> Walk(g, rank, clock, frames', top') && Coloured(a.types, entry, g, rank, frames')
    ensures !cyclic ==> stack' == Flatten(frames') + top' && Rooted(frames', top', root)
    ensures !cyclic && frames' == [] && top' == [] ==> root in rank
    ensures |g| <= |a.types| && |g| <= |old(a.types)|
    ensures !cyclic ==> White(a.types, g) < White(old(a.types), g) || (a.types == old(a.types) && |stack'| < |stack|)
  {
    UncolouredFit(a.types, entry, a.ands, a.maxvar, g, rank, frames);
    EntryBound(g, rank, clock, frames, top, root);
    StackLast(frames, top);
    stack', cyclic, frames', top' := stack, false, frames, top;
    var j := stack[|stack| - 1];
    assert ColouredAt(a.types, entry, g, rank, frames, j);
    if a.types[j].mark && a.types[j].onstack {
      ghost var p := WalkCycle(g, rank, clock, frames, top);
      cyclic := true;
    } else if !a.types[j].and || a.types[j].mark {
      stack', top' := stack[..|stack| - 1], top[..|top| - 1];
      DropTop(frames, top);
      WalkPop(g, rank, clock, frames, top);
    } else {
      stack', frames', top' := ExpandTop(a, j, stack, entry, g, clock, rank, frames, top);
    }
  }

  lemma DropTop(frames: seq<Frame>, top: seq<nat>)
    requires |top| > 0
    ensures (Flatten(frames) + top)[..|Flatten(frames) + top| - 1] == Flatten(frames) + top[..|top| - 1]
  {
  }

  // The walk from one unmarked AND.
  method WalkFrom(a: Aiger, i: nat, ghost entry: seq<Type>, ghost g: Graph, ghost clock: nat, ghost rank: map<nat, nat>)
    returns (ghost clock': nat, ghost rank': map<nat, nat>)
    requires forall v :: 0 <= v < |entry| && v <= a.maxvar ==> !entry[v].onstack
    requires a.error.None? && TypesFit(entry, a.ands, a.maxvar) && g == Unmarked(entry, a.ands, a.maxvar)
    requires Walk(g, rank, clock, [], []) && Coloured(a.types, entry, g, rank, [])
    requires 1 <= i <= a.maxvar && IsGate(g, i)
    modifies a`types, a`error
    ensures a.error.None? ==> Walk(g, rank', clock', [], []) && Coloured(a.types, entry, g, rank', [])
    ensures a.error.None? ==> i in rank' && rank.Keys <= rank'.Keys
    ensures a.error.Some? ==> exists p :: IsCycle(g, p) && p[0] == a.error.value
  {
    var stack: seq<nat> := [i];
    ghost var frames: seq<Frame>, top: seq<nat> := [], [i];
    clock', rank' := clock, rank;
    while |stack| > 0
      invariant a.error.None? && Walk(g, rank', clock', frames, top) && Coloured(a.types, entry, g, rank', frames)
      invariant stack == Flatten(frames) + top && Rooted(frames, top, i)
      invariant rank.Keys <= rank'.Keys
      invariant frames == [] && top == [] ==> i in rank'
      decreases White(a.types, g), |stack|
    {
      var j := stack[|stack| - 1];
      if j != 0 {
        var cyclic;
        stack, cyclic, frames, top := VisitTop(a, stack, entry, g, clock', rank', frames, top, i);
        if cyclic {
          a.error := Some(j);
          return;
        }
      } else {
        StackLast(frames, top);
        ghost var f := frames[|frames| - 1];
        stack, rank' := FinishTop(a, stack, entry, g, clock', rank', frames);
        clock' := clock' + 1;
        frames, top := frames[..|frames| - 1], f.pend;
      }
    }
    FlattenEnds(frames);
  }
}
