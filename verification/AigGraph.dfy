// The graph of AND gates of an AIG, and the explicit stack that walks it.

module AigGraph {

  // A variable: the constant, an input, a latch, or an AND gate over two variables.
  datatype Gate = Leaf | Gate(l: nat, r: nat)

  type Graph = seq<Gate>

  ghost predicate WfGraph(g: Graph) {
    |g| >= 1 && g[0] == Leaf && forall v :: 0 <= v < |g| && g[v].Gate? ==> g[v].l < |g| && g[v].r < |g|
  }

  predicate IsGate(g: Graph, v: nat) {
    v < |g| && g[v].Gate?
  }

  // v occurs on the right-hand side of u.
  predicate IsChild(g: Graph, u: nat, v: nat) {
    IsGate(g, u) && (v == g[u].l || v == g[u].r)
  }

  ghost predicate IsPath(g: Graph, p: seq<nat>) {
    forall i, j :: 0 <= i && j == i + 1 < |p| ==> IsChild(g, p[i], p[j])
  }

  ghost predicate IsCycle(g: Graph, p: seq<nat>) {
    |p| >= 2 && p[0] == p[|p| - 1] && IsPath(g, p)
  }

  ghost predicate Cyclic(g: Graph) {
    exists p: seq<nat> :: IsCycle(g, p)
  }

  // Gates with ranks: every gate below a ranked gate has a smaller rank.
  ghost predicate Ranked(g: Graph, rank: map<nat, nat>) {
    forall v :: v in rank ==> IsGate(g, v) && RankedAt(g, rank, v)
  }

  ghost predicate RankedAt(g: Graph, rank: map<nat, nat>, v: nat)
    requires v in rank
  {
    forall c :: IsChild(g, v, c) && IsGate(g, c) ==> c in rank && rank[c] < rank[v]
  }

  // Ranks for all gates exclude cycles.
  lemma RankedAcyclic(g: Graph, rank: map<nat, nat>)
    requires Ranked(g, rank) && forall v :: IsGate(g, v) ==> v in rank
    ensures !Cyclic(g)
  {
    forall p: seq<nat> ensures !IsCycle(g, p) {
      if |p| >= 2 && p[0] == p[|p| - 1] && IsPath(g, p) {
        var up := 1;
        assert IsChild(g, p[0], p[up]);
        Descends(g, rank, p, |p| - 1);
      }
    }
  }

  lemma {:induction false} Descends(g: Graph, rank: map<nat, nat>, p: seq<nat>, k: nat)
    requires Ranked(g, rank) && forall v :: IsGate(g, v) ==> v in rank
    requires IsPath(g, p) && k < |p| && IsGate(g, p[k]) && IsGate(g, p[0])
    ensures k > 0 ==> rank[p[k]] < rank[p[0]]
    decreases k
  {
    if k > 0 {
      var up: nat := k - 1;
      assert IsGate(g, p[up]) && IsChild(g, p[up], p[k]);
      assert RankedAt(g, rank, p[up]);
      Descends(g, rank, p, up);
    }
  }

  // ----- the stack -----

  // An active node, followed on the stack by the marker 0; pend are the
  // entries between the marker of the node's parent and the node itself.
  datatype Frame = Frame(pend: seq<nat>, node: nat)

  function Flatten(frames: seq<Frame>): seq<nat> {
    if frames == [] then []
    else Flatten(frames[..|frames| - 1]) + frames[|frames| - 1].pend + [frames[|frames| - 1].node, 0]
  }

  lemma FlattenMore(frames: seq<Frame>, f: Frame)
    ensures Flatten(frames + [f]) == Flatten(frames) + f.pend + [f.node, 0]
  {
    assert (frames + [f])[..|frames|] == frames;
  }

  lemma FlattenEnds(frames: seq<Frame>)
    ensures Flatten(frames) == [] <==> frames == []
    ensures frames != [] ==> Flatten(frames)[|Flatten(frames)| - 1] == 0
  {
  }

  // The top entry becomes active.
  lemma PushMarker(stack: seq<nat>, frames: seq<Frame>, top: seq<nat>, kids: seq<nat>)
    requires stack == Flatten(frames) + top && |top| > 0
    ensures stack + [0] + kids == Flatten(frames + [Frame(top[..|top| - 1], top[|top| - 1])]) + kids
    ensures stack[|stack| - 1] == top[|top| - 1]
  {
    FlattenMore(frames, Frame(top[..|top| - 1], top[|top| - 1]));
    assert top == top[..|top| - 1] + [top[|top| - 1]];
  }

  // Nothing is left above the top marker.
  lemma PopMarker(stack: seq<nat>, frames: seq<Frame>)
    requires stack == Flatten(frames) && |frames| > 0
    ensures |stack| >= 2 && stack[|stack| - 1] == 0 && stack[|stack| - 2] == frames[|frames| - 1].node
    ensures stack[..|stack| - 2] == Flatten(frames[..|frames| - 1]) + frames[|frames| - 1].pend
  {
  }

  ghost predicate Active(frames: seq<Frame>, v: nat) {
    exists k :: 0 <= k < |frames| && frames[k].node == v
  }

  lemma ActiveMore(frames: seq<Frame>, f: Frame, v: nat)
    ensures Active(frames + [f], v) <==> Active(frames, v) || v == f.node
  {
    var more := frames + [f];
    assert more[|frames|] == f && forall k :: 0 <= k < |frames| ==> more[k] == frames[k];
  }

  lemma ActiveLess(frames: seq<Frame>, v: nat)
    requires Distinct(frames) && |frames| > 0
    ensures Active(frames[..|frames| - 1], v) <==> Active(frames, v) && v != frames[|frames| - 1].node
  {
    var less := frames[..|frames| - 1];
    assert forall k :: 0 <= k < |less| ==> less[k] == frames[k];
  }

  ghost predicate Distinct(frames: seq<Frame>) {
    forall i, j :: 0 <= i < j < |frames| ==> frames[i].node != frames[j].node
  }

  // Entries of the stack are non-zero.
  ghost predicate NoMarker(top: seq<nat>) {
    forall i :: 0 <= i < |top| ==> top[i] != 0
  }

  // Every gate among the children of v is ranked or waits in the entries above it.
  ghost predicate Waits(g: Graph, rank: map<nat, nat>, v: nat, above: seq<nat>) {
    forall c :: IsChild(g, v, c) && IsGate(g, c) ==> c in rank || c in above
  }

  ghost predicate ChildrenOf(g: Graph, v: nat, above: seq<nat>) {
    NoMarker(above) && forall i :: 0 <= i < |above| ==> IsChild(g, v, above[i])
  }

  // The entries above frame k.
  function Above(frames: seq<Frame>, top: seq<nat>, k: nat): seq<nat>
    requires k < |frames|
  {
    if k + 1 < |frames| then frames[k + 1].pend + [frames[k + 1].node] else top
  }

  ghost predicate FrameOk(g: Graph, rank: map<nat, nat>, frames: seq<Frame>, top: seq<nat>, k: nat)
    requires k < |frames|
  {
    && IsGate(g, frames[k].node) && frames[k].node !in rank && NoMarker(frames[k].pend)
    && Waits(g, rank, frames[k].node, Above(frames, top, k))
    && ChildrenOf(g, frames[k].node, Above(frames, top, k))
  }

  // The state of the walk.
  ghost predicate Walk(g: Graph, rank: map<nat, nat>, clock: nat, frames: seq<Frame>, top: seq<nat>) {
    && Ranked(g, rank) && (forall v :: v in rank ==> rank[v] < clock)
    && Distinct(frames) && NoMarker(top)
    && forall k :: 0 <= k < |frames| ==> FrameOk(g, rank, frames, top, k)
  }

  // The entries under the walk from i.
  ghost predicate Rooted(frames: seq<Frame>, top: seq<nat>, i: nat) {
    if frames == [] then top == [] || top == [i] else frames[0].pend == [] && frames[0].node == i
  }

  lemma StackLast(frames: seq<Frame>, top: seq<nat>)
    requires |Flatten(frames) + top| > 0
    ensures (Flatten(frames) + top)[|Flatten(frames) + top| - 1] == if top == [] then 0 else top[|top| - 1]
    ensures top == [] ==> frames != [] && Flatten(frames) + top == Flatten(frames)
  {
    FlattenEnds(frames);
    assert top == [] ==> Flatten(frames) + top == Flatten(frames);
  }

  // ----- steps -----

  lemma WalkPop(g: Graph, rank: map<nat, nat>, clock: nat, frames: seq<Frame>, top: seq<nat>)
    requires Walk(g, rank, clock, frames, top) && |top| > 0
    requires top[|top| - 1] in rank || !IsGate(g, top[|top| - 1])
    ensures Walk(g, rank, clock, frames, top[..|top| - 1])
  {
    var top' := top[..|top| - 1];
    assert top == top' + [top[|top| - 1]];
    forall k | 0 <= k < |frames| ensures FrameOk(g, rank, frames, top', k) {
      assert FrameOk(g, rank, frames, top, k);
    }
  }

  lemma WalkExpand(g: Graph, rank: map<nat, nat>, clock: nat, frames: seq<Frame>, top: seq<nat>, kids: seq<nat>)
    requires Walk(g, rank, clock, frames, top) && |top| > 0
    requires IsGate(g, top[|top| - 1]) && top[|top| - 1] !in rank && !Active(frames, top[|top| - 1])
    requires ChildrenOf(g, top[|top| - 1], kids) && Waits(g, rank, top[|top| - 1], kids)
    ensures Walk(g, rank, clock, frames + [Frame(top[..|top| - 1], top[|top| - 1])], kids)
  {
    var f := Frame(top[..|top| - 1], top[|top| - 1]);
    var frames' := frames + [f];
    assert top == f.pend + [f.node];
    forall k | 0 <= k < |frames'| ensures FrameOk(g, rank, frames', kids, k) {
      if k < |frames| {
        assert FrameOk(g, rank, frames, top, k);
        assert Above(frames', kids, k) == Above(frames, top, k);
      }
    }
  }

  // A gate whose children are all ranked gets the next rank.
  lemma RankMore(g: Graph, rank: map<nat, nat>, clock: nat, j: nat)
    requires Ranked(g, rank) && (forall v :: v in rank ==> rank[v] < clock)
    requires IsGate(g, j) && j !in rank && Waits(g, rank, j, [])
    ensures Ranked(g, rank[j := clock])
  {
    var rank' := rank[j := clock];
    forall v | v in rank' ensures IsGate(g, v) && RankedAt(g, rank', v) {
      if v != j {
        assert RankedAt(g, rank, v);
      }
      forall c | IsChild(g, v, c) && IsGate(g, c) ensures c in rank' && rank'[c] < rank'[v] {
        assert c in rank;
      }
    }
  }

  lemma FrameFinish(g: Graph, rank: map<nat, nat>, clock: nat, frames: seq<Frame>, k: nat)
    requires Distinct(frames) && k + 1 < |frames| && FrameOk(g, rank, frames, [], k) && NoMarker(frames[|frames| - 1].pend)
    ensures FrameOk(g, rank[frames[|frames| - 1].node := clock], frames[..|frames| - 1], frames[|frames| - 1].pend, k)
  {
    var f, frames' := frames[|frames| - 1], frames[..|frames| - 1];
    var above, above' := Above(frames, [], k), Above(frames', f.pend, k);
    if k + 1 == |frames'| {
      assert above == f.pend + [f.node] && above' == f.pend;
      assert forall i :: 0 <= i < |above'| ==> above'[i] == above[i];
      assert forall c :: c in above ==> c in above' || c == f.node;
    } else {
      assert above == above';
    }
  }

  lemma WalkFinish(g: Graph, rank: map<nat, nat>, clock: nat, frames: seq<Frame>)
    requires Walk(g, rank, clock, frames, []) && |frames| > 0
    ensures Walk(g, rank[frames[|frames| - 1].node := clock], clock + 1, frames[..|frames| - 1], frames[|frames| - 1].pend)
  {
    var f, frames' := frames[|frames| - 1], frames[..|frames| - 1];
    var rank' := rank[f.node := clock];
    assert FrameOk(g, rank, frames, [], |frames| - 1);
    RankMore(g, rank, clock, f.node);
    forall k | 0 <= k < |frames'| ensures FrameOk(g, rank', frames', f.pend, k) {
      assert FrameOk(g, rank, frames, [], k);
      FrameFinish(g, rank, clock, frames, k);
    }
  }

  // The active nodes form a path, which the top entry continues.
  lemma WalkLink(g: Graph, rank: map<nat, nat>, clock: nat, frames: seq<Frame>, top: seq<nat>, k: nat)
    requires Walk(g, rank, clock, frames, top) && k < |frames| && |Above(frames, top, k)| > 0
    ensures IsGate(g, frames[k].node)
    ensures IsChild(g, frames[k].node, Above(frames, top, k)[|Above(frames, top, k)| - 1])
  {
    assert FrameOk(g, rank, frames, top, k);
  }

  function NodesFrom(frames: seq<Frame>, k: nat): (p: seq<nat>)
    requires k <= |frames|
    ensures |p| == |frames| - k && forall i :: 0 <= i < |p| ==> p[i] == frames[k + i].node
    decreases |frames| - k
  {
    if k == |frames| then [] else [frames[k].node] + NodesFrom(frames, k + 1)
  }

  // Meeting an active gate again closes a cycle.
  lemma WalkCycle(g: Graph, rank: map<nat, nat>, clock: nat, frames: seq<Frame>, top: seq<nat>) returns (p: seq<nat>)
    requires Walk(g, rank, clock, frames, top) && |top| > 0 && Active(frames, top[|top| - 1])
    ensures IsCycle(g, p) && p[0] == top[|top| - 1]
  {
    var k: nat :| k < |frames| && frames[k].node == top[|top| - 1];
    var active := NodesFrom(frames, k);
    p := active + [top[|top| - 1]];
    forall i, up | 0 <= i && up == i + 1 < |p| ensures IsChild(g, p[i], p[up]) {
      assert p[i] == active[i] == frames[k + i].node;
      WalkLink(g, rank, clock, frames, top, k + i);
    }
    assert IsPath(g, p);
  }

  // In an acyclic graph no child of a node about to become active is active itself.
  lemma NoActiveChild(g: Graph, rank: map<nat, nat>, clock: nat, frames: seq<Frame>, top: seq<nat>, c: nat)
    requires Walk(g, rank, clock, frames, top) && |top| > 0 && WfGraph(g) && !Cyclic(g)
    requires IsGate(g, top[|top| - 1]) && top[|top| - 1] !in rank && !Active(frames, top[|top| - 1])
    requires IsChild(g, top[|top| - 1], c) && IsGate(g, c)
    ensures !Active(frames, c) && c != top[|top| - 1]
  {
    var j := top[|top| - 1];
    var other := if g[j].l == c then g[j].r else g[j].l;
    var kids := if other == 0 then [c] else [other, c];
    assert c in kids && (other == 0 || kids[0] == other);
    WalkExpand(g, rank, clock, frames, top, kids);
    var frames' := frames + [Frame(top[..|top| - 1], j)];
    ActiveMore(frames, Frame(top[..|top| - 1], j), c);
    if Active(frames', c) {
      var p := WalkCycle(g, rank, clock, frames', kids);
    }
  }

  // ----- reachability -----

  ghost predicate Reaches(g: Graph, u: nat, v: nat) {
    exists p: seq<nat> :: |p| > 0 && p[0] == u && p[|p| - 1] == v && IsPath(g, p)
  }

  lemma ReachesSelf(g: Graph, u: nat)
    ensures Reaches(g, u, u)
  {
    var p: seq<nat> := [u];
    assert IsPath(g, p) && p[0] == u;
  }

  lemma ReachesChild(g: Graph, u: nat, v: nat, c: nat)
    requires Reaches(g, u, v) && IsChild(g, v, c)
    ensures Reaches(g, u, c)
  {
    var p: seq<nat> :| |p| > 0 && p[0] == u && p[|p| - 1] == v && IsPath(g, p);
    var q := p + [c];
    assert q[0] == u && q[|q| - 1] == c;
    forall i, j | 0 <= i && j == i + 1 < |q| ensures IsChild(g, q[i], q[j]) {
      assert j < |p| ==> IsChild(g, p[i], p[j]);
    }
    assert IsPath(g, q);
  }

  // Ranked gates are closed under reachability.
  lemma RankedClosed(g: Graph, rank: map<nat, nat>, u: nat, v: nat)
    requires Ranked(g, rank) && u in rank && Reaches(g, u, v) && IsGate(g, v)
    ensures v in rank
  {
    var p: seq<nat> :| |p| > 0 && p[0] == u && p[|p| - 1] == v && IsPath(g, p);
    RankedPath(g, rank, p, |p| - 1);
  }

  lemma {:induction false} RankedPath(g: Graph, rank: map<nat, nat>, p: seq<nat>, k: nat)
    requires Ranked(g, rank) && k < |p| && p[0] in rank && IsPath(g, p) && IsGate(g, p[k])
    ensures p[k] in rank
    decreases k
  {
    if k > 0 {
      var up: nat := k - 1;
      assert IsChild(g, p[up], p[k]);
      RankedPath(g, rank, p, up);
      assert RankedAt(g, rank, p[up]);
    }
  }
}
