// compute_diameter (src/preproc/do_diameter.cc): breadth-first search from one
// variable over the hypergraph of variables and functions.

module Diameter {
  import opened Arithmetic

  // clausesOf[v] lists the functions of variable v, varsOf[c] the variables of function c.
  datatype Hypergraph = Hypergraph(numinp: nat, clausesOf: seq<seq<nat>>, varsOf: seq<seq<nat>>)

  ghost predicate WellFormed(g: Hypergraph) {
    && |g.clausesOf| == g.numinp + 1
    && (forall v, i :: 0 <= v <= g.numinp && 0 <= i < |g.clausesOf[v]| ==> g.clausesOf[v][i] < |g.varsOf|)
    && forall c, i :: 0 <= c < |g.varsOf| && 0 <= i < |g.varsOf[c]| ==> 1 <= g.varsOf[c][i] <= g.numinp
  }

  predicate Adjacent(g: Hypergraph, u: nat, v: nat) {
    u < |g.clausesOf| && exists i :: 0 <= i < |g.clausesOf[u]| && g.clausesOf[u][i] < |g.varsOf| && v in g.varsOf[g.clausesOf[u][i]]
  }

  // v can be reached in at most k steps without touching a blocked variable.
  ghost predicate Near(g: Hypergraph, blocked: set<nat>, src: nat, v: nat, k: nat)
    decreases k
  {
    if k == 0 then v == src && v !in blocked
    else Near(g, blocked, src, v, k - 1)
         || (v !in blocked && exists u: nat :: Near(g, blocked, src, u, k - 1) && Adjacent(g, u, v))
  }

  lemma {:induction false} NearGrows(g: Hypergraph, blocked: set<nat>, src: nat, v: nat, k: nat, l: nat)
    requires Near(g, blocked, src, v, k) && k <= l
    ensures Near(g, blocked, src, v, l)
    decreases l
  {
    if k < l {
      NearGrows(g, blocked, src, v, k, l - 1);
    }
  }

  lemma NearStep(g: Hypergraph, blocked: set<nat>, src: nat, u: nat, v: nat, k: nat)
    requires Near(g, blocked, src, u, k) && Adjacent(g, u, v) && v !in blocked
    ensures Near(g, blocked, src, v, k + 1)
  {
  }

  // ----- the state of the search -----

  // Variables found so far, in order, with their depths.
  ghost predicate Found(g: Hypergraph, blocked: set<nat>, src: nat, depth: seq<nat>, queue: seq<nat>) {
    && |depth| == g.numinp + 1 && Once(queue, g.numinp)
    && (forall i :: 0 <= i < |queue| ==> queue[i] !in blocked && depth[queue[i]] >= 1 && Near(g, blocked, src, queue[i], depth[queue[i]] - 1))
    && (forall v: nat :: 1 <= v <= g.numinp && v !in blocked && depth[v] > 0 ==> v in queue)
    && forall v: nat :: v in blocked && v <= g.numinp ==> depth[v] > 0
  }

  // Depths never go down along the queue, and up by at most one from the current one.
  ghost predicate Layered(depth: seq<nat>, queue: seq<nat>, cur: nat, head: nat) {
    && (forall i :: 0 <= i < |queue| ==> queue[i] < |depth| && depth[queue[i]] <= cur + 1)
    && (forall i, j :: 0 <= i <= j < |queue| ==> depth[queue[i]] <= depth[queue[j]])
    && head <= |queue| && forall i :: 0 <= i < head ==> depth[queue[i]] <= cur
  }

  // The variables of a function that was looked at are found, close enough.
  ghost predicate ClauseDone(g: Hypergraph, blocked: set<nat>, depth: seq<nat>, cur: nat, c: nat)
    requires c < |g.varsOf|
  {
    forall i :: 0 <= i < |g.varsOf[c]| ==> Reached(depth, blocked, g.varsOf[c][i], cur + 1)
  }

  ghost predicate Reached(depth: seq<nat>, blocked: set<nat>, v: nat, bound: nat) {
    v in blocked || (v < |depth| && 1 <= depth[v] <= bound)
  }

  ghost predicate StampedDone(g: Hypergraph, blocked: set<nat>, depth: seq<nat>, cur: nat, stamps: seq<nat>, ccs: nat) {
    |stamps| == |g.varsOf| && forall c: nat :: c < |stamps| && stamps[c] == ccs ==> ClauseDone(g, blocked, depth, cur, c)
  }

  // All neighbours of a variable that was taken off the queue are found.
  ghost predicate Expanded(g: Hypergraph, blocked: set<nat>, depth: seq<nat>, u: nat) {
    u < |depth| && forall v: nat :: Adjacent(g, u, v) ==> Reached(depth, blocked, v, depth[u] + 1)
  }

  // When everything found is expanded, depths are shortest distances plus one.
  lemma {:induction false} DepthIsDistance(g: Hypergraph, blocked: set<nat>, src: nat, depth: seq<nat>, queue: seq<nat>, v: nat, k: nat)
    requires Found(g, blocked, src, depth, queue) && src !in blocked && WellFormed(g)
    requires src < |depth| && depth[src] == 1 && 1 <= src
    requires forall i :: 0 <= i < |queue| ==> Expanded(g, blocked, depth, queue[i])
    requires Near(g, blocked, src, v, k)
    ensures 1 <= v < |depth| && v !in blocked && 1 <= depth[v] <= k + 1
    decreases k
  {
    if k > 0 {
      if Near(g, blocked, src, v, k - 1) {
        DepthIsDistance(g, blocked, src, depth, queue, v, k - 1);
      } else {
        var u: nat :| Near(g, blocked, src, u, k - 1) && Adjacent(g, u, v);
        DepthIsDistance(g, blocked, src, depth, queue, u, k - 1);
        var i :| 0 <= i < |queue| && queue[i] == u;
        assert Expanded(g, blocked, depth, queue[i]);
        assert Reached(depth, blocked, v, depth[u] + 1);
      }
    }
  }

  // ----- one variable is found -----

  lemma FoundMore(g: Hypergraph, blocked: set<nat>, src: nat, depth: seq<nat>, queue: seq<nat>, v: nat, d: nat)
    requires Found(g, blocked, src, depth, queue) && 1 <= v <= g.numinp && depth[v] == 0
    requires d >= 1 && Near(g, blocked, src, v, d - 1) && v !in blocked
    ensures Found(g, blocked, src, depth[v := d], queue + [v])
    ensures v !in queue && |queue| < g.numinp
  {
    var queue' := queue + [v];
    assert v !in queue;
    assert Once(queue', g.numinp);
    OnceBound(queue', g.numinp);
  }

  lemma LayeredMore(depth: seq<nat>, queue: seq<nat>, cur: nat, head: nat, v: nat)
    requires Layered(depth, queue, cur, head) && v < |depth| && v !in queue
    ensures Layered(depth[v := cur + 1], queue + [v], cur, head)
  {
  }

  lemma StampedMore(g: Hypergraph, blocked: set<nat>, depth: seq<nat>, cur: nat, stamps: seq<nat>, ccs: nat, v: nat)
    requires StampedDone(g, blocked, depth, cur, stamps, ccs) && v < |depth| && depth[v] == 0
    ensures StampedDone(g, blocked, depth[v := cur + 1], cur, stamps, ccs)
  {
    var depth' := depth[v := cur + 1];
    forall c: nat | c < |stamps| && stamps[c] == ccs ensures ClauseDone(g, blocked, depth', cur, c) {
      ClauseDoneMore(g, blocked, depth, cur, c, v);
    }
  }

  lemma ClauseDoneMore(g: Hypergraph, blocked: set<nat>, depth: seq<nat>, cur: nat, c: nat, v: nat)
    requires c < |g.varsOf| && ClauseDone(g, blocked, depth, cur, c) && v < |depth| && depth[v] == 0
    ensures ClauseDone(g, blocked, depth[v := cur + 1], cur, c)
  {
    forall i | 0 <= i < |g.varsOf[c]| ensures Reached(depth[v := cur + 1], blocked, g.varsOf[c][i], cur + 1) {
      assert Reached(depth, blocked, g.varsOf[c][i], cur + 1);
    }
  }

  lemma ExpandedMore(g: Hypergraph, blocked: set<nat>, depth: seq<nat>, u: nat, v: nat, d: nat)
    requires Expanded(g, blocked, depth, u) && v < |depth| && depth[v] == 0 && u != v
    ensures Expanded(g, blocked, depth[v := d], u)
  {
    forall w: nat | Adjacent(g, u, w) ensures Reached(depth[v := d], blocked, w, depth[u] + 1) {
      assert Reached(depth, blocked, w, depth[u] + 1);
    }
  }

  // Everything the search keeps while variables are found at depth cur + 1.
  ghost predicate Searching(g: Hypergraph, blocked: set<nat>, src: nat, depth: seq<nat>, queue: seq<nat>,
                            cur: nat, head: nat, done: nat, stamps: seq<nat>, ccs: nat) {
    && Found(g, blocked, src, depth, queue) && Layered(depth, queue, cur, head) && done <= head
    && StampedDone(g, blocked, depth, cur, stamps, ccs)
    && ExpandedUpTo(g, blocked, depth, queue, done)
  }

  ghost predicate ExpandedUpTo(g: Hypergraph, blocked: set<nat>, depth: seq<nat>, queue: seq<nat>, done: nat) {
    done <= |queue| && forall i :: 0 <= i < done ==> Expanded(g, blocked, depth, queue[i])
  }

  lemma SearchingMore(g: Hypergraph, blocked: set<nat>, src: nat, depth: seq<nat>, queue: seq<nat>,
                      cur: nat, head: nat, done: nat, stamps: seq<nat>, ccs: nat, v: nat)
    requires Searching(g, blocked, src, depth, queue, cur, head, done, stamps, ccs)
    requires 1 <= v <= g.numinp && depth[v] == 0 && v !in blocked && Near(g, blocked, src, v, cur)
    ensures Searching(g, blocked, src, depth[v := cur + 1], queue + [v], cur, head, done, stamps, ccs)
    ensures |queue| < g.numinp
  {
    FoundMore(g, blocked, src, depth, queue, v, cur + 1);
    LayeredMore(depth, queue, cur, head, v);
    StampedMore(g, blocked, depth, cur, stamps, ccs, v);
    AllExpandedMore(g, blocked, src, depth, queue, done, v, cur + 1);
  }

  lemma AllExpandedMore(g: Hypergraph, blocked: set<nat>, src: nat, depth: seq<nat>, queue: seq<nat>, done: nat, v: nat, d: nat)
    requires Found(g, blocked, src, depth, queue) && 1 <= v <= g.numinp && depth[v] == 0 && d > 0
    requires ExpandedUpTo(g, blocked, depth, queue, done)
    ensures ExpandedUpTo(g, blocked, depth[v := d], queue + [v], done)
  {
    forall i | 0 <= i < done ensures Expanded(g, blocked, depth[v := d], (queue + [v])[i]) {
      assert (queue + [v])[i] == queue[i] && queue[i] in queue;
      ExpandedMore(g, blocked, depth, queue[i], v, d);
    }
  }

  lemma DepthBound(g: Hypergraph, blocked: set<nat>, src: nat, depth: seq<nat>, queue: seq<nat>, cur: nat, head: nat, v: nat)
    requires Found(g, blocked, src, depth, queue) && Layered(depth, queue, cur, head)
    requires 1 <= v <= g.numinp && v !in blocked && depth[v] > 0
    ensures depth[v] <= cur + 1
  {
    var i :| 0 <= i < |queue| && queue[i] == v;
  }

  // DIAMETER_FIX.
  method Fix(v: nat, cur: nat, varDepth: array<nat>, dstack: array<nat>, top: nat, ghost g: Hypergraph, ghost blocked: set<nat>,
             ghost src: nat, ghost head: nat, ghost done: nat, ghost stamps: seq<nat>, ghost ccs: nat)
    returns (top': nat)
    requires varDepth.Length == g.numinp + 1 && dstack.Length == g.numinp && top <= dstack.Length && varDepth != dstack
    requires Searching(g, blocked, src, varDepth[..], dstack[..top], cur, head, done, stamps, ccs)
    requires 1 <= v <= g.numinp && (v !in blocked ==> Near(g, blocked, src, v, cur))
    modifies varDepth, dstack
    ensures top <= top' <= dstack.Length && old(dstack[..top]) <= dstack[..top']
    ensures Searching(g, blocked, src, varDepth[..], dstack[..top'], cur, head, done, stamps, ccs)
    ensures Reached(varDepth[..], blocked, v, cur + 1) && Kept(old(varDepth[..]), varDepth[..])
    ensures v in blocked ==> top' == top && varDepth[..] == old(varDepth[..])
  {
    top' := top;
    if varDepth[v] == 0 {
      assert v !in blocked;
      SearchingMore(g, blocked, src, varDepth[..], dstack[..top], cur, head, done, stamps, ccs, v);
      varDepth[v] := cur + 1;
      dstack[top] := v;
      top' := top + 1;
      assert dstack[..top'] == old(dstack[..top]) + [v];
      assert varDepth[..] == old(varDepth[..])[v := cur + 1];
    } else if v !in blocked {
      DepthBound(g, blocked, src, varDepth[..], dstack[..top], cur, head, v);
    }
  }

  // Depths, once set, stay.
  ghost predicate Kept(depth: seq<nat>, depth': seq<nat>) {
    |depth'| == |depth| && forall w :: 0 <= w < |depth| && depth[w] > 0 ==> depth'[w] == depth[w]
  }

  ghost predicate ClauseSoFar(g: Hypergraph, blocked: set<nat>, depth: seq<nat>, cur: nat, c: nat, i: nat)
    requires c < |g.varsOf| && i <= |g.varsOf[c]|
  {
    forall k :: 0 <= k < i ==> Reached(depth, blocked, g.varsOf[c][k], cur + 1)
  }

  lemma ClauseMore(g: Hypergraph, blocked: set<nat>, depth: seq<nat>, depth': seq<nat>, cur: nat, c: nat, i: nat)
    requires c < |g.varsOf| && i < |g.varsOf[c]| && ClauseSoFar(g, blocked, depth, cur, c, i) && Kept(depth, depth')
    requires Reached(depth', blocked, g.varsOf[c][i], cur + 1)
    ensures ClauseSoFar(g, blocked, depth', cur, c, i + 1)
  {
    forall k | 0 <= k < i ensures Reached(depth', blocked, g.varsOf[c][k], cur + 1) {
      assert Reached(depth, blocked, g.varsOf[c][k], cur + 1);
    }
  }

  lemma ClauseNeighbour(g: Hypergraph, blocked: set<nat>, src: nat, u: nat, c: nat, i: nat, cur: nat)
    requires u < |g.clausesOf| && c < |g.varsOf| && c in g.clausesOf[u] && i < |g.varsOf[c]|
    requires cur >= 1 && Near(g, blocked, src, u, cur - 1)
    ensures g.varsOf[c][i] !in blocked ==> Near(g, blocked, src, g.varsOf[c][i], cur)
  {
    var k :| 0 <= k < |g.clausesOf[u]| && g.clausesOf[u][k] == c;
    assert g.varsOf[c][i] in g.varsOf[g.clausesOf[u][k]];
    if g.varsOf[c][i] !in blocked {
      NearStep(g, blocked, src, u, g.varsOf[c][i], cur - 1);
    }
  }

  // All variables of function c, which variable u mentions.
  method VisitClause(c: nat, ghost u: nat, cur: nat, varDepth: array<nat>, dstack: array<nat>, top: nat, g: Hypergraph, ghost blocked: set<nat>,
                     ghost src: nat, ghost head: nat, ghost done: nat, ghost stamps: seq<nat>, ghost ccs: nat)
    returns (top': nat)
    requires WellFormed(g) && varDepth.Length == g.numinp + 1 && dstack.Length == g.numinp && top <= dstack.Length && varDepth != dstack
    requires Searching(g, blocked, src, varDepth[..], dstack[..top], cur, head, done, stamps, ccs)
    requires u <= g.numinp && c < |g.varsOf| && c in g.clausesOf[u] && cur >= 1 && Near(g, blocked, src, u, cur - 1)
    modifies varDepth, dstack
    ensures top <= top' <= dstack.Length && old(dstack[..top]) <= dstack[..top']
    ensures Searching(g, blocked, src, varDepth[..], dstack[..top'], cur, head, done, stamps, ccs)
    ensures ClauseDone(g, blocked, varDepth[..], cur, c) && Kept(old(varDepth[..]), varDepth[..])
  {
    top' := top;
    var i := 0;
    while i < |g.varsOf[c]|
      invariant 0 <= i <= |g.varsOf[c]| && top <= top' <= dstack.Length && old(dstack[..top]) <= dstack[..top']
      invariant Searching(g, blocked, src, varDepth[..], dstack[..top'], cur, head, done, stamps, ccs)
      invariant ClauseSoFar(g, blocked, varDepth[..], cur, c, i) && Kept(old(varDepth[..]), varDepth[..])
    {
      ClauseNeighbour(g, blocked, src, u, c, i, cur);
      ghost var before := varDepth[..];
      top' := Fix(g.varsOf[c][i], cur, varDepth, dstack, top', g, blocked, src, head, done, stamps, ccs);
      ClauseMore(g, blocked, before, varDepth[..], cur, c, i);
      i := i + 1;
    }
  }

  // A function looked at gets its stamp.
  lemma StampDone(g: Hypergraph, blocked: set<nat>, src: nat, depth: seq<nat>, queue: seq<nat>, cur: nat, head: nat, done: nat,
                  stamps: seq<nat>, ccs: nat, c: nat)
    requires Searching(g, blocked, src, depth, queue, cur, head, done, stamps, ccs)
    requires c < |stamps| && ClauseDone(g, blocked, depth, cur, c)
    ensures Searching(g, blocked, src, depth, queue, cur, head, done, stamps[c := ccs], ccs)
  {
  }

  // The functions of u up to position i have all their variables found.
  ghost predicate VariableSoFar(g: Hypergraph, blocked: set<nat>, depth: seq<nat>, cur: nat, u: nat, i: nat)
    requires u < |g.clausesOf| && i <= |g.clausesOf[u]|
  {
    forall k :: 0 <= k < i ==> g.clausesOf[u][k] < |g.varsOf| && ClauseDone(g, blocked, depth, cur, g.clausesOf[u][k])
  }

  lemma VariableMore(g: Hypergraph, blocked: set<nat>, depth: seq<nat>, depth': seq<nat>, cur: nat, u: nat, i: nat)
    requires u < |g.clausesOf| && i < |g.clausesOf[u]| && VariableSoFar(g, blocked, depth, cur, u, i) && Kept(depth, depth')
    requires g.clausesOf[u][i] < |g.varsOf| && ClauseDone(g, blocked, depth', cur, g.clausesOf[u][i])
    ensures VariableSoFar(g, blocked, depth', cur, u, i + 1)
  {
    forall k | 0 <= k < i ensures g.clausesOf[u][k] < |g.varsOf| && ClauseDone(g, blocked, depth', cur, g.clausesOf[u][k]) {
      ClauseKept(g, blocked, depth, depth', cur, g.clausesOf[u][k]);
    }
  }

  lemma ClauseKept(g: Hypergraph, blocked: set<nat>, depth: seq<nat>, depth': seq<nat>, cur: nat, c: nat)
    requires c < |g.varsOf| && ClauseDone(g, blocked, depth, cur, c) && Kept(depth, depth')
    ensures ClauseDone(g, blocked, depth', cur, c)
  {
    forall i | 0 <= i < |g.varsOf[c]| ensures Reached(depth', blocked, g.varsOf[c][i], cur + 1) {
      assert Reached(depth, blocked, g.varsOf[c][i], cur + 1);
    }
  }

  lemma VariableExpanded(g: Hypergraph, blocked: set<nat>, depth: seq<nat>, u: nat)
    requires u < |g.clausesOf| && u < |depth| && VariableSoFar(g, blocked, depth, depth[u], u, |g.clausesOf[u]|)
    ensures Expanded(g, blocked, depth, u)
  {
    forall v: nat | Adjacent(g, u, v) ensures Reached(depth, blocked, v, depth[u] + 1) {
      var i :| 0 <= i < |g.clausesOf[u]| && g.clausesOf[u][i] < |g.varsOf| && v in g.varsOf[g.clausesOf[u][i]];
      var c := g.clausesOf[u][i];
      assert ClauseDone(g, blocked, depth, depth[u], c);
      var j :| 0 <= j < |g.varsOf[c]| && g.varsOf[c][j] == v;
    }
  }

  // A function, unless it has the current stamp.
  method VisitIfNew(c: nat, ghost u: nat, cur: nat, varDepth: array<nat>, dstack: array<nat>, top: nat, clauseStamps: array<nat>, ccs: nat,
                    g: Hypergraph, ghost blocked: set<nat>, ghost src: nat, ghost head: nat, ghost done: nat)
    returns (top': nat)
    requires WellFormed(g) && varDepth.Length == g.numinp + 1 && dstack.Length == g.numinp && top <= dstack.Length
    requires varDepth != dstack && clauseStamps != varDepth && clauseStamps != dstack
    requires Searching(g, blocked, src, varDepth[..], dstack[..top], cur, head, done, clauseStamps[..], ccs)
    requires u <= g.numinp && c < |g.varsOf| && c in g.clausesOf[u] && cur >= 1 && Near(g, blocked, src, u, cur - 1)
    modifies varDepth, dstack, clauseStamps
    ensures top <= top' <= dstack.Length && old(dstack[..top]) <= dstack[..top']
    ensures Searching(g, blocked, src, varDepth[..], dstack[..top'], cur, head, done, clauseStamps[..], ccs)
    ensures ClauseDone(g, blocked, varDepth[..], cur, c) && Kept(old(varDepth[..]), varDepth[..])
    ensures clauseStamps[..] == old(clauseStamps[..])[c := ccs]
  {
    top' := top;
    if clauseStamps[c] != ccs {
      ghost var stamps := clauseStamps[..];
      clauseStamps[c] := ccs;
      top' := VisitClause(c, u, cur, varDepth, dstack, top', g, blocked, src, head, done, stamps, ccs);
      StampDone(g, blocked, src, varDepth[..], dstack[..top'], cur, head, done, stamps, ccs, c);
      assert clauseStamps[..] == stamps[c := ccs];
    }
  }

  // The functions of variable u, those with the current stamp skipped.
  method VisitVariable(u: nat, cur: nat, varDepth: array<nat>, dstack: array<nat>, top: nat, clauseStamps: array<nat>, ccs: nat, g: Hypergraph,
                       ghost blocked: set<nat>, ghost src: nat, ghost head: nat, ghost done: nat)
    returns (top': nat)
    requires WellFormed(g) && varDepth.Length == g.numinp + 1 && dstack.Length == g.numinp && top <= dstack.Length
    requires varDepth != dstack && clauseStamps != varDepth && clauseStamps != dstack
    requires Searching(g, blocked, src, varDepth[..], dstack[..top], cur, head, done, clauseStamps[..], ccs)
    requires u <= g.numinp && varDepth[u] == cur >= 1 && Near(g, blocked, src, u, cur - 1)
    modifies varDepth, dstack, clauseStamps
    ensures top <= top' <= dstack.Length && old(dstack[..top]) <= dstack[..top']
    ensures Searching(g, blocked, src, varDepth[..], dstack[..top'], cur, head, done, clauseStamps[..], ccs)
    ensures Expanded(g, blocked, varDepth[..], u) && Kept(old(varDepth[..]), varDepth[..])
    ensures forall c :: 0 <= c < clauseStamps.Length ==> clauseStamps[c] == old(clauseStamps[c]) || clauseStamps[c] == ccs
  {
    top' := top;
    var i: nat := 0;
    while i < |g.clausesOf[u]|
      invariant i <= |g.clausesOf[u]| && top <= top' <= dstack.Length && old(dstack[..top]) <= dstack[..top']
      invariant Searching(g, blocked, src, varDepth[..], dstack[..top'], cur, head, done, clauseStamps[..], ccs)
      invariant VariableSoFar(g, blocked, varDepth[..], cur, u, i) && Kept(old(varDepth[..]), varDepth[..])
      invariant forall c :: 0 <= c < clauseStamps.Length ==> clauseStamps[c] == old(clauseStamps[c]) || clauseStamps[c] == ccs
    {
      var c := g.clausesOf[u][i];
      ghost var before := varDepth[..];
      top' := VisitIfNew(c, u, cur, varDepth, dstack, top', clauseStamps, ccs, g, blocked, src, head, done);
      VariableMore(g, blocked, before, varDepth[..], cur, u, i);
      i := i + 1;
    }
    VariableExpanded(g, blocked, varDepth[..], u);
  }

  lemma Dequeue(g: Hypergraph, blocked: set<nat>, src: nat, depth: seq<nat>, queue: seq<nat>, cur: nat, head: nat, stamps: seq<nat>, ccs: nat)
    requires Searching(g, blocked, src, depth, queue, cur, head, head, stamps, ccs) && head < |queue|
    requires if head == 0 then cur == 0 else cur == depth[queue[head - 1]]
    ensures 1 <= queue[head] <= g.numinp && queue[head] !in blocked && cur <= depth[queue[head]] && depth[queue[head]] >= 1
    ensures Near(g, blocked, src, queue[head], depth[queue[head]] - 1)
    ensures Searching(g, blocked, src, depth, queue, depth[queue[head]], head + 1, head, stamps, ccs)
  {
    var u := queue[head];
    assert head > 0 ==> depth[queue[head - 1]] <= depth[queue[head]];
    forall c: nat | c < |stamps| && stamps[c] == ccs ensures ClauseDone(g, blocked, depth, depth[u], c) {
      assert ClauseDone(g, blocked, depth, cur, c);
      forall i | 0 <= i < |g.varsOf[c]| ensures Reached(depth, blocked, g.varsOf[c][i], depth[u] + 1) {
        assert Reached(depth, blocked, g.varsOf[c][i], cur + 1);
      }
    }
  }

  lemma DequeueDone(g: Hypergraph, blocked: set<nat>, src: nat, depth: seq<nat>, queue: seq<nat>, cur: nat, head: nat, stamps: seq<nat>, ccs: nat)
    requires Searching(g, blocked, src, depth, queue, cur, head + 1, head, stamps, ccs)
    requires Expanded(g, blocked, depth, queue[head])
    ensures Searching(g, blocked, src, depth, queue, cur, head + 1, head + 1, stamps, ccs)
  {
  }

  // What the search leaves in var_depth: one more than the distance from src, 0
  // for variables that cannot be reached.
  ghost predicate Distances(g: Hypergraph, blocked: set<nat>, src: nat, depth: seq<nat>) {
    |depth| == g.numinp + 1 && forall v: nat :: 1 <= v <= g.numinp && v !in blocked ==> DistanceAt(g, blocked, src, depth, v)
  }

  ghost predicate DistanceAt(g: Hypergraph, blocked: set<nat>, src: nat, depth: seq<nat>, v: nat)
    requires v < |depth|
  {
    && (depth[v] > 0 ==> Near(g, blocked, src, v, depth[v] - 1))
    && forall k: nat :: Near(g, blocked, src, v, k) ==> 1 <= depth[v] <= k + 1
  }

  // r is the greatest depth.
  ghost predicate Greatest(depth: seq<nat>, blocked: set<nat>, r: nat) {
    && (forall v: nat :: 1 <= v < |depth| && v !in blocked ==> depth[v] <= r)
    && exists v: nat :: 1 <= v < |depth| && v !in blocked && depth[v] == r
  }

  lemma SearchComplete(g: Hypergraph, blocked: set<nat>, src: nat, depth: seq<nat>, queue: seq<nat>, cur: nat, head: nat, stamps: seq<nat>, ccs: nat)
    requires WellFormed(g) && 1 <= src <= g.numinp && src !in blocked
    requires Searching(g, blocked, src, depth, queue, cur, head, head, stamps, ccs) && head == |queue| && head > 0
    requires cur == depth[queue[head - 1]] && depth[src] == 1
    ensures Distances(g, blocked, src, depth) && Greatest(depth, blocked, cur)
  {
    forall v: nat | 1 <= v <= g.numinp && v !in blocked ensures DistanceAt(g, blocked, src, depth, v) {
      if depth[v] > 0 {
        var i :| 0 <= i < |queue| && queue[i] == v;
      }
      forall k: nat | Near(g, blocked, src, v, k) ensures 1 <= depth[v] <= k + 1 {
        DepthIsDistance(g, blocked, src, depth, queue, v, k);
      }
    }
    forall v: nat | 1 <= v < |depth| && v !in blocked ensures depth[v] <= cur {
      if depth[v] > 0 {
        var i :| 0 <= i < |queue| && queue[i] == v;
      }
    }
    assert queue[head - 1] !in blocked;
  }

  // The last variable keeps its depth from the call before: if it has one, this
  // call never enters it.
  function Blocked(numinp: nat, depth: seq<nat>): set<nat>
    requires |depth| == numinp + 1
  {
    if depth[numinp] > 0 then {numinp} else {}
  }

  method ResetDepths(varDepth: array<nat>, numinp: nat)
    requires varDepth.Length == numinp + 1 && numinp >= 1
    modifies varDepth
    ensures forall v :: 1 <= v < numinp ==> varDepth[v] == 0
    ensures varDepth[numinp] == old(varDepth[numinp]) && varDepth[0] == old(varDepth[0])
  {
    var i := 1;
    while i < numinp
      invariant 1 <= i <= numinp
      invariant forall v :: 1 <= v < i ==> varDepth[v] == 0
      invariant varDepth[numinp] == old(varDepth[numinp]) && varDepth[0] == old(varDepth[0])
    {
      varDepth[i] := 0;
      i := i + 1;
    }
  }

  lemma BlockedStart(g: Hypergraph, blocked: set<nat>, src: nat)
    requires src in blocked
    ensures forall v: nat, k: nat :: !Near(g, blocked, src, v, k)
  {
    forall v: nat, k: nat ensures !Near(g, blocked, src, v, k) {
      NoneNear(g, blocked, src, v, k);
    }
  }

  lemma {:induction false} NoneNear(g: Hypergraph, blocked: set<nat>, src: nat, v: nat, k: nat)
    requires src in blocked
    ensures !Near(g, blocked, src, v, k)
    decreases k
  {
    if k > 0 && Near(g, blocked, src, v, k) {
      if Near(g, blocked, src, v, k - 1) {
        NoneNear(g, blocked, src, v, k - 1);
      } else {
        var u: nat :| Near(g, blocked, src, u, k - 1) && Adjacent(g, u, v);
        NoneNear(g, blocked, src, u, k - 1);
      }
    }
  }

  // ----- what the left-over depth does to the result -----

  ghost predicate IsDistance(g: Hypergraph, blocked: set<nat>, src: nat, v: nat, k: nat) {
    Near(g, blocked, src, v, k) && forall l: nat :: Near(g, blocked, src, v, l) ==> k <= l
  }

  // Variable last is on no shortest path to another variable that has no other.
  ghost predicate Bypassed(g: Hypergraph, src: nat, last: nat) {
    forall v: nat, k: nat :: v != last && Near(g, {}, src, v, k) ==> Near(g, {last}, src, v, k)
  }

  // The depth of the last variable before the call does no harm.
  ghost predicate Harmless(g: Hypergraph, src: nat, left: nat) {
    left == 0 || (IsDistance(g, {}, src, g.numinp, left - 1) && Bypassed(g, src, g.numinp))
  }

  lemma {:induction false} NearLess(g: Hypergraph, blocked: set<nat>, src: nat, v: nat, k: nat)
    requires Near(g, blocked, src, v, k)
    ensures Near(g, {}, src, v, k) && v !in blocked
    decreases k
  {
    if k > 0 {
      if Near(g, blocked, src, v, k - 1) {
        NearLess(g, blocked, src, v, k - 1);
      } else {
        var u: nat :| Near(g, blocked, src, u, k - 1) && Adjacent(g, u, v);
        NearLess(g, blocked, src, u, k - 1);
      }
    }
  }

  // Depths around the last variable are true distances if and only if the depth left
  // over was its true one and it is bypassed.
  lemma DepthsRight(g: Hypergraph, src: nat, left: nat, depth: seq<nat>)
    requires WellFormed(g) && g.numinp >= 1 && |depth| == g.numinp + 1 && left > 0 && depth[g.numinp] == left
    requires Distances(g, {g.numinp}, src, depth)
    ensures Distances(g, {}, src, depth) <==> Harmless(g, src, left)
  {
    var last := g.numinp;
    if Harmless(g, src, left) {
      forall v: nat | 1 <= v <= last ensures DistanceAt(g, {}, src, depth, v) {
        if v != last {
          assert DistanceAt(g, {last}, src, depth, v);
          if depth[v] > 0 {
            NearLess(g, {last}, src, v, depth[v] - 1);
          }
        }
      }
    }
    if Distances(g, {}, src, depth) {
      assert DistanceAt(g, {}, src, depth, last);
      forall v: nat, k: nat | v != last && Near(g, {}, src, v, k) ensures Near(g, {last}, src, v, k) {
        NearInRange(g, {}, src, v, k);
        if v == src && (v == 0 || v > last) {
          StartNear(g, {last}, src, k);
        } else {
          assert DistanceAt(g, {}, src, depth, v) && DistanceAt(g, {last}, src, depth, v);
          NearGrows(g, {last}, src, v, depth[v] - 1, k);
        }
      }
    }
  }

  lemma StartNear(g: Hypergraph, blocked: set<nat>, src: nat, k: nat)
    requires src !in blocked
    ensures Near(g, blocked, src, src, k)
  {
    assert Near(g, blocked, src, src, 0);
    NearGrows(g, blocked, src, src, 0, k);
  }

  lemma {:induction false} NearInRange(g: Hypergraph, blocked: set<nat>, src: nat, v: nat, k: nat)
    requires WellFormed(g) && Near(g, blocked, src, v, k)
    ensures v == src || 1 <= v <= g.numinp
    decreases k
  {
    if k > 0 && Near(g, blocked, src, v, k - 1) {
      NearInRange(g, blocked, src, v, k - 1);
    }
  }

  ghost predicate SomeAt(g: Hypergraph, blocked: set<nat>, src: nat, k: nat) {
    exists v: nat :: 1 <= v <= g.numinp && IsDistance(g, blocked, src, v, k)
  }

  // r - 1 is the greatest distance.
  ghost predicate Radius(g: Hypergraph, blocked: set<nat>, src: nat, r: nat) {
    && (forall v: nat, k: nat :: 1 <= v <= g.numinp && IsDistance(g, blocked, src, v, k) ==> k + 1 <= r)
    && r >= 1 && SomeAt(g, blocked, src, r - 1)
  }

  lemma RadiusUnique(g: Hypergraph, blocked: set<nat>, src: nat, r: nat, r': nat)
    requires Radius(g, blocked, src, r) && Radius(g, blocked, src, r')
    ensures r == r'
  {
  }

  lemma GreatestIsRadius(g: Hypergraph, blocked: set<nat>, src: nat, depth: seq<nat>, r: nat)
    requires Distances(g, blocked, src, depth) && Greatest(depth, blocked, r) && 1 <= src <= g.numinp && src !in blocked
    ensures Radius(g, blocked, src, r)
  {
    assert DistanceAt(g, blocked, src, depth, src) && Near(g, blocked, src, src, 0);
    forall v: nat, k: nat | 1 <= v <= g.numinp && IsDistance(g, blocked, src, v, k) ensures k + 1 <= r {
      NearLess(g, blocked, src, v, k);
      assert DistanceAt(g, blocked, src, depth, v);
    }
    var v: nat :| 1 <= v < |depth| && v !in blocked && depth[v] == r;
    assert DistanceAt(g, blocked, src, depth, v);
    assert IsDistance(g, blocked, src, v, r - 1);
  }

  // Leaving the last variable out does not change the greatest distance.
  ghost predicate SameRadius(g: Hypergraph, src: nat, last: nat) {
    exists r: nat :: Radius(g, {last}, src, r) && Radius(g, {}, src, r)
  }

  // Takes the next variable off the queue and looks at its functions.
  method VisitNext(varnr: nat, cur: nat, head: nat, varDepth: array<nat>, dstack: array<nat>, top: nat, clauseStamps: array<nat>, ccs: nat,
                   g: Hypergraph, ghost blocked: set<nat>)
    returns (cur': nat, top': nat)
    requires WellFormed(g) && varDepth.Length == g.numinp + 1 && dstack.Length == g.numinp && head < top <= dstack.Length
    requires varDepth != dstack && clauseStamps != varDepth && clauseStamps != dstack
    requires Searching(g, blocked, varnr, varDepth[..], dstack[..top], cur, head, head, clauseStamps[..], ccs)
    requires if head == 0 then cur == 0 else cur == varDepth[..][dstack[..top][head - 1]]
    modifies varDepth, dstack, clauseStamps
    ensures top <= top' <= dstack.Length && Kept(old(varDepth[..]), varDepth[..])
    ensures Searching(g, blocked, varnr, varDepth[..], dstack[..top'], cur', head + 1, head + 1, clauseStamps[..], ccs)
    ensures cur' == varDepth[..][dstack[..top'][head]]
    ensures forall c :: 0 <= c < clauseStamps.Length ==> clauseStamps[c] == old(clauseStamps[c]) || clauseStamps[c] == ccs
  {
    ghost var queue := dstack[..top];
    assert queue[head] == dstack[head];
    Dequeue(g, blocked, varnr, varDepth[..], queue, cur, head, clauseStamps[..], ccs);
    var u := dstack[head];
    cur' := varDepth[u];
    top' := VisitVariable(u, cur', varDepth, dstack, top, clauseStamps, ccs, g, blocked, varnr, head + 1, head);
    assert dstack[..top'][head] == queue[head];
    DequeueDone(g, blocked, varnr, varDepth[..], dstack[..top'], cur', head, clauseStamps[..], ccs);
  }

  method Search(varnr: nat, varDepth: array<nat>, dstack: array<nat>, clauseStamps: array<nat>, ccs: nat, g: Hypergraph, ghost blocked: set<nat>)
    returns (current_depth: nat)
    requires WellFormed(g) && 1 <= varnr <= g.numinp
    requires varDepth.Length == g.numinp + 1 && dstack.Length == g.numinp && clauseStamps.Length == |g.varsOf|
    requires varDepth != dstack && clauseStamps != varDepth && clauseStamps != dstack
    requires forall c :: 0 <= c < clauseStamps.Length ==> clauseStamps[c] < ccs
    requires blocked == Blocked(g.numinp, varDepth[..])
    requires forall v :: 1 <= v < g.numinp ==> varDepth[v] == 0
    modifies varDepth, dstack, clauseStamps
    ensures forall c :: 0 <= c < clauseStamps.Length ==> clauseStamps[c] <= ccs
    ensures Distances(g, blocked, varnr, varDepth[..])
    ensures if varnr in blocked then current_depth == 0 else Greatest(varDepth[..], blocked, current_depth)
    ensures Kept(old(varDepth[..]), varDepth[..])
  {
    current_depth := 0;
    var top: nat, head: nat := 0, 0;
    top := Fix(varnr, 0, varDepth, dstack, top, g, blocked, varnr, 0, 0, clauseStamps[..], ccs);
    while head < top
      invariant head <= top <= dstack.Length && (varnr in blocked ==> top == 0) && (varnr !in blocked ==> top > 0)
      invariant Searching(g, blocked, varnr, varDepth[..], dstack[..top], current_depth, head, head, clauseStamps[..], ccs)
      invariant if head == 0 then current_depth == 0 else current_depth == varDepth[..][dstack[..top][head - 1]]
      invariant forall c :: 0 <= c < clauseStamps.Length ==> clauseStamps[c] <= ccs
      invariant varnr !in blocked ==> varDepth[varnr] == 1
      invariant Kept(old(varDepth[..]), varDepth[..]) && (varnr in blocked ==> varDepth[..] == old(varDepth[..]))
      decreases dstack.Length - head
    {
      current_depth, top := VisitNext(varnr, current_depth, head, varDepth, dstack, top, clauseStamps, ccs, g, blocked);
      head := head + 1;
    }
    if varnr !in blocked {
      SearchComplete(g, blocked, varnr, varDepth[..], dstack[..top], current_depth, head, clauseStamps[..], ccs);
    } else {
      forall v: nat | 1 <= v <= g.numinp && v !in blocked ensures DistanceAt(g, blocked, varnr, varDepth[..], v) {
        BlockedStart(g, blocked, varnr);
      }
    }
  }

  method ComputeDiameter(varnr: nat, varDepth: array<nat>, dstack: array<nat>, clauseStamps: array<nat>, CCS: nat, g: Hypergraph)
    returns (r: nat, CCS': nat)
    requires WellFormed(g) && 1 <= varnr <= g.numinp
    requires varDepth.Length == g.numinp + 1 && dstack.Length == g.numinp && clauseStamps.Length == |g.varsOf|
    requires varDepth != dstack && clauseStamps != varDepth && clauseStamps != dstack
    requires forall c :: 0 <= c < clauseStamps.Length ==> clauseStamps[c] <= CCS
    modifies varDepth, dstack, clauseStamps
    ensures forall c :: 0 <= c < clauseStamps.Length ==> clauseStamps[c] <= CCS'
    ensures g.clausesOf[varnr] == [] ==> r == 0 && varDepth[..] == old(varDepth[..])
    ensures g.clausesOf[varnr] != [] ==> Distances(g, Blocked(g.numinp, old(varDepth[..])), varnr, varDepth[..])
    ensures g.clausesOf[varnr] != [] ==>
              if varnr in Blocked(g.numinp, old(varDepth[..])) then r == 0 else Radius(g, Blocked(g.numinp, old(varDepth[..])), varnr, r)
    ensures g.clausesOf[varnr] != [] ==>
              (Distances(g, {}, varnr, varDepth[..]) <==> Harmless(g, varnr, old(varDepth[g.numinp])))
    ensures g.clausesOf[varnr] != [] ==>
              (Radius(g, {}, varnr, r) <==> old(varDepth[g.numinp]) == 0 || (varnr != g.numinp && SameRadius(g, varnr, g.numinp)))
    ensures old(varDepth[g.numinp]) > 0 ==> varDepth[g.numinp] == old(varDepth[g.numinp])
  {
    r, CCS' := 0, CCS;
    if g.clausesOf[varnr] == [] {
      return;
    }
    ghost var blocked := Blocked(g.numinp, varDepth[..]);
    ResetDepths(varDepth, g.numinp);
    CCS' := CCS + 1;
    ghost var left := varDepth[g.numinp];
    r := Search(varnr, varDepth, dstack, clauseStamps, CCS', g, blocked);
    if varnr !in blocked {
      GreatestIsRadius(g, blocked, varnr, varDepth[..], r);
    }
    if left > 0 {
      DepthsRight(g, varnr, left, varDepth[..]);
      RadiusRight(g, varnr, r);
    }
  }

  lemma RadiusRight(g: Hypergraph, src: nat, r: nat)
    requires if src == g.numinp then r == 0 else Radius(g, {g.numinp}, src, r)
    ensures Radius(g, {}, src, r) <==> src != g.numinp && SameRadius(g, src, g.numinp)
  {
    if src != g.numinp && SameRadius(g, src, g.numinp) {
      var m: nat :| Radius(g, {g.numinp}, src, m) && Radius(g, {}, src, m);
      RadiusUnique(g, {g.numinp}, src, r, m);
    }
  }

  // If the last variable is bypassed, only its own distance can be missing.
  lemma BypassedRadius(g: Hypergraph, src: nat, last: nat, r: nat)
    requires src != last && 1 <= last <= g.numinp && Radius(g, {last}, src, r) && Bypassed(g, src, last)
    ensures Radius(g, {}, src, r) <==> forall k: nat :: IsDistance(g, {}, src, last, k) ==> k + 1 <= r
  {
    forall v: nat, k: nat | v != last ensures IsDistance(g, {}, src, v, k) <==> IsDistance(g, {last}, src, v, k) {
      SameDistance(g, src, last, v, k);
    }
    if forall k: nat :: IsDistance(g, {}, src, last, k) ==> k + 1 <= r {
      var v: nat :| 1 <= v <= g.numinp && IsDistance(g, {last}, src, v, r - 1);
      NearLess(g, {last}, src, v, r - 1);
      assert IsDistance(g, {}, src, v, r - 1);
    }
  }

  lemma SameDistance(g: Hypergraph, src: nat, last: nat, v: nat, k: nat)
    requires Bypassed(g, src, last) && v != last
    ensures IsDistance(g, {}, src, v, k) <==> IsDistance(g, {last}, src, v, k)
  {
    forall l: nat ensures Near(g, {}, src, v, l) <==> Near(g, {last}, src, v, l) {
      if Near(g, {last}, src, v, l) {
        NearLess(g, {last}, src, v, l);
      }
    }
  }

  // ----- a left-over depth of the last variable cuts paths -----

  // Functions {1, 3} and {3, 2}.
  const CHAIN := Hypergraph(3, [[], [0], [1], [0, 1]], [[1, 3], [3, 2]])

  lemma ChainNeighbours(u: nat, v: nat)
    requires Adjacent(CHAIN, u, v) && u == 2
    ensures v == 2 || v == 3
  {
  }

  // With variable 3 blocked nothing but 2 itself is reached from 2.
  lemma {:induction false} ChainBlocked(v: nat, k: nat)
    ensures Near(CHAIN, {3}, 2, v, k) ==> v == 2
    decreases k
  {
    if k > 0 && Near(CHAIN, {3}, 2, v, k) {
      ChainBlocked(v, k - 1);
      if !Near(CHAIN, {3}, 2, v, k - 1) {
        var u: nat :| Near(CHAIN, {3}, 2, u, k - 1) && Adjacent(CHAIN, u, v);
        ChainBlocked(u, k - 1);
        ChainNeighbours(u, v);
      }
    }
  }

  lemma ChainConnected()
    ensures Near(CHAIN, {}, 2, 3, 1) && Near(CHAIN, {}, 2, 1, 2)
  {
    assert Adjacent(CHAIN, 2, 3) by {
      assert 3 in CHAIN.varsOf[CHAIN.clausesOf[2][0]];
    }
    assert Adjacent(CHAIN, 3, 1) by {
      assert 1 in CHAIN.varsOf[CHAIN.clausesOf[3][0]];
    }
    assert Near(CHAIN, {}, 2, 2, 0);
    NearStep(CHAIN, {}, 2, 2, 3, 0);
    NearStep(CHAIN, {}, 2, 3, 1, 1);
  }

  // After a call that entered variable 3, the call from 2 returns 1 instead of 3.
  lemma StaleDepthExample(depth: seq<nat>, r: nat)
    requires Distances(CHAIN, {3}, 2, depth) && Greatest(depth, {3}, r)
    ensures r == 1 && depth[1] == 0
  {
    assert DistanceAt(CHAIN, {3}, 2, depth, 1) && DistanceAt(CHAIN, {3}, 2, depth, 2);
    assert Near(CHAIN, {3}, 2, 2, 0);
    if depth[1] > 0 {
      ChainBlocked(1, depth[1] - 1);
    }
  }
}
