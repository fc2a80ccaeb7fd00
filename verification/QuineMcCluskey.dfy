// The Quine-McCluskey part of resolve (src/formats/bdd2cnf.cc): rows of cubes
// by number of ones and number of don't-cares, merged level by level.

module QuineMcCluskey {
  import opened Arithmetic
  import opened Basics
  import opened Cubes
  import PrimeClosure

  datatype Recd = Recd(data: Cube, used: bool)

  // ----- rows: lists of records -----

  ghost predicate Has(row: seq<Recd>, c: Cube) {
    exists k :: 0 <= k < |row| && row[k].data == c
  }

  ghost predicate Distinct(row: seq<Recd>) {
    forall p, q :: 0 <= p < q < |row| ==> row[p].data != row[q].data
  }

  ghost predicate AllCubes(row: seq<Recd>, n: nat) {
    forall k :: 0 <= k < |row| ==> IsCube(row[k].data, n)
  }

  ghost predicate SameData(row: seq<Recd>, row': seq<Recd>) {
    |row| == |row'| && forall k :: 0 <= k < |row| ==> row'[k].data == row[k].data
  }

  // a and b differ in position t only, where one has 0 and the other has 1.
  ghost predicate Adjacent(a: Cube, b: Cube, t: nat) {
    t < |a| && 0 <= a[t] <= 1 && b == a[t := 1 - a[t]]
  }

  ghost predicate Mergeable(a: Cube, b: Cube) {
    exists t: nat :: Adjacent(a, b, t)
  }

  ghost predicate MergeOf(c: Cube, a: Cube, b: Cube) {
    exists t: nat :: Adjacent(a, b, t) && c == a[t := 2]
  }

  lemma AdjacentUnique(a: Cube, b: Cube, t: nat, u: nat)
    requires Adjacent(a, b, t) && Adjacent(a, b, u)
    ensures t == u
  {
    assert b[t] != a[t];
  }

  lemma HasCons(row: seq<Recd>, r: Recd, c: Cube)
    ensures Has([r] + row, c) == (Has(row, c) || c == r.data)
  {
    assert ([r] + row)[0] == r;
    if Has(row, c) {
      var k :| 0 <= k < |row| && row[k].data == c;
      assert ([r] + row)[k + 1].data == c;
    }
  }

  // ----- comparing two cubes -----

  method FindPivot(a: Cube, b: Cube, n: nat) returns (stop: nat, pivot: int)
    requires IsCube(a, n) && IsCube(b, n)
    ensures stop <= n
    ensures stop == n <==> a == b || Mergeable(a, b)
    ensures stop == n && a == b ==> pivot == -1
    ensures stop == n && a != b ==> pivot >= 0 && Adjacent(a, b, pivot)
  {
    pivot := -1;
    stop := 0;
    while stop < n
      invariant 0 <= stop <= n
      invariant pivot == -1 || 0 <= pivot < stop
      invariant forall k :: 0 <= k < stop && k != pivot ==> a[k] == b[k]
      invariant pivot >= 0 ==> 0 <= a[pivot] <= 1 && b[pivot] == 1 - a[pivot]
    {
      if (a[stop] == 0 && b[stop] == 1) || (a[stop] == 1 && b[stop] == 0) {
        if pivot == -1 {
          pivot := stop;
        } else {
          assert a[pivot] != b[pivot];
          pivot := -2;
          return;
        }
      } else if a[stop] != b[stop] {
        pivot := -2;
        return;
      }
      stop := stop + 1;
    }
    if pivot >= 0 {
      assert b == a[pivot := 1 - a[pivot]];
      assert Adjacent(a, b, pivot);
    } else {
      assert a == b;
    }
  }

  method AlreadyThere(made: seq<Recd>, a: Cube, pivot: nat, n: nat) returns (found: bool)
    requires AllCubes(made, n) && IsCube(a, n) && pivot < n
    ensures found <==> Has(made, a[pivot := 2])
  {
    for k := 0 to |made|
      invariant forall m :: 0 <= m < k ==> made[m].data != a[pivot := 2]
    {
      var l := 0;
      while l < n
        invariant 0 <= l <= n
        invariant forall m :: 0 <= m < l ==> made[k].data[m] == a[pivot := 2][m]
      {
        if l == pivot && made[k].data[l] != 2 {
          break;
        } else if l != pivot && made[k].data[l] != a[l] {
          break;
        }
        l := l + 1;
      }
      if l == n {
        assert made[k].data == a[pivot := 2];
        return true;
      }
    }
    found := false;
  }

  // One pair of the two inner loops.  The "pivot cannot be negative" exit of
  // the original is the branch shown to be dead.
  method ResolvePair(a: Recd, b: Recd, made: seq<Recd>, n: nat)
    returns (a': Recd, b': Recd, made': seq<Recd>)
    requires IsCube(a.data, n) && IsCube(b.data, n) && a.data != b.data
    requires AllCubes(made, n) && Distinct(made)
    ensures a' == a.(used := a.used || Mergeable(a.data, b.data))
    ensures b' == b.(used := b.used || Mergeable(a.data, b.data))
    ensures AllCubes(made', n) && Distinct(made')
    ensures forall c :: Has(made', c) <==> Has(made, c) || MergeOf(c, a.data, b.data)
    ensures (forall k :: 0 <= k < |made| ==> !made[k].used) ==>
            forall k :: 0 <= k < |made'| ==> !made'[k].used
  {
    a', b', made' := a, b, made;
    var stop, pivot := FindPivot(a.data, b.data, n);
    if stop == n {
      if pivot < 0 {
        assert false;
      }
      a' := a'.(used := true);
      b' := b'.(used := true);
      forall t | Adjacent(a.data, b.data, t) ensures t == pivot {
        AdjacentUnique(a.data, b.data, t, pivot);
      }
      var found := AlreadyThere(made, a.data, pivot, n);
      if !found {
        made' := [Recd(a.data[pivot := 2], false)] + made;
        forall c { HasCons(made, made'[0], c); }
      }
    }
  }

  // Some record of others[..bound] merges with a, seen from either side.
  ghost predicate MergesUp(a: Cube, others: seq<Recd>, bound: int) {
    exists q :: 0 <= q < bound && q < |others| && Mergeable(a, others[q].data)
  }

  ghost predicate MergesDown(b: Cube, others: seq<Recd>, bound: int) {
    exists p :: 0 <= p < bound && p < |others| && Mergeable(others[p].data, b)
  }

  // State of the two nested loops when they reach the pair (p', q').
  ghost predicate RowMarked(row: seq<Recd>, row': seq<Recd>, next: seq<Recd>, p': int, q': int) {
    && SameData(row, row')
    && forall p :: 0 <= p < |row| ==>
         var bound := if p < p' then |next| else if p == p' then q' else 0;
         row'[p].used == (row[p].used || MergesUp(row[p].data, next, bound))
  }

  ghost predicate NextMarked(row: seq<Recd>, next: seq<Recd>, next': seq<Recd>, p': int, q': int) {
    && SameData(next, next')
    && forall q :: 0 <= q < |next| ==>
         var bound := if q < q' then p' + 1 else p';
         next'[q].used == (next[q].used || MergesDown(next[q].data, row, bound))
  }

  ghost predicate MadeBefore(c: Cube, row: seq<Recd>, next: seq<Recd>, p': int, q': int) {
    exists p, q :: 0 <= p < |row| && 0 <= q < |next| && (p < p' || (p == p' && q < q'))
      && MergeOf(c, row[p].data, next[q].data)
  }

  ghost predicate Merged(row: seq<Recd>, next: seq<Recd>, made: seq<Recd>, p': int, q': int) {
    && Distinct(made)
    && (forall k :: 0 <= k < |made| ==> !made[k].used)
    && forall c :: Has(made, c) == MadeBefore(c, row, next, p', q')
  }

  lemma MadeStep(c: Cube, row: seq<Recd>, next: seq<Recd>, p: nat, q: nat)
    requires p < |row| && q < |next|
    ensures MadeBefore(c, row, next, p, q + 1) <==>
            MadeBefore(c, row, next, p, q) || MergeOf(c, row[p].data, next[q].data)
  {
    if MadeBefore(c, row, next, p, q + 1) && !MadeBefore(c, row, next, p, q) {
      var p0, q0 :| 0 <= p0 < |row| && 0 <= q0 < |next| && (p0 < p || (p0 == p && q0 < q + 1))
        && MergeOf(c, row[p0].data, next[q0].data);
      assert p0 == p && q0 == q;
    }
    if MadeBefore(c, row, next, p, q) {
      var p0, q0 :| 0 <= p0 < |row| && 0 <= q0 < |next| && (p0 < p || (p0 == p && q0 < q))
        && MergeOf(c, row[p0].data, next[q0].data);
      assert MadeBefore(c, row, next, p, q + 1);
    }
  }

  lemma MadeRowEnd(c: Cube, row: seq<Recd>, next: seq<Recd>, p: nat)
    ensures MadeBefore(c, row, next, p, |next|) <==> MadeBefore(c, row, next, p + 1, 0)
  {
    if MadeBefore(c, row, next, p, |next|) {
      var p0, q0 :| 0 <= p0 < |row| && 0 <= q0 < |next| && (p0 < p || (p0 == p && q0 < |next|))
        && MergeOf(c, row[p0].data, next[q0].data);
      assert p0 < p + 1;
    }
    if MadeBefore(c, row, next, p + 1, 0) {
      var p0, q0 :| 0 <= p0 < |row| && 0 <= q0 < |next| && (p0 < p + 1 || (p0 == p + 1 && q0 < 0))
        && MergeOf(c, row[p0].data, next[q0].data);
      assert p0 < p || (p0 == p && q0 < |next|);
    }
  }

  lemma MarkStep(row: seq<Recd>, next: seq<Recd>, p: nat, q: nat)
    requires p < |row| && q < |next|
    ensures MergesUp(row[p].data, next, q + 1) <==>
            MergesUp(row[p].data, next, q) || Mergeable(row[p].data, next[q].data)
    ensures MergesDown(next[q].data, row, p + 1) <==>
            MergesDown(next[q].data, row, p) || Mergeable(row[p].data, next[q].data)
  {
    if MergesUp(row[p].data, next, q) {
      var q0 :| 0 <= q0 < q && q0 < |next| && Mergeable(row[p].data, next[q0].data);
      assert MergesUp(row[p].data, next, q + 1);
    }
    if MergesDown(next[q].data, row, p) {
      var p0 :| 0 <= p0 < p && p0 < |row| && Mergeable(row[p0].data, next[q].data);
      assert MergesDown(next[q].data, row, p + 1);
    }
  }

  // Record p of a row against all of the next.
  method ResolveOne(row: seq<Recd>, next: seq<Recd>, n: nat, p: nat, row0: seq<Recd>, next0: seq<Recd>, made0: seq<Recd>)
    returns (row': seq<Recd>, next': seq<Recd>, made: seq<Recd>)
    requires AllCubes(row, n) && AllCubes(next, n) && p < |row|
    requires forall q :: 0 <= q < |next| ==> row[p].data != next[q].data
    requires RowMarked(row, row0, next, p, 0) && NextMarked(row, next, next0, p, 0)
    requires AllCubes(made0, n) && Merged(row, next, made0, p, 0)
    ensures RowMarked(row, row', next, p, |next|) && NextMarked(row, next, next', p, |next|)
    ensures AllCubes(made, n) && Merged(row, next, made, p, |next|)
  {
    row', next', made := row0, next0, made0;
    for q := 0 to |next|
      invariant RowMarked(row, row', next, p, q)
      invariant NextMarked(row, next, next', p, q)
      invariant AllCubes(made, n) && Merged(row, next, made, p, q)
    {
      var a', b', made' := ResolvePair(row'[p], next'[q], made, n);
      row', next', made := row'[p := a'], next'[q := b'], made';
      MarkStep(row, next, p, q);
      forall c { MadeStep(c, row, next, p, q); }
    }
  }

  // The rows of j ones and of j+1 ones, against each other.
  method ResolveRows(row: seq<Recd>, next: seq<Recd>, n: nat)
    returns (row': seq<Recd>, next': seq<Recd>, made: seq<Recd>)
    requires AllCubes(row, n) && AllCubes(next, n)
    requires forall p, q :: 0 <= p < |row| && 0 <= q < |next| ==> row[p].data != next[q].data
    ensures RowMarked(row, row', next, |row|, 0)
    ensures NextMarked(row, next, next', |row|, 0)
    ensures AllCubes(made, n) && Merged(row, next, made, |row|, 0)
  {
    row', next', made := row, next, [];
    for p := 0 to |row|
      invariant RowMarked(row, row', next, p, 0)
      invariant NextMarked(row, next, next', p, 0)
      invariant AllCubes(made, n) && Merged(row, next, made, p, 0)
    {
      row', next', made := ResolveOne(row, next, n, p, row', next', made);
      forall c { MadeRowEnd(c, row, next, p); }
    }
  }

  // ----- what a row must hold -----

  ghost function Count(c: Cube, x: int): nat {
    if c == [] then 0 else (if c[0] == x then 1 else 0) + Count(c[1..], x)
  }

  ghost function Ones(c: Cube): nat { Count(c, 1) }
  ghost function Twos(c: Cube): nat { Count(c, 2) }

  lemma {:induction false} CountUpdate(c: Cube, t: nat, y: int, x: int)
    requires t < |c|
    ensures Count(c[t := y], x) ==
            Count(c, x) - (if c[t] == x then 1 else 0) + (if y == x then 1 else 0)
  {
    if t == 0 {
      assert c[t := y][1..] == c[1..];
    } else {
      CountUpdate(c[1..], t - 1, y, x);
      assert c[t := y][1..] == c[1..][t - 1 := y];
    }
  }

  lemma {:induction false} CountPositive(c: Cube, x: int)
    ensures Count(c, x) > 0 <==> x in c
  {
    if c != [] {
      CountPositive(c[1..], x);
      assert c == [c[0]] + c[1..];
    }
  }

  // The implicants with j ones and i don't-cares.
  ghost predicate Member(tt: seq<int>, sign: int, n: nat, c: Cube, j: int, i: int)
    requires |tt| == Pow2(n)
  {
    Implicant(tt, sign, n, c) && Ones(c) == j && Twos(c) == i
  }

  ghost predicate Exact(tt: seq<int>, sign: int, n: nat, row: seq<Recd>, j: int, i: int)
    requires |tt| == Pow2(n)
  {
    && Distinct(row)
    && forall c :: Has(row, c) == Member(tt, sign, n, c, j, i)
  }

  // A literal of value x can be dropped from c.
  ghost predicate Droppable(tt: seq<int>, sign: int, n: nat, c: Cube, x: int)
    requires |tt| == Pow2(n)
  {
    exists t {:trigger DropAt(tt, sign, n, c, t)} :: 0 <= t < |c| && c[t] == x && DropAt(tt, sign, n, c, t)
  }

  // Row j has been resolved against row j+1 (up) and against row j-1 (down).
  ghost predicate Marks(tt: seq<int>, sign: int, n: nat, row: seq<Recd>, up: bool, down: bool)
    requires |tt| == Pow2(n)
  {
    forall k :: 0 <= k < |row| ==>
      row[k].used == ((up && Droppable(tt, sign, n, row[k].data, 0))
                      || (down && Droppable(tt, sign, n, row[k].data, 1)))
  }

  lemma {:induction false} CountBound(c: Cube)
    ensures Ones(c) + Twos(c) + Count(c, 0) <= |c|
  {
    if c != [] {
      CountBound(c[1..]);
    }
  }

  lemma RowCubes(tt: seq<int>, sign: int, n: nat, row: seq<Recd>, j: int, i: int)
    requires |tt| == Pow2(n) && Exact(tt, sign, n, row, j, i)
    ensures AllCubes(row, n)
    ensures forall k :: 0 <= k < |row| ==> Member(tt, sign, n, row[k].data, j, i)
  {
    forall k | 0 <= k < |row| ensures Member(tt, sign, n, row[k].data, j, i) {
      assert Has(row, row[k].data);
    }
  }

  lemma AdjacentCounts(a: Cube, b: Cube, t: nat, j: int)
    requires Adjacent(a, b, t) && Ones(a) == j && Ones(b) == j + 1
    ensures a[t] == 0 && b[t] == 1
    ensures a == a[t := 2][t := 0] && b == a[t := 2][t := 1]
    ensures Ones(a[t := 2]) == j && Twos(a[t := 2]) == Twos(a) + 1
  {
    CountUpdate(a, t, 1 - a[t], 1);
    CountUpdate(a, t, 2, 1);
    CountUpdate(a, t, 2, 2);
    assert a == a[t := 2][t := 0];
    assert b == a[t := 2][t := 1];
  }

  lemma SplitCounts(c: Cube, t: nat)
    requires t < |c| && c[t] == 2
    ensures Ones(c[t := 0]) == Ones(c) && Ones(c[t := 1]) == Ones(c) + 1
    ensures Twos(c[t := 0]) == Twos(c) - 1 && Twos(c[t := 1]) == Twos(c) - 1
    ensures Adjacent(c[t := 0], c[t := 1], t) && c == c[t := 0][t := 2]
  {
    CountUpdate(c, t, 0, 1);
    CountUpdate(c, t, 0, 2);
    CountUpdate(c, t, 1, 1);
    CountUpdate(c, t, 1, 2);
  }

  // The recursion behind the levels: c belongs to a row exactly when its two
  // halves belong to the rows it is merged from.
  lemma MemberSplit(tt: seq<int>, sign: int, n: nat, c: Cube, t: nat, j: int, i: int)
    requires |tt| == Pow2(n) && IsCube(c, n) && t < n && c[t] == 2
    ensures Member(tt, sign, n, c, j, i + 1) <==>
            Member(tt, sign, n, c[t := 0], j, i) && Member(tt, sign, n, c[t := 1], j + 1, i)
    ensures Adjacent(c[t := 0], c[t := 1], t) && c == c[t := 0][t := 2]
  {
    SplitImplicant(tt, sign, n, c, t);
    SplitCounts(c, t);
  }

  lemma MergeIsMember(tt: seq<int>, sign: int, n: nat, a: Cube, b: Cube, t: nat, j: int, i: int)
    requires |tt| == Pow2(n) && Adjacent(a, b, t)
    requires Member(tt, sign, n, a, j, i) && Member(tt, sign, n, b, j + 1, i)
    ensures Member(tt, sign, n, a[t := 2], j, i + 1)
    ensures a[t] == 0 && b[t] == 1 && a[t := 2] == b[t := 2]
  {
    AdjacentCounts(a, b, t, j);
    MemberSplit(tt, sign, n, a[t := 2], t, j, i);
    assert a[t := 2] == b[t := 2];
  }

  // Merging two exact rows gives the exact row one level up.
  lemma MergedExact(tt: seq<int>, sign: int, n: nat, row: seq<Recd>, next: seq<Recd>, c: Cube, j: int, i: int)
    requires |tt| == Pow2(n) && 0 <= i
    requires Exact(tt, sign, n, row, j, i) && Exact(tt, sign, n, next, j + 1, i)
    ensures MadeBefore(c, row, next, |row|, 0) == Member(tt, sign, n, c, j, i + 1)
  {
    if MadeBefore(c, row, next, |row|, 0) {
      var p, q :| 0 <= p < |row| && 0 <= q < |next| && MergeOf(c, row[p].data, next[q].data);
      var a, b := row[p].data, next[q].data;
      var t: nat :| Adjacent(a, b, t) && c == a[t := 2];
      assert Has(row, a) && Has(next, b);
      MergeIsMember(tt, sign, n, a, b, t, j, i);
    }
    if Member(tt, sign, n, c, j, i + 1) {
      CountPositive(c, 2);
      var t :| 0 <= t < |c| && c[t] == 2;
      MemberSplit(tt, sign, n, c, t, j, i);
      assert Has(row, c[t := 0]) && Has(next, c[t := 1]);
      var p :| 0 <= p < |row| && row[p].data == c[t := 0];
      var q :| 0 <= q < |next| && next[q].data == c[t := 1];
      assert MergeOf(c, row[p].data, next[q].data);
    }
  }

  lemma MergesUpIffDroppable(tt: seq<int>, sign: int, n: nat, a: Cube, next: seq<Recd>, j: int, i: int)
    requires |tt| == Pow2(n)
    requires Member(tt, sign, n, a, j, i) && Exact(tt, sign, n, next, j + 1, i)
    ensures MergesUp(a, next, |next|) == Droppable(tt, sign, n, a, 0)
  {
    if MergesUp(a, next, |next|) {
      var q :| 0 <= q < |next| && Mergeable(a, next[q].data);
      var t: nat :| Adjacent(a, next[q].data, t);
      assert Has(next, next[q].data);
      MergeIsMember(tt, sign, n, a, next[q].data, t, j, i);
      assert DropAt(tt, sign, n, a, t);
    }
    if Droppable(tt, sign, n, a, 0) {
      var t :| 0 <= t < |a| && a[t] == 0 && DropAt(tt, sign, n, a, t);
      var c := a[t := 2];
      assert c[t := 0] == a;
      SplitCounts(c, t);
      MemberSplit(tt, sign, n, c, t, j, i);
      assert Has(next, c[t := 1]);
      var q :| 0 <= q < |next| && next[q].data == c[t := 1];
      assert Mergeable(a, next[q].data);
    }
  }

  lemma MergesDownIffDroppable(tt: seq<int>, sign: int, n: nat, row: seq<Recd>, b: Cube, j: int, i: int)
    requires |tt| == Pow2(n)
    requires Exact(tt, sign, n, row, j, i) && Member(tt, sign, n, b, j + 1, i)
    ensures MergesDown(b, row, |row|) == Droppable(tt, sign, n, b, 1)
  {
    if MergesDown(b, row, |row|) {
      var p :| 0 <= p < |row| && Mergeable(row[p].data, b);
      var t: nat :| Adjacent(row[p].data, b, t);
      assert Has(row, row[p].data);
      MergeIsMember(tt, sign, n, row[p].data, b, t, j, i);
      assert DropAt(tt, sign, n, b, t);
    }
    if Droppable(tt, sign, n, b, 1) {
      var t :| 0 <= t < |b| && b[t] == 1 && DropAt(tt, sign, n, b, t);
      var c := b[t := 2];
      assert c[t := 1] == b;
      SplitCounts(c, t);
      MemberSplit(tt, sign, n, c, t, j, i);
      assert Has(row, c[t := 0]);
      var p :| 0 <= p < |row| && row[p].data == c[t := 0];
      assert Mergeable(row[p].data, b);
    }
  }

  // Marking keeps the data of a row.
  lemma SameDataExact(tt: seq<int>, sign: int, n: nat, row: seq<Recd>, row': seq<Recd>, j: int, i: int)
    requires |tt| == Pow2(n) && Exact(tt, sign, n, row, j, i) && SameData(row, row')
    ensures Exact(tt, sign, n, row', j, i)
  {
    forall c ensures Has(row', c) == Has(row, c) {
      if Has(row, c) {
        var k :| 0 <= k < |row| && row[k].data == c;
        assert row'[k].data == c;
      }
      if Has(row', c) {
        var k :| 0 <= k < |row'| && row'[k].data == c;
        assert row[k].data == c;
      }
    }
  }

  // One step of the middle loop, at the level of implicants.
  lemma PairOfRows(tt: seq<int>, sign: int, n: nat, j: int, i: int,
                   row: seq<Recd>, row': seq<Recd>, next: seq<Recd>, next': seq<Recd>, made: seq<Recd>)
    requires |tt| == Pow2(n) && 0 <= i
    requires Exact(tt, sign, n, row, j, i) && Exact(tt, sign, n, next, j + 1, i)
    requires Marks(tt, sign, n, row, false, true) && Marks(tt, sign, n, next, false, false)
    requires RowMarked(row, row', next, |row|, 0) && NextMarked(row, next, next', |row|, 0)
    requires Merged(row, next, made, |row|, 0)
    ensures Exact(tt, sign, n, row', j, i) && Exact(tt, sign, n, next', j + 1, i)
    ensures Marks(tt, sign, n, row', true, true) && Marks(tt, sign, n, next', false, true)
    ensures Exact(tt, sign, n, made, j, i + 1) && Marks(tt, sign, n, made, false, false)
  {
    RowCubes(tt, sign, n, row, j, i);
    RowCubes(tt, sign, n, next, j + 1, i);
    SameDataExact(tt, sign, n, row, row', j, i);
    SameDataExact(tt, sign, n, next, next', j + 1, i);
    forall k | 0 <= k < |row| ensures MergesUp(row[k].data, next, |next|) == Droppable(tt, sign, n, row[k].data, 0) {
      MergesUpIffDroppable(tt, sign, n, row[k].data, next, j, i);
    }
    forall k | 0 <= k < |next| ensures MergesDown(next[k].data, row, |row|) == Droppable(tt, sign, n, next[k].data, 1) {
      MergesDownIffDroppable(tt, sign, n, row, next[k].data, j, i);
    }
    forall c ensures Has(made, c) == Member(tt, sign, n, c, j, i + 1) {
      MergedExact(tt, sign, n, row, next, c, j, i);
    }
  }

  lemma UsedIsNotPrime(tt: seq<int>, sign: int, n: nat, row: seq<Recd>, j: int, i: int)
    requires |tt| == Pow2(n) && Exact(tt, sign, n, row, j, i) && Marks(tt, sign, n, row, true, true)
    ensures forall k :: 0 <= k < |row| ==> row[k].used == !Prime(tt, sign, n, row[k].data)
  {
    RowCubes(tt, sign, n, row, j, i);
    forall k | 0 <= k < |row| ensures row[k].used == !Prime(tt, sign, n, row[k].data) {
      PrimeByLiterals(tt, sign, n, row[k].data);
    }
  }

  // ----- level 0: the marked entries of the truth table -----

  method BitPattern(i: nat, n: nat) returns (data: Cube, ones: nat)
    ensures data == Bits(i, n) && ones == Ones(data)
  {
    data, ones := [], 0;
    for j := 0 to n
      invariant |data| == j && ones == Ones(data)
      invariant forall k :: 0 <= k < j ==> data[k] == i / Pow2(k) % 2
    {
      CountAppend(data, i / Pow2(j) % 2, 1);
      data := data + [i / Pow2(j) % 2];
      if data[j] == 1 {
        ones := ones + 1;
      }
    }
    BitsLength(i, n);
    forall k | 0 <= k < n ensures data[k] == Bits(i, n)[k] {
      BitAt(i, n, k);
    }
    assert data == Bits(i, n);
  }

  lemma {:induction false} CountAppend(c: Cube, y: int, x: int)
    ensures Count(c + [y], x) == Count(c, x) + (if y == x then 1 else 0)
  {
    if c != [] {
      CountAppend(c[1..], y, x);
      assert (c + [y])[1..] == c[1..] + [y];
    }
  }

  // The table entries below bound that the row of j ones must hold.
  ghost predicate SeedMember(tt: seq<int>, sign: int, n: nat, c: Cube, j: int, bound: int)
    requires |tt| == Pow2(n)
  {
    IsPoint(c, n) && On(tt, sign, c) && Index(c) < bound && Ones(c) == j
  }

  ghost predicate SeedRow(tt: seq<int>, sign: int, n: nat, row: seq<Recd>, j: int, bound: int)
    requires |tt| == Pow2(n)
  {
    && Distinct(row)
    && (forall k :: 0 <= k < |row| ==> !row[k].used)
    && forall c :: Has(row, c) == SeedMember(tt, sign, n, c, j, bound)
  }

  lemma SeedStep(tt: seq<int>, sign: int, n: nat, row: seq<Recd>, row': seq<Recd>, j: int, i: nat)
    requires |tt| == Pow2(n) && i < |tt| && SeedRow(tt, sign, n, row, j, i)
    requires row' == if tt[i] == sign && Ones(Bits(i, n)) == j then [Recd(Bits(i, n), false)] + row else row
    ensures SeedRow(tt, sign, n, row', j, i + 1)
  {
    IndexBits(i, n);
    var b := Bits(i, n);
    forall c ensures SeedMember(tt, sign, n, c, j, i + 1) ==
                     (SeedMember(tt, sign, n, c, j, i) || (c == b && tt[i] == sign && Ones(b) == j)) {
      if IsPoint(c, n) {
        BitsIndex(c, n);
      }
    }
    if tt[i] == sign && Ones(b) == j {
      assert !SeedMember(tt, sign, n, b, j, i);
      forall c ensures Has(row', c) == (Has(row, c) || c == b) {
        HasCons(row, Recd(b, false), c);
      }
    }
  }

  lemma SeedExact(tt: seq<int>, sign: int, n: nat, row: seq<Recd>, j: int)
    requires |tt| == Pow2(n) && SeedRow(tt, sign, n, row, j, |tt|)
    ensures Cell(tt, sign, n, row, j, 0, false, false)
  {
    forall c ensures SeedMember(tt, sign, n, c, j, |tt|) == Member(tt, sign, n, c, j, 0) {
      CountPositive(c, 2);
      if IsPoint(c, n) {
        BitsIndex(c, n);
        PointImplicant(tt, sign, n, c);
      }
    }
  }

  // ----- all rows, level by level -----

  ghost predicate Cell(tt: seq<int>, sign: int, n: nat, row: seq<Recd>, j: int, i: int, up: bool, down: bool)
    requires |tt| == Pow2(n)
  {
    Exact(tt, sign, n, row, j, i) && Marks(tt, sign, n, row, up, down)
  }

  lemma EmptyCell(tt: seq<int>, sign: int, n: nat, row: seq<Recd>, j: int, i: int)
    requires |tt| == Pow2(n) && j + i > n
    ensures Cell(tt, sign, n, [], j, i, false, false)
    ensures Exact(tt, sign, n, row, j, i) ==> row == []
  {
    forall c ensures !Member(tt, sign, n, c, j, i) {
      CountBound(c);
    }
    if Exact(tt, sign, n, row, j, i) && row != [] {
      assert Has(row, row[0].data);
    }
  }

  // Nothing lies below the row of no ones or above the row of n ones.
  lemma BorderMarks(tt: seq<int>, sign: int, n: nat, row: seq<Recd>, j: int, i: int, up: bool, down: bool)
    requires |tt| == Pow2(n) && 0 <= i && Cell(tt, sign, n, row, j, i, up, down)
    ensures j == 0 ==> Cell(tt, sign, n, row, j, i, up, true)
    ensures j == n ==> Cell(tt, sign, n, row, j, i, true, down)
  {
    RowCubes(tt, sign, n, row, j, i);
    forall k | 0 <= k < |row|
      ensures j == 0 ==> !Droppable(tt, sign, n, row[k].data, 1)
      ensures j == n ==> !Droppable(tt, sign, n, row[k].data, 0)
    {
      CountPositive(row[k].data, 1);
      CountPositive(row[k].data, 0);
      CountBound(row[k].data);
    }
  }

  lemma RowsDiffer(tt: seq<int>, sign: int, n: nat, row: seq<Recd>, next: seq<Recd>, j: int, i: int)
    requires |tt| == Pow2(n)
    requires Exact(tt, sign, n, row, j, i) && Exact(tt, sign, n, next, j + 1, i)
    ensures forall p, q :: 0 <= p < |row| && 0 <= q < |next| ==> row[p].data != next[q].data
  {
    RowCubes(tt, sign, n, row, j, i);
    RowCubes(tt, sign, n, next, j + 1, i);
  }

  method Seed(tt: seq<int>, sign: int, n: nat, clauses: array2<seq<Recd>>)
    requires |tt| == Pow2(n) && clauses.Length0 == clauses.Length1 == n + 1
    requires forall j, i :: 0 <= j <= n && 0 <= i <= n ==> clauses[j, i] == []
    modifies clauses
    ensures forall j :: 0 <= j <= n ==> Cell(tt, sign, n, clauses[j, 0], j, 0, false, false)
    ensures forall j, i :: 0 <= j <= n && 1 <= i <= n ==> clauses[j, i] == []
  {
    for i := 0 to Pow2(n)
      invariant forall j :: 0 <= j <= n ==> SeedRow(tt, sign, n, clauses[j, 0], j, i)
      invariant forall j, i :: 0 <= j <= n && 1 <= i <= n ==> clauses[j, i] == []
    {
      ghost var was := seq(n + 1, j requires 0 <= j <= n reads clauses => clauses[j, 0]);
      if tt[i] == sign {
        var data, ones := BitPattern(i, n);
        CountBound(data);
        BitsLength(i, n);
        clauses[ones, 0] := [Recd(data, false)] + clauses[ones, 0];
      }
      forall j | 0 <= j <= n ensures SeedRow(tt, sign, n, clauses[j, 0], j, i + 1) {
        SeedStep(tt, sign, n, was[j], clauses[j, 0], j, i);
      }
    }
    forall j | 0 <= j <= n ensures Cell(tt, sign, n, clauses[j, 0], j, 0, false, false) {
      SeedExact(tt, sign, n, clauses[j, 0], j);
    }
  }

  // The three nested loops over clauses[ones][don't-cares].
  method Levels(tt: seq<int>, sign: int, n: nat, clauses: array2<seq<Recd>>)
    requires |tt| == Pow2(n) && clauses.Length0 == clauses.Length1 == n + 1
    requires forall j :: 0 <= j <= n ==> Cell(tt, sign, n, clauses[j, 0], j, 0, false, false)
    requires forall j, i :: 0 <= j <= n && 1 <= i <= n ==> clauses[j, i] == []
    modifies clauses
    ensures forall j, i :: 0 <= j <= n && 0 <= i <= n ==> Cell(tt, sign, n, clauses[j, i], j, i, true, true)
  {
    for i := 0 to n + 1
      invariant forall j, l :: 0 <= j <= n && 0 <= l < i ==> Cell(tt, sign, n, clauses[j, l], j, l, true, true)
      invariant i <= n ==> forall j :: 0 <= j <= n ==> Cell(tt, sign, n, clauses[j, i], j, i, false, false)
      invariant forall j, l :: 0 <= j <= n && i < l <= n ==> clauses[j, l] == []
    {
      BorderMarks(tt, sign, n, clauses[0, i], 0, i, false, false);
      var up := i + 1;
      for j := 0 to n
        invariant forall k, l :: 0 <= k <= n && 0 <= l < i ==> Cell(tt, sign, n, clauses[k, l], k, l, true, true)
        invariant forall k :: 0 <= k <= n ==> Cell(tt, sign, n, clauses[k, i], k, i, k < j, k <= j)
        invariant i < n ==> forall k :: 0 <= k < j ==> Cell(tt, sign, n, clauses[k, up], k, up, false, false)
        invariant i < n ==> forall k :: j <= k <= n ==> clauses[k, up] == []
        invariant forall k, l :: 0 <= k <= n && up < l <= n ==> clauses[k, l] == []
      {
        RowCubes(tt, sign, n, clauses[j, i], j, i);
        RowCubes(tt, sign, n, clauses[j + 1, i], j + 1, i);
        RowsDiffer(tt, sign, n, clauses[j, i], clauses[j + 1, i], j, i);
        var row, next, made := ResolveRows(clauses[j, i], clauses[j + 1, i], n);
        PairOfRows(tt, sign, n, j, i, clauses[j, i], row, clauses[j + 1, i], next, made);
        clauses[j, i] := row;
        clauses[j + 1, i] := next;
        if i < n {
          clauses[j, up] := made;
        }
      }
      BorderMarks(tt, sign, n, clauses[n, i], n, i, false, true);
      if i < n {
        EmptyCell(tt, sign, n, [], n, up);
      }
    }
  }

  // ----- one pile of the unused records -----

  method AddUnused(row: seq<Recd>, ret: seq<Cube>) returns (ret': seq<Cube>)
    requires Distinct(row) && NoDuplicates(ret)
    requires forall k :: 0 <= k < |row| ==> row[k].data !in ret
    ensures NoDuplicates(ret')
    ensures forall c :: c in ret' <==> c in ret || exists k :: 0 <= k < |row| && row[k].data == c && !row[k].used
  {
    ret' := ret;
    for p := 0 to |row|
      invariant NoDuplicates(ret')
      invariant forall c :: c in ret' <==> c in ret || exists k :: 0 <= k < p && row[k].data == c && !row[k].used
    {
      if !row[p].used {
        ret' := [row[p].data] + ret';
      }
    }
  }

  // Position (j, i) comes before position (j', i') in the piling loops.
  ghost predicate Piled(c: Cube, j': int, i': int) {
    Ones(c) < j' || (Ones(c) == j' && Twos(c) < i')
  }

  lemma PiledStep(tt: seq<int>, sign: int, n: nat, row: seq<Recd>, j: int, i: int, c: Cube)
    requires |tt| == Pow2(n) && Cell(tt, sign, n, row, j, i, true, true)
    ensures (exists k :: 0 <= k < |row| && row[k].data == c && !row[k].used) <==>
            Prime(tt, sign, n, c) && Ones(c) == j && Twos(c) == i
  {
    UsedIsNotPrime(tt, sign, n, row, j, i);
    RowCubes(tt, sign, n, row, j, i);
    if Prime(tt, sign, n, c) && Ones(c) == j && Twos(c) == i {
      assert Has(row, c);
      var k :| 0 <= k < |row| && row[k].data == c;
    }
  }

  method Assemble(tt: seq<int>, sign: int, n: nat, clauses: array2<seq<Recd>>) returns (ret: seq<Cube>)
    requires |tt| == Pow2(n) && clauses.Length0 == clauses.Length1 == n + 1
    requires forall j, i :: 0 <= j <= n && 0 <= i <= n ==> Cell(tt, sign, n, clauses[j, i], j, i, true, true)
    ensures ExactlyPrimes(tt, sign, n, ret)
  {
    ret := [];
    for j := 0 to n + 1
      invariant NoDuplicates(ret)
      invariant forall c :: c in ret <==> Prime(tt, sign, n, c) && Piled(c, j, 0)
    {
      for i := 0 to n + 1
        invariant NoDuplicates(ret)
        invariant forall c :: c in ret <==> Prime(tt, sign, n, c) && Piled(c, j, i)
      {
        RowCubes(tt, sign, n, clauses[j, i], j, i);
        ret := AddUnused(clauses[j, i], ret);
        forall c { PiledStep(tt, sign, n, clauses[j, i], j, i, c); }
      }
      forall c | IsCube(c, n) ensures Twos(c) <= n { CountBound(c); }
    }
    forall c | IsCube(c, n) ensures Ones(c) <= n { CountBound(c); }
  }

  // resolve: the prime implicants of the table entries equal to sign, each
  // once, with the closing loop over after at most two rounds.
  method Resolve(tt: seq<int>, sign: int, n: nat) returns (ret: seq<Cube>, rounds: nat)
    requires |tt| == Pow2(n)
    ensures ExactlyPrimes(tt, sign, n, ret)
    ensures 1 <= rounds <= 2
  {
    var clauses := new seq<Recd>[n + 1, n + 1]((j, i) => []);
    Seed(tt, sign, n, clauses);
    Levels(tt, sign, n, clauses);
    ret := Assemble(tt, sign, n, clauses);
    ret, rounds := PrimeClosure.Close(tt, sign, n, ret);
  }
}
