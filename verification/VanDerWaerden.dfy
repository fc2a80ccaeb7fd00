// The CNF branch of the van der Waerden generator (src/generator/vanDerWaerden.cc):
// numbers 1 to n in k buckets, no arithmetic progression of length p in one bucket.

module VanDerWaerden {
  import opened Arithmetic
  import opened Bdd
  import opened Clauses

  // The variable that says that x is in the bucket.
  function Place(n: nat, x: nat, bucket: nat): nat { bucket * n + x }

  ghost predicate In(n: nat, x: nat, bucket: nat, a: Assignment) {
    Place(n, x, bucket) in a
  }

  lemma PlaceBound(n: nat, k: nat, x: nat, bucket: nat)
    requires 1 <= x <= n && bucket < k
    ensures 1 <= Place(n, x, bucket) <= n * k
  {
    assert (k - bucket - 1) * n >= 0;
    assert n * k == bucket * n + (k - bucket - 1) * n + n;
  }

  lemma PlaceInjective(n: nat, x: nat, b: nat, y: nat, c: nat)
    requires 1 <= x <= n && 1 <= y <= n && Place(n, x, b) == Place(n, y, c)
    ensures x == y && b == c
  {
    DivUnique(Place(n, x, b) - 1, n, b, x - 1);
    DivUnique(Place(n, y, c) - 1, n, c, y - 1);
  }

  // ----- the number of progressions -----

  function Triangle(m: nat): nat {
    if m == 0 then 0 else Triangle(m - 1) + m
  }

  lemma {:induction false} TriangleHalf(m: nat)
    ensures 2 * Triangle(m) == (1 + m) * m
  {
    if m > 0 {
      TriangleHalf(m - 1);
    }
  }

  // Pairs of a first number and a step whose progression, q steps long, stays within n.
  function Progressions(n: nat, q: nat): nat
    requires q >= 1
  {
    if n == 0 then 0 else Progressions(n - 1, q) + (n - 1) / q
  }

  // The closed form: the steps that fit, each with the first numbers it leaves room for.
  function ClosedForm(n: nat, q: nat, steps: nat): int {
    steps * n - q * Triangle(steps)
  }

  lemma ProgressionsClosed(n: nat, q: nat)
    requires q >= 1 && n >= 1
    ensures Progressions(n, q) == ClosedForm(n, q, (n - 1) / q)
  {
    ClosedWith(n, q, (n - 1) / q, (n - 1) % q);
  }

  // By the quotient and the remainder of n - 1.
  lemma {:induction false} ClosedWith(n: nat, q: nat, m: nat, r: nat)
    requires n >= 1 && r < q && n - 1 == q * m + r
    ensures Progressions(n, q) == ClosedForm(n, q, m)
    decreases n
  {
    if r > 0 {
      ClosedWith(n - 1, q, m, r - 1);
      SameSteps(n, q, m, r);
    } else if m > 0 {
      OneBefore(q, m);
      ClosedWith(n - 1, q, m - 1, q - 1);
      OneStepMore(n, q, m);
    } else {
      assert Progressions(1, q) == Progressions(0, q) + 0 / q;
      DivUnique(0, q, 0, 0);
    }
  }

  lemma OneBefore(q: nat, m: nat)
    requires q >= 1 && m >= 1
    ensures q * m >= q && q * m - 1 == q * (m - 1) + (q - 1)
  {
    assert q * m == q * (m - 1) + q;
  }

  lemma OneMore(n: nat, q: nat, m: nat, r: nat)
    requires n >= 1 && r < q && n - 1 == q * m + r
    ensures Progressions(n, q) == Progressions(n - 1, q) + m
  {
    DivUnique(n - 1, q, m, r);
  }

  lemma SameSteps(n: nat, q: nat, m: nat, r: nat)
    requires n >= 1 && r < q && n - 1 == q * m + r
    requires Progressions(n - 1, q) == ClosedForm(n - 1, q, m)
    ensures Progressions(n, q) == ClosedForm(n, q, m)
  {
    OneMore(n, q, m, r);
    assert m * n == m * (n - 1) + m;
  }

  lemma OneStepMore(n: nat, q: nat, m: nat)
    requires m >= 1 && q >= 1 && n >= 1 && n - 1 == q * m
    requires Progressions(n - 1, q) == ClosedForm(n - 1, q, m - 1)
    ensures Progressions(n, q) == ClosedForm(n, q, m)
  {
    OneMore(n, q, m, 0);
    StepSums(n, q, m, Triangle(m - 1));
  }

  lemma StepSums(n: nat, q: nat, m: nat, t: nat)
    requires n >= 1 && m >= 1 && n - 1 == q * m
    ensures m * n - q * (t + m) == (m - 1) * (n - 1) - q * t + m
  {
    assert q * (t + m) == q * t + q * m;
    assert (m - 1) * (n - 1) == m * (n - 1) - (n - 1);
    assert m * n == m * (n - 1) + m;
  }

  // max_step: the division truncates, which matters for n = 0 only.
  function MaxStep(n: nat, p: nat): int
    requires p >= 2
  {
    if n > 0 then (n - 1) / (p - 1) else if p == 2 then -1 else 0
  }

  // The counts of the header, computed in this order.
  method Header(n: nat, k: nat, p: nat) returns (vars: int, clauses: int)
    requires p >= 2
    ensures vars == n * k
    ensures clauses == n * (1 + PairsOf(k)) + k * Progressions(n, p - 1)
  {
    var max_step := MaxStep(n, p);
    var prog_sum := (1 + max_step) * max_step / 2;
    clauses := n + k * (max_step * n - p * prog_sum + prog_sum);
    HeaderProgressions(n, k, p, max_step, prog_sum);
    clauses := clauses + n * k * (k - 1) / 2;
    HeaderPairs(n, k);
    vars := n * k;
  }

  lemma HeaderProgressions(n: nat, k: nat, p: nat, max_step: int, prog_sum: int)
    requires p >= 2 && max_step == MaxStep(n, p) && prog_sum == (1 + max_step) * max_step / 2
    ensures max_step * n - p * prog_sum + prog_sum == Progressions(n, p - 1)
  {
    if n > 0 {
      TriangleHalf(max_step);
      ProgressionsClosed(n, p - 1);
      assert Triangle(max_step) == prog_sum;
      OneLess(p, prog_sum);
    }
  }

  lemma OneLess(p: int, s: int)
    ensures (p - 1) * s == p * s - s
  {
  }

  // Pairs of buckets.
  function PairsOf(k: nat): nat {
    if k == 0 then 0 else Triangle(k - 1)
  }

  lemma HeaderPairs(n: nat, k: nat)
    ensures n * k * (k - 1) / 2 == n * PairsOf(k)
  {
    if k > 0 {
      TriangleHalf(k - 1);
      DoubledProduct(n, k, Triangle(k - 1));
    } else {
      assert n * k == 0;
      assert n * k * (k - 1) == 0;
    }
  }

  lemma DoubledProduct(n: int, k: int, t: int)
    requires 2 * t == k * (k - 1)
    ensures n * k * (k - 1) == 2 * (n * t)
  {
    assert n * k * (k - 1) == n * (k * (k - 1));
    assert n * (2 * t) == 2 * (n * t);
  }

  // ----- one number: at least one bucket, at most one -----

  ghost predicate SomeBucket(n: nat, k: nat, x: nat, a: Assignment) {
    exists b: nat :: b < k && In(n, x, b, a)
  }

  ghost predicate Apart(n: nat, x: nat, b: nat, c: nat, a: Assignment) {
    !(In(n, x, b, a) && In(n, x, c, a))
  }

  ghost predicate OneBucketAtMost(n: nat, k: nat, x: nat, a: Assignment) {
    forall b: nat, c: nat :: b < c < k ==> Apart(n, x, b, c, a)
  }

  ghost predicate Fits(c: seq<int>, vars: int) {
    forall j :: 0 <= j < |c| ==> c[j] != 0 && -vars <= c[j] <= vars
  }

  ghost predicate AllFit(out: seq<seq<int>>, vars: int) {
    forall i :: 0 <= i < |out| ==> Fits(out[i], vars)
  }

  lemma AppendFits(out: seq<seq<int>>, more: seq<seq<int>>, vars: int)
    requires AllFit(out, vars) && AllFit(more, vars)
    ensures AllFit(out + more, vars)
  {
    forall i | 0 <= i < |out + more| ensures Fits((out + more)[i], vars) {
      assert (out + more)[i] == if i < |out| then out[i] else more[i - |out|];
    }
  }

  // The clause of all buckets; the first one is printed even if there is none.
  method AtLeastOne(n: nat, k: nat, x: nat) returns (c: seq<int>)
    requires 1 <= x <= n
    ensures k >= 1 ==> Fits(c, n * k)
    ensures k >= 1 ==> forall a: Assignment :: ClauseTrue(c, a) <==> SomeBucket(n, k, x, a)
  {
    c := [Place(n, x, 0)];
    var bucket: nat := 1;
    while bucket < k
      invariant bucket >= 1 && (k >= 1 ==> bucket <= k)
      invariant |c| == bucket && forall b: nat :: b < bucket ==> c[b] == Place(n, x, b)
    {
      c := c + [Place(n, x, bucket)];
      bucket := bucket + 1;
    }
    if k >= 1 {
      BucketsListed(n, k, x, c);
    }
  }

  lemma BucketsListed(n: nat, k: nat, x: nat, c: seq<int>)
    requires 1 <= x <= n && |c| == k && forall b: nat :: b < k ==> c[b] == Place(n, x, b)
    ensures Fits(c, n * k)
    ensures forall a: Assignment :: ClauseTrue(c, a) <==> SomeBucket(n, k, x, a)
  {
    forall j: nat | j < |c| ensures c[j] != 0 && -(n * k) <= c[j] <= n * k {
      PlaceBound(n, k, x, j);
    }
    forall a: Assignment ensures ClauseTrue(c, a) <==> SomeBucket(n, k, x, a) {
      if ClauseTrue(c, a) {
        var j: nat :| j < |c| && LitTrue(c[j], a);
        assert In(n, x, j, a);
      }
      if b: nat :| b < k && In(n, x, b, a) {
        assert LitTrue(c[b], a);
      }
    }
  }

  ghost predicate PairClause(c: seq<int>, n: nat, k: nat, x: nat, b: nat, b2: nat) {
    Fits(c, n * k) && forall a: Assignment :: ClauseTrue(c, a) <==> Apart(n, x, b, b2, a)
  }

  lemma PairClauseRight(n: nat, k: nat, x: nat, b: nat, b2: nat)
    requires 1 <= x <= n && b < k && b2 < k
    ensures PairClause([-(Place(n, x, b) as int), -(Place(n, x, b2) as int)], n, k, x, b, b2)
  {
    var c := [-(Place(n, x, b) as int), -(Place(n, x, b2) as int)];
    PlaceBound(n, k, x, b);
    PlaceBound(n, k, x, b2);
    forall a: Assignment ensures ClauseTrue(c, a) <==> Apart(n, x, b, b2, a) {
      assert ClauseTrue(c, a) <==> LitTrue(c[0], a) || LitTrue(c[1], a);
    }
  }

  // The pairs with a first bucket below b, or equal to b and a second one below c.
  ghost predicate ApartSoFar(n: nat, k: nat, x: nat, b: nat, c: nat, a: Assignment) {
    forall i: nat, j: nat :: i < j < k && (i < b || (i == b && j < c)) ==> Apart(n, x, i, j, a)
  }

  lemma ApartMore(n: nat, k: nat, x: nat, b: nat, c: nat, a: Assignment)
    requires b < c < k
    ensures ApartSoFar(n, k, x, b, c + 1, a) <==> ApartSoFar(n, k, x, b, c, a) && Apart(n, x, b, c, a)
  {
  }

  ghost predicate Says(out: seq<seq<int>>, meaning: iset<Assignment>) {
    forall a: Assignment :: AllTrue(out, a) <==> a in meaning
  }

  ghost function ApartSet(n: nat, k: nat, x: nat, b: nat, c: nat): iset<Assignment> {
    iset a: Assignment | ApartSoFar(n, k, x, b, c, a)
  }

  lemma ApartAdded(out: seq<seq<int>>, n: nat, k: nat, x: nat, b: nat, c: nat, clause: seq<int>)
    requires b < c < k && Says(out, ApartSet(n, k, x, b, c)) && PairClause(clause, n, k, x, b, c)
    ensures Says(out + [clause], ApartSet(n, k, x, b, c + 1))
  {
    forall a: Assignment ensures AllTrue(out + [clause], a) <==> a in ApartSet(n, k, x, b, c + 1) {
      AllTrueAppend(out, [clause], a);
      AllTrueSingle(clause, a);
      ApartMore(n, k, x, b, c, a);
    }
  }

  lemma AllTrueSingle(c: seq<int>, a: Assignment)
    ensures AllTrue([c], a) <==> ClauseTrue(c, a)
  {
    assert [c][0] == c;
  }

  method AtMostOne(n: nat, k: nat, x: nat) returns (out: seq<seq<int>>)
    requires 1 <= x <= n
    ensures |out| == PairsOf(k) && AllFit(out, n * k)
    ensures forall a: Assignment :: AllTrue(out, a) <==> OneBucketAtMost(n, k, x, a)
  {
    out := [];
    var bucket: nat := 0;
    assert forall a: Assignment :: ApartSoFar(n, k, x, 0, 1, a);
    while bucket < k
      invariant bucket <= k && AllFit(out, n * k) && |out| == PairsOf(k) - PairsOf(k - bucket)
      invariant Says(out, ApartSet(n, k, x, bucket, bucket + 1))
    {
      ghost var before := |out|;
      var bucket2: nat := bucket + 1;
      while bucket2 < k
        invariant bucket < bucket2 <= k && AllFit(out, n * k) && |out| == before + (bucket2 - bucket - 1)
        invariant Says(out, ApartSet(n, k, x, bucket, bucket2))
      {
        var clause := [-(Place(n, x, bucket) as int), -(Place(n, x, bucket2) as int)];
        PairClauseRight(n, k, x, bucket, bucket2);
        ApartAdded(out, n, k, x, bucket, bucket2, clause);
        AppendFits(out, [clause], n * k);
        out := out + [clause];
        bucket2 := bucket2 + 1;
      }
      RowOfPairs(n, k, x, bucket);
      bucket := bucket + 1;
    }
  }

  lemma RowOfPairs(n: nat, k: nat, x: nat, b: nat)
    requires b < k
    ensures ApartSet(n, k, x, b, k) == ApartSet(n, k, x, b + 1, b + 2)
    ensures PairsOf(k - b) == PairsOf(k - b - 1) + (k - b - 1)
  {
    forall a: Assignment ensures ApartSoFar(n, k, x, b, k, a) <==> ApartSoFar(n, k, x, b + 1, b + 2, a) {
    }
  }

  // ----- all numbers -----

  // x is in exactly one bucket.
  ghost predicate Placed(n: nat, k: nat, x: nat, a: Assignment) {
    SomeBucket(n, k, x, a) && OneBucketAtMost(n, k, x, a)
  }

  ghost predicate AllPlaced(n: nat, k: nat, bound: nat, a: Assignment) {
    forall x: nat :: 1 <= x < bound ==> Placed(n, k, x, a)
  }

  method BucketClauses(n: nat, k: nat, x: nat) returns (out: seq<seq<int>>)
    requires 1 <= x <= n
    ensures |out| == 1 + PairsOf(k) && (k >= 1 ==> AllFit(out, n * k))
    ensures k >= 1 ==> forall a: Assignment :: AllTrue(out, a) <==> Placed(n, k, x, a)
  {
    var some := AtLeastOne(n, k, x);
    var pairs := AtMostOne(n, k, x);
    out := [some] + pairs;
    if k >= 1 {
      AppendFits([some], pairs, n * k);
      forall a: Assignment ensures AllTrue(out, a) <==> Placed(n, k, x, a) {
        AllTrueAppend([some], pairs, a);
        AllTrueSingle(some, a);
      }
    }
  }

  method AllBuckets(n: nat, k: nat) returns (out: seq<seq<int>>)
    ensures |out| == n * (1 + PairsOf(k)) && (k >= 1 ==> AllFit(out, n * k))
    ensures k >= 1 ==> forall a: Assignment :: AllTrue(out, a) <==> AllPlaced(n, k, n + 1, a)
  {
    out := [];
    var x: nat := 1;
    while x <= n
      invariant 1 <= x <= n + 1 && |out| == (x - 1) * (1 + PairsOf(k)) && (k >= 1 ==> AllFit(out, n * k))
      invariant k >= 1 ==> forall a: Assignment :: AllTrue(out, a) <==> AllPlaced(n, k, x, a)
    {
      var more := BucketClauses(n, k, x);
      Times(x, 1 + PairsOf(k));
      if k >= 1 {
        AppendFits(out, more, n * k);
        forall a: Assignment ensures AllTrue(out + more, a) <==> AllPlaced(n, k, x + 1, a) {
          AllTrueAppend(out, more, a);
        }
      }
      out := out + more;
      x := x + 1;
    }
  }

  lemma Times(x: int, c: int)
    ensures (x - 1) * c + c == x * c
  {
  }

  // ----- progressions -----

  function Member(num: nat, step: nat, z: nat): nat { num + z * step }

  // The progression of length p from num in steps of step stays within n / lies in the bucket.
  predicate Room(n: nat, p: nat, num: nat, step: nat)
    requires p >= 1
  {
    step * (p - 1) + num <= n
  }

  ghost predicate InARow(n: nat, p: nat, bucket: nat, num: nat, step: nat, a: Assignment) {
    forall z: nat :: z < p ==> In(n, Member(num, step, z), bucket, a)
  }

  ghost predicate RowClause(c: seq<int>, n: nat, p: nat, bucket: nat, num: nat, step: nat, vars: int) {
    Fits(c, vars) && forall a: Assignment :: ClauseTrue(c, a) <==> !InARow(n, p, bucket, num, step, a)
  }

  lemma WithinRow(n: nat, p: nat, num: nat, step: nat, z: nat)
    requires num >= 1 && z < p && Room(n, p, num, step)
    ensures 1 <= Member(num, step, z) <= n
  {
    assert step * (p - 1) == z * step + (p - 1 - z) * step;
    assert (p - 1 - z) * step >= 0;
    assert z * step >= 0;
  }

  // The clause against one progression.
  method RowOut(n: nat, k: nat, p: nat, bucket: nat, num: nat, step: nat) returns (c: seq<int>)
    requires p >= 2 && num >= 1 && Room(n, p, num, step) && bucket < k
    ensures RowClause(c, n, p, bucket, num, step, n * k)
  {
    c := [];
    var base := num;
    for z: nat := 0 to p
      invariant |c| == z && base == Member(num, step, z)
      invariant forall y: nat :: y < z ==> c[y] == -(Place(n, Member(num, step, y), bucket) as int)
    {
      c := c + [-(Place(n, base, bucket) as int)];
      NextInRow(num, step, z);
      base := base + step;
    }
    RowListed(n, k, p, bucket, num, step, c);
  }

  lemma NextInRow(num: nat, step: nat, z: nat)
    ensures Member(num, step, z) + step == Member(num, step, z + 1)
  {
  }

  lemma RowListed(n: nat, k: nat, p: nat, bucket: nat, num: nat, step: nat, c: seq<int>)
    requires p >= 2 && num >= 1 && Room(n, p, num, step) && bucket < k
    requires |c| == p && forall y: nat :: y < p ==> c[y] == -(Place(n, Member(num, step, y), bucket) as int)
    ensures RowClause(c, n, p, bucket, num, step, n * k)
  {
    forall j: nat | j < |c| ensures c[j] != 0 && -(n * k) <= c[j] <= n * k {
      WithinRow(n, p, num, step, j);
      PlaceBound(n, k, Member(num, step, j), bucket);
    }
    forall a: Assignment ensures ClauseTrue(c, a) <==> !InARow(n, p, bucket, num, step, a) {
      if ClauseTrue(c, a) {
        var j: nat :| j < |c| && LitTrue(c[j], a);
        assert !In(n, Member(num, step, j), bucket, a);
      }
      if !InARow(n, p, bucket, num, step, a) {
        var z: nat :| z < p && !In(n, Member(num, step, z), bucket, a);
        assert LitTrue(c[z], a);
      }
    }
  }

  // No progression from num with a step below bound.
  ghost predicate NoRowFrom(n: nat, p: nat, bucket: nat, num: nat, bound: nat, a: Assignment) {
    forall step: nat :: 1 <= step < bound ==> !InARow(n, p, bucket, num, step, a)
  }

  ghost function NoRowSet(n: nat, p: nat, bucket: nat, num: nat, bound: nat): iset<Assignment> {
    iset a: Assignment | NoRowFrom(n, p, bucket, num, bound, a)
  }

  lemma RowAdded(out: seq<seq<int>>, n: nat, p: nat, bucket: nat, num: nat, step: nat, clause: seq<int>, vars: int)
    requires Says(out, NoRowSet(n, p, bucket, num, step)) && RowClause(clause, n, p, bucket, num, step, vars) && step >= 1
    ensures Says(out + [clause], NoRowSet(n, p, bucket, num, step + 1))
  {
    forall a: Assignment ensures AllTrue(out + [clause], a) <==> a in NoRowSet(n, p, bucket, num, step + 1) {
      AllTrueAppend(out, [clause], a);
      AllTrueSingle(clause, a);
    }
  }

  // The steps that fit behind num.
  ghost predicate LastStep(n: nat, p: nat, num: nat, last: nat)
    requires p >= 1
  {
    (last >= 1 ==> Room(n, p, num, last)) && !Room(n, p, num, last + 1)
  }

  lemma LastStepCount(n: nat, p: nat, num: nat, last: nat)
    requires p >= 2 && 1 <= num <= n && LastStep(n, p, num, last)
    ensures last == (n - num) / (p - 1)
  {
    assert (last + 1) * (p - 1) == last * (p - 1) + (p - 1);
    assert last * (p - 1) == (p - 1) * last;
    DivUnique(n - num, p - 1, last, n - num - (p - 1) * last);
  }

  // All progressions of one bucket that start at num.
  method RowsFrom(n: nat, k: nat, p: nat, bucket: nat, num: nat) returns (out: seq<seq<int>>, ghost last: nat)
    requires p >= 2 && 1 <= num <= n && bucket < k
    ensures |out| == last == (n - num) / (p - 1) && AllFit(out, n * k)
    ensures Says(out, NoRowSet(n, p, bucket, num, last + 1)) && LastStep(n, p, num, last)
  {
    out := [];
    var step: nat := 1;
    while Room(n, p, num, step)
      invariant step >= 1 && |out| == step - 1 && AllFit(out, n * k)
      invariant Says(out, NoRowSet(n, p, bucket, num, step))
      invariant step > 1 ==> Room(n, p, num, step - 1)
      decreases n - step * (p - 1) - num
    {
      var clause := RowOut(n, k, p, bucket, num, step);
      RowAdded(out, n, p, bucket, num, step, clause, n * k);
      AppendFits(out, [clause], n * k);
      out := out + [clause];
      OneLess(step + 1, p - 1);
      step := step + 1;
    }
    last := step - 1;
    LastStepCount(n, p, num, last);
  }

  // No progression of length p within n lies in the bucket, first numbers below bound.
  ghost predicate NoRow(n: nat, p: nat, bucket: nat, bound: nat, a: Assignment)
    requires p >= 1
  {
    forall num: nat, step: nat :: 1 <= num < bound && step >= 1 && Room(n, p, num, step) ==> !InARow(n, p, bucket, num, step, a)
  }

  lemma NoRowMore(n: nat, p: nat, bucket: nat, num: nat, last: nat, a: Assignment)
    requires p >= 2 && 1 <= num <= n && LastStep(n, p, num, last)
    ensures NoRow(n, p, bucket, num + 1, a) <==> NoRow(n, p, bucket, num, a) && NoRowFrom(n, p, bucket, num, last + 1, a)
  {
    forall step: nat | step >= 1 ensures Room(n, p, num, step) <==> step <= last {
      if step <= last {
        Monotone(step, last, p - 1);
      } else {
        Monotone(last + 1, step, p - 1);
      }
    }
  }

  lemma Monotone(i: nat, j: nat, q: nat)
    requires i <= j
    ensures i * q <= j * q
  {
    assert j * q == i * q + (j - i) * q;
    assert (j - i) * q >= 0;
  }

  method BucketRows(n: nat, k: nat, p: nat, bucket: nat) returns (out: seq<seq<int>>)
    requires p >= 2 && bucket < k
    ensures |out| == Progressions(n, p - 1) && AllFit(out, n * k)
    ensures forall a: Assignment :: AllTrue(out, a) <==> NoRowIn(n, p, bucket, a)
  {
    out := [];
    var num: nat := 1;
    while num <= n
      invariant 1 <= num <= n + 1 && AllFit(out, n * k)
      invariant |out| == Progressions(n, p - 1) - Progressions(n - num + 1, p - 1)
      invariant forall a: Assignment :: AllTrue(out, a) <==> NoRow(n, p, bucket, num, a)
    {
      ghost var last;
      var more;
      more, last := RowsFrom(n, k, p, bucket, num);
      AppendFits(out, more, n * k);
      forall a: Assignment ensures AllTrue(out + more, a) <==> NoRow(n, p, bucket, num + 1, a) {
        AllTrueAppend(out, more, a);
        NoRowMore(n, p, bucket, num, last, a);
      }
      out := out + more;
      num := num + 1;
    }
  }

  ghost predicate NoRows(n: nat, p: nat, bound: nat, a: Assignment)
    requires p >= 1
  {
    forall b: nat :: b < bound ==> NoRowIn(n, p, b, a)
  }

  ghost predicate NoRowIn(n: nat, p: nat, bucket: nat, a: Assignment)
    requires p >= 1
  {
    NoRow(n, p, bucket, n + 1, a)
  }

  method AllRows(n: nat, k: nat, p: nat) returns (out: seq<seq<int>>)
    requires p >= 2
    ensures |out| == k * Progressions(n, p - 1) && AllFit(out, n * k)
    ensures forall a: Assignment :: AllTrue(out, a) <==> NoRows(n, p, k, a)
  {
    out := [];
    for bucket: nat := 0 to k
      invariant |out| == bucket * Progressions(n, p - 1) && AllFit(out, n * k)
      invariant forall a: Assignment :: AllTrue(out, a) <==> NoRows(n, p, bucket, a)
    {
      var more := BucketRows(n, k, p, bucket);
      AppendFits(out, more, n * k);
      forall a: Assignment ensures AllTrue(out + more, a) <==> NoRows(n, p, bucket + 1, a) {
        AllTrueAppend(out, more, a);
      }
      Times(bucket + 1, Progressions(n, p - 1));
      out := out + more;
    }
  }

  // ----- the whole formula -----

  ghost predicate Arrangement(n: nat, k: nat, p: nat, a: Assignment)
    requires p >= 1
  {
    AllPlaced(n, k, n + 1, a) && NoRows(n, p, k, a)
  }

  // The header counts the clauses that follow; with a bucket at all it bounds their
  // variables, and the models are the arrangements without a progression.
  method VanDerWaerden(n: nat, k: nat, p: nat) returns (vars: int, clauses: int, out: seq<seq<int>>)
    requires p >= 2
    ensures vars == n * k && clauses == |out|
    ensures k >= 1 ==> AllFit(out, vars)
    ensures k >= 1 ==> forall a: Assignment :: AllTrue(out, a) <==> Arrangement(n, k, p, a)
  {
    vars, clauses := Header(n, k, p);
    var buckets := AllBuckets(n, k);
    var rows := AllRows(n, k, p);
    out := buckets + rows;
    if k >= 1 {
      AppendFits(buckets, rows, vars);
    }
    forall a: Assignment ensures AllTrue(out, a) <==> AllTrue(buckets, a) && AllTrue(rows, a) {
      AllTrueAppend(buckets, rows, a);
    }
  }

  // ----- what a model is worth -----

  // bucketOf[x - 1] is the bucket of x.
  ghost predicate Partition(bucketOf: seq<nat>, n: nat, k: nat, p: nat)
    requires p >= 1
  {
    && |bucketOf| == n && (forall x: nat :: x < n ==> bucketOf[x] < k)
    && forall num: nat, step: nat :: num >= 1 && step >= 1 && Room(n, p, num, step) ==> !SameBucket(bucketOf, p, num, step)
  }

  ghost predicate SameBucket(bucketOf: seq<nat>, p: nat, num: nat, step: nat) {
    exists b: nat :: AllHave(bucketOf, p, num, step, b)
  }

  ghost predicate AllHave(bucketOf: seq<nat>, p: nat, num: nat, step: nat, b: nat) {
    forall z: nat :: z < p ==> HasBucket(bucketOf, Member(num, step, z), b)
  }

  ghost predicate HasBucket(bucketOf: seq<nat>, x: nat, b: nat) {
    1 <= x <= |bucketOf| && bucketOf[x - 1] == b
  }

  ghost function Assigned(bucketOf: seq<nat>): Assignment {
    iset v: nat | Chosen(bucketOf, v)
  }

  ghost predicate Chosen(bucketOf: seq<nat>, v: nat) {
    exists x: nat :: ChosenAt(bucketOf, v, x)
  }

  ghost predicate ChosenAt(bucketOf: seq<nat>, v: nat, x: nat) {
    1 <= x <= |bucketOf| && v == Place(|bucketOf|, x, bucketOf[x - 1])
  }

  lemma AssignedIn(bucketOf: seq<nat>, x: nat, b: nat)
    requires 1 <= x <= |bucketOf|
    ensures In(|bucketOf|, x, b, Assigned(bucketOf)) <==> bucketOf[x - 1] == b
  {
    assert ChosenAt(bucketOf, Place(|bucketOf|, x, bucketOf[x - 1]), x);
    if y: nat :| ChosenAt(bucketOf, Place(|bucketOf|, x, b), y) {
      PlaceInjective(|bucketOf|, x, b, y, bucketOf[y - 1]);
    }
  }

  lemma RowHasBucket(bucketOf: seq<nat>, p: nat, b: nat, num: nat, step: nat)
    requires p >= 2 && num >= 1 && Room(|bucketOf|, p, num, step)
    requires InARow(|bucketOf|, p, b, num, step, Assigned(bucketOf))
    ensures SameBucket(bucketOf, p, num, step)
  {
    forall z: nat | z < p ensures HasBucket(bucketOf, Member(num, step, z), b) {
      WithinRow(|bucketOf|, p, num, step, z);
      AssignedIn(bucketOf, Member(num, step, z), b);
      assert In(|bucketOf|, Member(num, step, z), b, Assigned(bucketOf));
    }
    assert AllHave(bucketOf, p, num, step, b);
  }

  lemma PartitionIsModel(bucketOf: seq<nat>, n: nat, k: nat, p: nat)
    requires p >= 2 && Partition(bucketOf, n, k, p)
    ensures Arrangement(n, k, p, Assigned(bucketOf))
  {
    var a := Assigned(bucketOf);
    forall x: nat | 1 <= x < n + 1 ensures Placed(n, k, x, a) {
      AssignedIn(bucketOf, x, bucketOf[x - 1]);
      forall b: nat, c: nat | b < c < k ensures Apart(n, x, b, c, a) {
        AssignedIn(bucketOf, x, b);
        AssignedIn(bucketOf, x, c);
      }
    }
    forall b: nat, num: nat, step: nat | b < k && 1 <= num < n + 1 && step >= 1 && Room(n, p, num, step)
      ensures !InARow(n, p, b, num, step, a)
    {
      if InARow(n, p, b, num, step, a) {
        RowHasBucket(bucketOf, p, b, num, step);
      }
    }
  }

  lemma {:induction false} BucketsOf(n: nat, k: nat, p: nat, a: Assignment, m: nat) returns (bucketOf: seq<nat>)
    requires AllPlaced(n, k, n + 1, a) && m <= n
    ensures |bucketOf| == m && forall x: nat :: x < m ==> bucketOf[x] < k && In(n, x + 1, bucketOf[x], a)
  {
    bucketOf := [];
    if m > 0 {
      var rest := BucketsOf(n, k, p, a, m - 1);
      assert Placed(n, k, m, a);
      var b: nat :| b < k && In(n, m, b, a);
      bucketOf := rest + [b];
    }
  }

  lemma BucketHasRow(bucketOf: seq<nat>, p: nat, b: nat, num: nat, step: nat, a: Assignment)
    requires p >= 1 && AllHave(bucketOf, p, num, step, b)
    requires forall x: nat :: x < |bucketOf| ==> In(|bucketOf|, x + 1, bucketOf[x], a)
    ensures 1 <= num <= |bucketOf| && bucketOf[num - 1] == b && InARow(|bucketOf|, p, b, num, step, a)
  {
    assert HasBucket(bucketOf, Member(num, step, 0), b);
    forall z: nat | z < p ensures In(|bucketOf|, Member(num, step, z), b, a) {
      assert HasBucket(bucketOf, Member(num, step, z), b);
      assert In(|bucketOf|, (Member(num, step, z) - 1) + 1, bucketOf[Member(num, step, z) - 1], a);
    }
  }

  lemma ModelIsPartition(n: nat, k: nat, p: nat, a: Assignment) returns (bucketOf: seq<nat>)
    requires p >= 2 && Arrangement(n, k, p, a)
    ensures Partition(bucketOf, n, k, p)
  {
    bucketOf := BucketsOf(n, k, p, a, n);
    forall num: nat, step: nat | num >= 1 && step >= 1 && Room(n, p, num, step) ensures !SameBucket(bucketOf, p, num, step) {
      WithinRow(n, p, num, step, 0);
      assert NoRowIn(n, p, bucketOf[num - 1], a);
      if b: nat :| AllHave(bucketOf, p, num, step, b) {
        BucketHasRow(bucketOf, p, b, num, step, a);
      }
    }
  }

  // The formula has a model if and only if 1 to n can be put into k buckets without a
  // progression of length p in one of them.
  lemma SatisfiableExactly(n: nat, k: nat, p: nat)
    requires p >= 2
    ensures (exists a: Assignment :: Arrangement(n, k, p, a)) <==> exists bucketOf :: Partition(bucketOf, n, k, p)
  {
    if a: Assignment :| Arrangement(n, k, p, a) {
      var bucketOf := ModelIsPartition(n, k, p, a);
    }
    if bucketOf :| Partition(bucketOf, n, k, p) {
      PartitionIsModel(bucketOf, n, k, p);
    }
  }
}
