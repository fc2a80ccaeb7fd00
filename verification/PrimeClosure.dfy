// The closing loop of resolve (src/formats/bdd2cnf.cc): bounded resolution
// followed by subsumption, repeated until the counts stop changing.

module PrimeClosure {
  import opened Arithmetic
  import opened Basics
  import opened Cubes

  // ----- bounded resolution -----

  predicate Clash(a: Cube, b: Cube, k: nat)
    requires k < |a| == |b|
  {
    a[k] != 2 && b[k] != 2 && a[k] != b[k]
  }

  function Consensus(a: Cube, b: Cube): Cube
    requires |a| == |b|
  {
    seq(|a|, k requires 0 <= k < |a| =>
      if a[k] == 2 then b[k] else if b[k] == 2 then a[k] else if a[k] == b[k] then a[k] else 2)
  }

  ghost predicate AtMostOneClash(a: Cube, b: Cube)
    requires |a| == |b|
  {
    forall k, l :: 0 <= k < l < |a| ==> !(Clash(a, b, k) && Clash(a, b, l))
  }

  lemma {:induction false} LiteralsAppend(c: Cube, x: int)
    ensures Literals(c + [x]) == Literals(c) + if x != 2 then 1 else 0
  {
    if c != [] {
      LiteralsAppend(c[1..], x);
      assert (c + [x])[1..] == c[1..] + [x];
    }
  }

  method ResolveCubes(anchor: Cube, sweep: Cube, n: nat) returns (ok: bool, comlits: nat, tmp: Cube)
    requires IsCube(anchor, n) && IsCube(sweep, n)
    ensures ok == AtMostOneClash(anchor, sweep)
    ensures ok ==> tmp == Consensus(anchor, sweep) && comlits == Literals(tmp)
  {
    var pivot := -1;
    comlits, tmp := 0, [];
    for i := 0 to n
      invariant tmp == Consensus(anchor, sweep)[..i] && comlits == Literals(tmp)
      invariant pivot == -1 || (0 <= pivot < i && Clash(anchor, sweep, pivot))
      invariant forall k :: 0 <= k < i && Clash(anchor, sweep, k) ==> k == pivot
    {
      var entry;
      if anchor[i] == 2 {
        entry := sweep[i];
        if entry != 2 { comlits := comlits + 1; }
      } else if sweep[i] == 2 {
        entry := anchor[i];
        if entry != 2 { comlits := comlits + 1; }
      } else if (sweep[i] == 0 && anchor[i] == 1) || (sweep[i] == 1 && anchor[i] == 0) {
        if pivot != -1 {
          assert Clash(anchor, sweep, pivot) && Clash(anchor, sweep, i);
          return false, comlits, tmp;
        }
        pivot := i;
        entry := 2;
      } else {
        entry := sweep[i];
        comlits := comlits + 1;
      }
      LiteralsAppend(tmp, entry);
      tmp := tmp + [entry];
      assert Consensus(anchor, sweep)[..i + 1] == Consensus(anchor, sweep)[..i] + [Consensus(anchor, sweep)[i]];
    }
    ok := true;
    assert tmp == Consensus(anchor, sweep);
  }

  // A point of the consensus lies in one of the two cubes.
  lemma ConsensusCovers(a: Cube, b: Cube, n: nat, p: Cube)
    requires IsCube(a, n) && IsCube(b, n) && IsPoint(p, n)
    requires AtMostOneClash(a, b) && Covers(Consensus(a, b), p)
    ensures Covers(a, p) || Covers(b, p)
  {
    var c := Consensus(a, b);
    assert forall k :: 0 <= k < n && !Clash(a, b, k) ==>
      (a[k] == 2 || c[k] == a[k]) && (b[k] == 2 || c[k] == b[k]) && (c[k] == 2 || c[k] == p[k]);
    if k :| 0 <= k < n && Clash(a, b, k) {
      assert p[k] == a[k] || p[k] == b[k];
      assert forall l :: 0 <= l < n && l != k ==> !Clash(a, b, l);
    }
  }

  lemma ConsensusImplicant(tt: seq<int>, sign: int, n: nat, a: Cube, b: Cube)
    requires |tt| == Pow2(n) && Implicant(tt, sign, n, a) && Implicant(tt, sign, n, b)
    requires AtMostOneClash(a, b)
    ensures Implicant(tt, sign, n, Consensus(a, b))
  {
    forall p | IsPoint(p, n) && Covers(Consensus(a, b), p) ensures On(tt, sign, p) {
      ConsensusCovers(a, b, n, p);
    }
  }

  ghost predicate IsResolvent(m: Cube, a: Cube, b: Cube, k: nat) {
    |a| == |b| && AtMostOneClash(a, b) && m == Consensus(a, b) && Literals(m) <= k
  }

  ghost predicate Resolvable(m: Cube, cs: seq<Cube>, k: nat) {
    exists p, q :: 0 <= p < q < |cs| && IsResolvent(m, cs[p], cs[q], k)
  }

  ghost predicate ResolventBefore(m: Cube, cs: seq<Cube>, k: nat, p': int, q': int) {
    exists p, q :: 0 <= p < q < |cs| && (p < p' || (p == p' && q < q')) && IsResolvent(m, cs[p], cs[q], k)
  }

  lemma ResolventStep(m: Cube, cs: seq<Cube>, k: nat, p: nat, q: nat)
    requires p < q < |cs|
    ensures ResolventBefore(m, cs, k, p, q + 1) <==>
            ResolventBefore(m, cs, k, p, q) || IsResolvent(m, cs[p], cs[q], k)
  {
    if ResolventBefore(m, cs, k, p, q) {
      var p0, q0 :| 0 <= p0 < q0 < |cs| && (p0 < p || (p0 == p && q0 < q)) && IsResolvent(m, cs[p0], cs[q0], k);
      assert p0 < p || (p0 == p && q0 < q + 1);
    }
    if ResolventBefore(m, cs, k, p, q + 1) && !ResolventBefore(m, cs, k, p, q) {
      var p0, q0 :| 0 <= p0 < q0 < |cs| && (p0 < p || (p0 == p && q0 < q + 1)) && IsResolvent(m, cs[p0], cs[q0], k);
      assert p0 == p && q0 == q;
    }
  }

  lemma ResolventRowEnd(m: Cube, cs: seq<Cube>, k: nat, p: nat)
    ensures ResolventBefore(m, cs, k, p, |cs|) <==> ResolventBefore(m, cs, k, p + 1, p + 2)
  {
    if ResolventBefore(m, cs, k, p, |cs|) {
      var p0, q0 :| 0 <= p0 < q0 < |cs| && (p0 < p || (p0 == p && q0 < |cs|)) && IsResolvent(m, cs[p0], cs[q0], k);
      assert p0 < p + 1;
    }
    if ResolventBefore(m, cs, k, p + 1, p + 2) {
      var p0, q0 :| 0 <= p0 < q0 < |cs| && (p0 < p + 1 || (p0 == p + 1 && q0 < p + 2)) && IsResolvent(m, cs[p0], cs[q0], k);
      assert p0 < p || (p0 == p && q0 < |cs|);
    }
  }

  lemma AllResolvents(m: Cube, cs: seq<Cube>, k: nat, p': int)
    requires |cs| - 1 <= p'
    ensures ResolventBefore(m, cs, k, p', p' + 1) <==> Resolvable(m, cs, k)
  {
    if Resolvable(m, cs, k) {
      var p, q :| 0 <= p < q < |cs| && IsResolvent(m, cs[p], cs[q], k);
      assert p < p';
    }
  }

  method ApplyBoundedResolution(clauses: seq<Cube>, k: nat, flag: bool, n: nat)
    returns (front: seq<Cube>, changes: bool, ghost made: seq<Cube>)
    requires forall c :: c in clauses ==> IsCube(c, n)
    ensures front == made + clauses
    ensures forall m :: m in made <==> Resolvable(m, clauses, k)
    ensures changes == if clauses == [] then flag else made != []
  {
    front, changes, made := clauses, flag, [];
    if clauses == [] {
      return;
    }
    NoneBefore(clauses, k);
    for anchor := 0 to |clauses| - 1
      invariant front == made + clauses && MadeBefore(made, clauses, k, anchor, anchor + 1)
    {
      for sweep := anchor + 1 to |clauses|
        invariant front == made + clauses && MadeBefore(made, clauses, k, anchor, sweep)
      {
        var ok, comlits, tmp := ResolveCubes(clauses[anchor], clauses[sweep], n);
        MadeStep(made, clauses, k, anchor, sweep, tmp, ok && comlits <= k);
        if ok && comlits <= k {
          front := [tmp] + front;
          made := [tmp] + made;
        }
      }
      MadeRowEnd(made, clauses, k, anchor);
    }
    AllMade(made, clauses, k);
    changes := |front| > |clauses|;
  }

  // The cubes made before the pair p, q.
  ghost predicate MadeBefore(made: seq<Cube>, cs: seq<Cube>, k: nat, p: int, q: int) {
    forall m :: m in made <==> ResolventBefore(m, cs, k, p, q)
  }

  lemma NoneBefore(cs: seq<Cube>, k: nat)
    ensures MadeBefore([], cs, k, 0, 1)
  {
  }

  lemma MadeStep(made: seq<Cube>, cs: seq<Cube>, k: nat, p: nat, q: nat, tmp: Cube, add: bool)
    requires p < q < |cs| && MadeBefore(made, cs, k, p, q)
    requires add ==> IsResolvent(tmp, cs[p], cs[q], k)
    requires !add ==> forall m :: !IsResolvent(m, cs[p], cs[q], k)
    ensures MadeBefore(if add then [tmp] + made else made, cs, k, p, q + 1)
  {
    var more := if add then [tmp] + made else made;
    forall m ensures m in more <==> ResolventBefore(m, cs, k, p, q + 1) {
      ResolventStep(m, cs, k, p, q);
    }
  }

  lemma MadeRowEnd(made: seq<Cube>, cs: seq<Cube>, k: nat, p: nat)
    requires MadeBefore(made, cs, k, p, |cs|)
    ensures MadeBefore(made, cs, k, p + 1, p + 2)
  {
    forall m ensures m in made <==> ResolventBefore(m, cs, k, p + 1, p + 2) {
      ResolventRowEnd(m, cs, k, p);
    }
  }

  lemma AllMade(made: seq<Cube>, cs: seq<Cube>, k: nat)
    requires cs != [] && MadeBefore(made, cs, k, |cs| - 1, |cs|)
    ensures forall m :: m in made <==> Resolvable(m, cs, k)
  {
    forall m ensures m in made <==> Resolvable(m, cs, k) {
      AllResolvents(m, cs, k, |cs| - 1);
    }
  }

  // ----- subsumption -----

  method Subsumes(cursor: Cube, other: Cube, n: nat) returns (b: bool)
    requires IsCube(cursor, n) && IsCube(other, n)
    ensures b == Covers(cursor, other)
  {
    for i := 0 to n
      invariant forall k :: 0 <= k < i ==> cursor[k] == 2 || cursor[k] == other[k]
    {
      if cursor[i] < 2 && cursor[i] != other[i] {
        return false;
      }
    }
    b := true;
  }

  function Remove<T>(s: seq<T>, t: nat): (r: seq<T>)
    requires t < |s|
    ensures |r| == |s| - 1
    ensures forall k :: 0 <= k < |r| ==> r[k] == s[if k < t then k else k + 1]
  {
    s[..t] + s[t + 1..]
  }

  // The first bound cubes of the list cover no other cube of it.
  ghost predicate Tested(cs: seq<Cube>, bound: int) {
    forall p, q :: 0 <= p < bound && p < |cs| && 0 <= q < |cs| && p != q ==> !Covers(cs[p], cs[q])
  }

  ghost predicate CoverAll(cs: seq<Cube>, original: seq<Cube>) {
    forall c :: c in original ==> exists k :: 0 <= k < |cs| && Covers(cs[k], c)
  }

  lemma RemoveTested(cs: seq<Cube>, t: nat, bound: nat)
    requires t < |cs| && Tested(cs, bound)
    ensures Tested(Remove(cs, t), if t < bound then bound - 1 else bound)
  {
    var r := Remove(cs, t);
    var bound' := if t < bound then bound - 1 else bound;
    forall p, q | 0 <= p < bound' && p < |r| && 0 <= q < |r| && p != q
      ensures !Covers(r[p], r[q])
    {
      var p0 := if p < t then p else p + 1;
      var q0 := if q < t then q else q + 1;
      assert !Covers(cs[p0], cs[q0]);
    }
  }

  lemma RemoveCoverAll(cs: seq<Cube>, original: seq<Cube>, t: nat, cursor: nat)
    requires t < |cs| && cursor < |cs| && t != cursor
    requires Covers(cs[cursor], cs[t]) && CoverAll(cs, original)
    ensures CoverAll(Remove(cs, t), original)
  {
    var r := Remove(cs, t);
    forall c | c in original ensures exists k :: 0 <= k < |r| && Covers(r[k], c) {
      var k :| 0 <= k < |cs| && Covers(cs[k], c);
      if k == t {
        CoversTransitive(cs[cursor], cs[t], c);
        k := cursor;
      }
      assert r[if k < t then k else k - 1] == cs[k];
    }
  }

  // The records before tester are not covered by the one at the cursor.
  ghost predicate TestedBy(rest: seq<Cube>, cursor: int, tester: int)
    requires 0 <= cursor < |rest|
  {
    forall q :: 0 <= q < tester && q < |rest| && q != cursor ==> !Covers(rest[cursor], rest[q])
  }

  // What is left covers all of it, and the records before the cursor have been used.
  ghost predicate Swept(clauses: seq<Cube>, rest: seq<Cube>, cursor: int) {
    (forall c :: c in rest ==> c in clauses) && CoverAll(rest, clauses) && Tested(rest, cursor)
  }

  lemma RemoveSwept(clauses: seq<Cube>, rest: seq<Cube>, cursor: nat, tester: nat)
    requires cursor < |rest| && tester < |rest| && tester != cursor && Covers(rest[cursor], rest[tester])
    requires Swept(clauses, rest, cursor) && TestedBy(rest, cursor, tester)
    ensures var cursor' := if tester < cursor then cursor - 1 else cursor;
            Swept(clauses, Remove(rest, tester), cursor') && TestedBy(Remove(rest, tester), cursor', tester)
  {
    var cursor', less := if tester < cursor then cursor - 1 else cursor, Remove(rest, tester);
    RemoveTested(rest, tester, cursor);
    RemoveCoverAll(rest, clauses, tester, cursor);
    assert less[cursor'] == rest[cursor];
    forall q | 0 <= q < tester && q < |less| && q != cursor' ensures !Covers(less[cursor'], less[q]) {
      assert less[q] == rest[q];
    }
  }

  // Unlinks every record that the one at the cursor covers; the cursor pointer is an
  // index, moved down when a record before it goes.
  method SubsumeBy(clauses: seq<Cube>, rest0: seq<Cube>, cursor0: nat, n: nat) returns (rest: seq<Cube>, cursor: nat)
    requires (forall c :: c in clauses ==> IsCube(c, n)) && cursor0 < |rest0| && Swept(clauses, rest0, cursor0)
    ensures cursor < |rest| <= |rest0| && |rest| - cursor <= |rest0| - cursor0
    ensures Swept(clauses, rest, cursor) && TestedBy(rest, cursor, |rest|)
  {
    rest, cursor := rest0, cursor0;
    var tester := 0;
    while tester < |rest|
      invariant cursor < |rest| <= |rest0| && 0 <= tester <= |rest|
      invariant |rest| - cursor <= |rest0| - cursor0
      invariant Swept(clauses, rest, cursor) && TestedBy(rest, cursor, tester)
      decreases |rest| - tester
    {
      assert rest[tester] in clauses && rest[cursor] in clauses;
      if tester == cursor {
        tester := tester + 1;
      } else {
        var b := Subsumes(rest[cursor], rest[tester], n);
        if b {
          RemoveSwept(clauses, rest, cursor, tester);
          rest, cursor := Remove(rest, tester), if tester < cursor then cursor - 1 else cursor;
        } else {
          tester := tester + 1;
        }
      }
    }
  }

  // The linked list is a sequence.
  method ApplySubsumption(clauses: seq<Cube>, flag: bool, n: nat) returns (rest: seq<Cube>, change: bool)
    requires forall c :: c in clauses ==> IsCube(c, n)
    ensures forall c :: c in rest ==> c in clauses
    ensures CoverAll(rest, clauses)
    ensures Tested(rest, |rest|)
    ensures |rest| <= |clauses|
    ensures change == if clauses == [] then flag else |rest| < |clauses|
  {
    rest, change := clauses, flag;
    if clauses == [] {
      return;
    }
    change := false;
    var cursor: nat := 0;
    forall c | c in clauses ensures exists k :: 0 <= k < |rest| && Covers(rest[k], c) {
      var k :| 0 <= k < |clauses| && clauses[k] == c;
      assert Covers(rest[k], c);
    }
    while cursor < |rest|
      invariant cursor <= |rest| <= |clauses|
      invariant forall c :: c in rest ==> c in clauses
      invariant CoverAll(rest, clauses) && Tested(rest, cursor)
      invariant change == (|rest| < |clauses|)
      decreases |rest| - cursor
    {
      var before := |rest|;
      rest, cursor := SubsumeBy(clauses, rest, cursor, n);
      if |rest| < before {
        change := true;
      }
      cursor := cursor + 1;
    }
  }

  // ----- one round keeps the primes -----

  lemma SubsumptionLeavesPrimes(tt: seq<int>, sign: int, n: nat, cs: seq<Cube>, rest: seq<Cube>)
    requires |tt| == Pow2(n)
    requires forall c :: c in cs ==> Implicant(tt, sign, n, c)
    requires forall c :: Prime(tt, sign, n, c) ==> c in cs
    requires (forall c :: c in rest ==> c in cs) && CoverAll(rest, cs) && Tested(rest, |rest|)
    ensures ExactlyPrimes(tt, sign, n, rest)
  {
    forall p, q | 0 <= p < q < |rest| ensures rest[p] != rest[q] {
      assert !Covers(rest[p], rest[q]);
      assert Covers(rest[p], rest[p]);
    }
    forall d | Prime(tt, sign, n, d) ensures exists k :: 0 <= k < |rest| && rest[k] == d {
      var k :| 0 <= k < |rest| && Covers(rest[k], d);
      assert rest[k] in rest;
      assert Implicant(tt, sign, n, rest[k]);
    }
    forall k | 0 <= k < |rest| ensures Prime(tt, sign, n, rest[k]) {
      assert rest[k] in rest;
      var d := CoveredByPrime(tt, sign, n, rest[k]);
      var l :| 0 <= l < |rest| && rest[l] == d;
      assert l == k;
    }
  }

  lemma FrontImplicants(tt: seq<int>, sign: int, n: nat, ret: seq<Cube>, made: seq<Cube>)
    requires |tt| == Pow2(n) && ExactlyPrimes(tt, sign, n, ret)
    requires forall m :: m in made <==> Resolvable(m, ret, n)
    ensures forall c :: c in made + ret ==> Implicant(tt, sign, n, c)
  {
    forall c | c in made ensures Implicant(tt, sign, n, c) {
      var p, q :| 0 <= p < q < |ret| && IsResolvent(c, ret[p], ret[q], n);
      assert ret[p] in ret && ret[q] in ret;
      ConsensusImplicant(tt, sign, n, ret[p], ret[q]);
    }
  }

  // ----- the counts that stop the loop -----

  function LiteralSum(cs: seq<Cube>): nat {
    if cs == [] then 0 else Literals(cs[0]) + LiteralSum(cs[1..])
  }

  lemma {:induction false} LiteralSumRemove(cs: seq<Cube>, t: nat)
    requires t < |cs|
    ensures LiteralSum(cs) == Literals(cs[t]) + LiteralSum(Remove(cs, t))
  {
    if t > 0 {
      LiteralSumRemove(cs[1..], t - 1);
      assert Remove(cs, t)[1..] == Remove(cs[1..], t - 1);
    } else {
      assert Remove(cs, t) == cs[1..];
    }
  }

  lemma FirstIsMember(t: seq<Cube>)
    requires t != []
    ensures exists c :: c in t
  {
    assert t[0] in t;
  }

  // Lists with the same cubes, each once, have the same counts.
  lemma {:induction false} SameCounts(s: seq<Cube>, t: seq<Cube>)
    requires NoDuplicates(s) && NoDuplicates(t)
    requires forall c :: c in s <==> c in t
    ensures |s| == |t| && LiteralSum(s) == LiteralSum(t)
  {
    if s == [] {
      if t != [] {
        FirstIsMember(t);
      }
    } else {
      assert s[0] in t;
      var k :| 0 <= k < |t| && t[k] == s[0];
      LiteralSumRemove(t, k);
      RemoveDistinct(t, k);
      forall c ensures c in s[1..] <==> c in Remove(t, k) {
        TailMembers(s, c);
        RemovedMembers(t, k, c);
      }
      SameCounts(s[1..], Remove(t, k));
    }
  }

  lemma TailMembers(s: seq<Cube>, c: Cube)
    requires NoDuplicates(s) && s != []
    ensures c in s[1..] <==> c in s && c != s[0]
  {
    if c in s && c != s[0] {
      var l :| 0 <= l < |s| && s[l] == c;
      assert s[1..][l - 1] == c;
    }
  }

  lemma RemovedMembers(t: seq<Cube>, k: nat, c: Cube)
    requires NoDuplicates(t) && k < |t|
    ensures c in Remove(t, k) <==> c in t && c != t[k]
  {
    var r := Remove(t, k);
    if c in r {
      var l :| 0 <= l < |r| && r[l] == c;
      assert t[if l < k then l else l + 1] == c;
    }
    if c in t && c != t[k] {
      var m :| 0 <= m < |t| && t[m] == c;
      assert r[if m < k then m else m - 1] == c;
    }
  }

  lemma RemoveDistinct(t: seq<Cube>, k: nat)
    requires NoDuplicates(t) && k < |t|
    ensures NoDuplicates(Remove(t, k))
  {
  }

  method CountNumberLiterals(clauses: seq<Cube>, n: nat) returns (literals: nat)
    requires forall c :: c in clauses ==> IsCube(c, n)
    ensures literals == LiteralSum(clauses)
  {
    literals := 0;
    for p := 0 to |clauses|
      invariant literals + LiteralSum(clauses[p..]) == LiteralSum(clauses)
    {
      ghost var start := literals;
      var c := clauses[p];
      assert c in clauses;
      for i := 0 to n
        invariant literals == start + Literals(c[..i])
      {
        LiteralsAppend(c[..i], c[i]);
        assert c[..i + 1] == c[..i] + [c[i]];
        if c[i] != 2 {
          literals := literals + 1;
        }
      }
      assert c[..n] == c;
      assert clauses[p..][1..] == clauses[p + 1..];
    }
  }

  // At most two rounds, and the primes come out as they went in.
  method Close(tt: seq<int>, sign: int, n: nat, primes: seq<Cube>) returns (ret: seq<Cube>, rounds: nat)
    requires |tt| == Pow2(n) && ExactlyPrimes(tt, sign, n, primes)
    ensures ExactlyPrimes(tt, sign, n, ret)
    ensures 1 <= rounds <= 2
  {
    ret, rounds := primes, 0;
    var changeRes, changeSub := false, false;
    var occount, olcount := 0, 0;
    while true
      invariant ExactlyPrimes(tt, sign, n, ret)
      invariant rounds == 0 || (rounds == 1 && occount == |ret| && olcount == LiteralSum(ret))
      decreases 2 - rounds
    {
      var front, rest;
      ghost var made;
      front, changeRes, made := ApplyBoundedResolution(ret, n, changeRes, n);
      FrontImplicants(tt, sign, n, ret, made);
      rest, changeSub := ApplySubsumption(front, changeSub, n);
      SubsumptionLeavesPrimes(tt, sign, n, front, rest);
      SameCounts(ret, rest);
      ret := rest;
      var lcount := CountNumberLiterals(ret, n);
      var ccount := |ret|;
      rounds := rounds + 1;
      if ccount == occount && lcount == olcount {
        break;
      }
      occount, olcount := ccount, lcount;
    }
  }
}
