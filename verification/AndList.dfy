// The list of ANDs after renumbering (src/formats/aiger.c): coded ANDs are kept in
// place, the others dropped, and the rest is sorted by left-hand side.

module AndList {
  import opened AigModel

  // A coded AND under its new numbers, the larger right-hand side first.
  function Recode(code: seq<nat>, and: And): And
    requires and.lhs < |code| && and.rhs0 < |code| && and.rhs1 < |code|
  {
    var r0, r1 := code[and.rhs0], code[and.rhs1];
    And(code[and.lhs], if r0 < r1 then r1 else r0, if r0 < r1 then r0 else r1)
  }

  ghost predicate InCode(code: seq<nat>, ands: seq<And>) {
    forall i :: 0 <= i < |ands| ==> ands[i].lhs < |code| && ands[i].rhs0 < |code| && ands[i].rhs1 < |code|
  }

  // The coded ANDs in their old order.
  function KeepCoded(code: seq<nat>, ands: seq<And>): seq<And>
    requires InCode(code, ands)
  {
    if ands == [] then [] else
      KeepCoded(code, ands[..|ands| - 1])
      + if code[ands[|ands| - 1].lhs] != 0 then [Recode(code, ands[|ands| - 1])] else []
  }

  lemma {:induction false} KeepCodedFrom(code: seq<nat>, ands: seq<And>, x: And) returns (k: nat)
    requires InCode(code, ands) && x in KeepCoded(code, ands)
    ensures k < |ands| && code[ands[k].lhs] != 0 && x == Recode(code, ands[k])
  {
    k := |ands| - 1;
    if code[ands[k].lhs] == 0 || x != Recode(code, ands[k]) {
      k := KeepCodedFrom(code, ands[..|ands| - 1], x);
    }
  }

  lemma {:induction false} KeepCodedHas(code: seq<nat>, ands: seq<And>, k: nat)
    requires InCode(code, ands) && k < |ands| && code[ands[k].lhs] != 0
    ensures Recode(code, ands[k]) in KeepCoded(code, ands)
  {
    if k < |ands| - 1 {
      KeepCodedHas(code, ands[..|ands| - 1], k);
      assert ands[..|ands| - 1][k] == ands[k];
    }
  }

  ghost predicate DistinctLhs(ands: seq<And>) {
    forall i, j :: 0 <= i < j < |ands| ==> ands[i].lhs != ands[j].lhs
  }

  // Different ANDs get different codes.
  ghost predicate CodesDiffer(code: seq<nat>, ands: seq<And>)
    requires InCode(code, ands)
  {
    forall i, j :: 0 <= i < j < |ands| && code[ands[i].lhs] != 0 ==> code[ands[i].lhs] != code[ands[j].lhs]
  }

  lemma {:induction false} KeepCodedDistinct(code: seq<nat>, ands: seq<And>)
    requires InCode(code, ands) && CodesDiffer(code, ands)
    ensures DistinctLhs(KeepCoded(code, ands))
  {
    if ands != [] {
      var front, last := ands[..|ands| - 1], ands[|ands| - 1];
      KeepCodedDistinct(code, front);
      forall i | 0 <= i < |KeepCoded(code, front)| ensures KeepCoded(code, front)[i].lhs != code[last.lhs] {
        var k := KeepCodedFrom(code, front, KeepCoded(code, front)[i]);
        assert ands[k] == front[k];
      }
    }
  }

  lemma KeepCodedStep(code: seq<nat>, ands: seq<And>, i: nat)
    requires InCode(code, ands) && i < |ands|
    ensures KeepCoded(code, ands[..i + 1])
            == KeepCoded(code, ands[..i]) + if code[ands[i].lhs] != 0 then [Recode(code, ands[i])] else []
  {
    var more := ands[..i + 1];
    assert more[..|more| - 1] == ands[..i] && more[|more| - 1] == ands[i];
  }

  // The compaction loop: reads at i, writes at j <= i.
  method Compact(a: Aiger, code: array<nat>)
    requires InCode(code[..], a.ands)
    modifies a`ands
    ensures a.ands == KeepCoded(code[..], old(a.ands))
  {
    ghost var ands := a.ands;
    var i, j := 0, 0;
    while i < |a.ands|
      invariant 0 <= j <= i <= |a.ands| == |ands|
      invariant forall k :: i <= k < |ands| ==> a.ands[k] == ands[k]
      invariant a.ands[..j] == KeepCoded(code[..], ands[..i])
    {
      var and := a.ands[i];
      KeepCodedStep(code[..], ands, i);
      var lhs := code[and.lhs];
      if lhs != 0 {
        var rhs0, rhs1 := code[and.rhs0], code[and.rhs1];
        if rhs0 < rhs1 {
          rhs0, rhs1 := rhs1, rhs0;
        }
        ghost var kept := a.ands[..j];
        a.ands := a.ands[j := And(lhs, rhs0, rhs1)];
        j := j + 1;
        assert a.ands[..j] == kept + [Recode(code[..], and)];
      }
      i := i + 1;
    }
    assert ands[..i] == ands;
    a.ands := a.ands[..j];
  }

  // ----- sorting by left-hand side -----

  ghost predicate Increasing(ands: seq<And>) {
    forall i, j :: 0 <= i < j < |ands| ==> ands[i].lhs < ands[j].lhs
  }

  function InsertLhs(x: And, s: seq<And>): seq<And> {
    if s == [] || x.lhs <= s[0].lhs then [x] + s else [s[0]] + InsertLhs(x, s[1..])
  }

  // The qsort call; different left-hand sides leave one possible result.
  function SortLhs(ands: seq<And>): seq<And> {
    if ands == [] then [] else InsertLhs(ands[0], SortLhs(ands[1..]))
  }

  lemma {:induction false} InsertLhsSorts(x: And, s: seq<And>)
    requires Increasing(s) && forall i :: 0 <= i < |s| ==> s[i].lhs != x.lhs
    ensures Increasing(InsertLhs(x, s))
    ensures forall y :: y in InsertLhs(x, s) <==> y == x || y in s
  {
    if s != [] && x.lhs > s[0].lhs {
      InsertLhsSorts(x, s[1..]);
      var t := InsertLhs(x, s[1..]);
      forall j | 0 <= j < |t| ensures s[0].lhs < t[j].lhs {
        assert t[j] in t;
      }
    }
  }

  lemma {:induction false} SortLhsSorts(ands: seq<And>)
    requires DistinctLhs(ands)
    ensures Increasing(SortLhs(ands))
    ensures forall y :: y in SortLhs(ands) <==> y in ands
  {
    if ands != [] {
      SortLhsSorts(ands[1..]);
      var s := SortLhs(ands[1..]);
      forall i | 0 <= i < |s| ensures s[i].lhs != ands[0].lhs {
        assert s[i] in ands[1..];
      }
      InsertLhsSorts(ands[0], s);
    }
  }

  function Step(base: nat, k: nat): nat { base + 2 * k }

  // One of the m even steps base, base + 2, ...
  ghost predicate Within(x: nat, base: nat, m: nat) {
    exists k: nat :: k < m && x == Step(base, k)
  }

  ghost predicate Occurs(s: seq<And>, x: nat) {
    exists i :: 0 <= i < |s| && s[i].lhs == x
  }

  // Increasing left-hand sides that are exactly base + 2k, k < m, have no gaps.
  lemma Consecutive(s: seq<And>, base: nat, m: nat)
    requires Increasing(s) && forall i :: 0 <= i < |s| ==> Within(s[i].lhs, base, m)
    requires forall k: nat :: k < m ==> Occurs(s, Step(base, k))
    ensures |s| == m && forall i: nat :: i < m ==> s[i].lhs == Step(base, i)
  {
    ConsecutiveUpTo(s, base, m, |s|);
    if |s| > 0 {
      assert Within(s[|s| - 1].lhs, base, m);
    }
    assert |s| < m ==> Occurs(s, Step(base, |s|));
  }

  lemma {:induction false} ConsecutiveUpTo(s: seq<And>, base: nat, m: nat, n: nat)
    requires Increasing(s) && n <= |s| && forall i :: 0 <= i < |s| ==> Within(s[i].lhs, base, m)
    requires forall k: nat :: k < m ==> Occurs(s, Step(base, k))
    ensures forall i: nat :: i < n ==> s[i].lhs == Step(base, i)
  {
    if n > 0 {
      var l: nat := n - 1;
      ConsecutiveUpTo(s, base, m, l);
      NextStep(s, base, m, l);
    }
  }

  lemma NextStep(s: seq<And>, base: nat, m: nat, l: nat)
    requires Increasing(s) && l < |s| && Within(s[l].lhs, base, m)
    requires forall k: nat :: k < m ==> Occurs(s, Step(base, k))
    requires forall i: nat :: i < l ==> s[i].lhs == Step(base, i)
    ensures s[l].lhs == Step(base, l)
  {
    var k: nat :| k < m && s[l].lhs == Step(base, k);
    if l > 0 {
      assert s[l - 1].lhs < s[l].lhs;
    }
    if l < m {
      var i: nat := StepAt(s, base, l);
      assert i >= l;
    }
  }

  lemma StepAt(s: seq<And>, base: nat, l: nat) returns (i: nat)
    requires Occurs(s, Step(base, l))
    ensures i < |s| && s[i].lhs == Step(base, l)
  {
    var j :| 0 <= j < |s| && s[j].lhs == Step(base, l);
    i := j;
  }
}
