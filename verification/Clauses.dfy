// Clauses of signed variable numbers and the variable list of a diagram.

module Clauses {
  import opened Bdd

  ghost predicate ClauseTrue(c: seq<int>, a: Assignment) {
    exists k :: 0 <= k < |c| && LitTrue(c[k], a)
  }

  ghost predicate AllTrue(cs: seq<seq<int>>, a: Assignment) {
    forall k :: 0 <= k < |cs| ==> ClauseTrue(cs[k], a)
  }

  lemma AllTrueAppend(cs: seq<seq<int>>, ds: seq<seq<int>>, a: Assignment)
    ensures AllTrue(cs + ds, a) <==> AllTrue(cs, a) && AllTrue(ds, a)
  {
    if AllTrue(cs + ds, a) {
      forall k | 0 <= k < |cs| ensures ClauseTrue(cs[k], a) {
        assert (cs + ds)[k] == cs[k];
      }
      forall k | 0 <= k < |ds| ensures ClauseTrue(ds[k], a) {
        assert (cs + ds)[|cs| + k] == ds[k];
      }
    }
  }

  // ----- unravelBDD followed by qsort: the sorted support -----

  predicate Ascending(s: seq<nat>) {
    forall i, j :: 0 <= i < j < |s| ==> s[i] < s[j]
  }

  function VarsUpTo(f: Bdd, bound: nat): (vs: seq<nat>)
    ensures Ascending(vs)
    ensures forall v :: v in vs <==> v in Support(f) && 1 <= v <= bound
  {
    if bound == 0 then []
    else
      var rest := VarsUpTo(f, bound - 1);
      assert forall i :: 0 <= i < |rest| ==> rest[i] in rest;
      rest + if bound in Support(f) then [bound] else []
  }

  function Vars(f: Bdd): seq<nat> {
    VarsUpTo(f, if f.Node? then f.v else 0)
  }

  lemma VarsSupport(f: Bdd)
    requires Robdd(f)
    ensures Ascending(Vars(f))
    ensures forall v :: v in Vars(f) <==> v in Support(f)
  {
    SupportBelowTop(f);
  }

  // Sorting leaves no choice: only one ascending list has these members.
  lemma {:induction false} AscendingUnique(s: seq<nat>, t: seq<nat>)
    requires Ascending(s) && Ascending(t)
    requires forall v :: v in s <==> v in t
    ensures s == t
  {
    if s == [] || t == [] {
      EmptyWhenNoMember(s);
      EmptyWhenNoMember(t);
    } else {
      assert s[0] in t && t[0] in s;
      assert s[0] == t[0];
      forall v ensures v in s[1..] <==> v in t[1..] {
        assert v in s[1..] <==> v in s && v != s[0];
        assert v in t[1..] <==> v in t && v != t[0];
      }
      AscendingUnique(s[1..], t[1..]);
    }
  }

  lemma EmptyWhenNoMember(s: seq<nat>)
    ensures s != [] ==> exists v :: v in s
  {
    if s != [] {
      assert s[0] in s;
    }
  }
}
