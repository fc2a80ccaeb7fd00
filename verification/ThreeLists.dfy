// three_pos and three_neg of the MAJ= and ITE= searches (src/formats/cnf.cc):
// for every literal the three-literal clauses it occurs in.

module ThreeLists {
  import opened ClauseOrder
  import opened XorSearch

  // Clauses of three literals have three variables.
  predicate Triples(cs: seq<seq<int>>) {
    forall k :: 0 <= k < |cs| && |cs[k]| == 3 ==> Proper(cs[k])
  }

  ghost predicate ThreeInput(cs: seq<seq<int>>) {
    Input(cs) && Triples(cs)
  }

  // The three-literal clauses among the first bound that contain lit.
  function ThreeOf(cs: seq<seq<int>>, lit: int, bound: nat): seq<nat>
    requires bound <= |cs|
  {
    if bound == 0 then []
    else ThreeOf(cs, lit, bound - 1) + if |cs[bound - 1]| == 3 && lit in cs[bound - 1] then [bound - 1] else []
  }

  ghost predicate Contains3(cs: seq<seq<int>>, lit: int, x: int) {
    0 <= x < |cs| && |cs[x]| == 3 && lit in cs[x]
  }

  lemma {:induction false} ThreeOfMeaning(cs: seq<seq<int>>, lit: int, bound: nat)
    requires bound <= |cs|
    ensures forall x :: x in ThreeOf(cs, lit, bound) <==> x < bound && Contains3(cs, lit, x)
    ensures forall i, j :: 0 <= i < j < |ThreeOf(cs, lit, bound)| ==>
              ThreeOf(cs, lit, bound)[i] < ThreeOf(cs, lit, bound)[j]
  {
    if bound > 0 {
      ThreeOfMeaning(cs, lit, bound - 1);
      var rest := ThreeOf(cs, lit, bound - 1);
      forall i | 0 <= i < |rest| ensures rest[i] < bound - 1 {
        assert rest[i] in rest;
      }
    }
  }

  lemma ThreeOfAt(cs: seq<seq<int>>, lit: int, i: nat)
    requires i < |ThreeOf(cs, lit, |cs|)|
    ensures Contains3(cs, lit, ThreeOf(cs, lit, |cs|)[i])
  {
    ThreeOfMeaning(cs, lit, |cs|);
    assert ThreeOf(cs, lit, |cs|)[i] in ThreeOf(cs, lit, |cs|);
  }

  ghost function ListOf(pos: seq<seq<nat>>, neg: seq<seq<nat>>, lit: int): seq<nat>
    requires Abs(lit) < |pos| == |neg|
  {
    if lit > 0 then pos[lit] else neg[-lit]
  }

  ghost predicate Listed(cs: seq<seq<int>>, pos: seq<seq<nat>>, neg: seq<seq<nat>>, vars: nat, x: nat) {
    && |pos| == |neg| == vars + 1 && x <= |cs|
    && pos[0] == []
    && forall lit :: Literal(lit, vars) ==> ListOf(pos, neg, lit) == ThreeOf(cs, lit, x)
  }

  method AddNumber(pos: array<seq<nat>>, neg: array<seq<nat>>, lit: int, x: nat, vars: nat)
    requires pos.Length == neg.Length == vars + 1 && pos != neg && Literal(lit, vars)
    modifies pos, neg
    ensures pos[0] == old(pos[0])
    ensures forall l :: Literal(l, vars) ==>
              ListOf(pos[..], neg[..], l) == old(ListOf(pos[..], neg[..], l)) + if l == lit then [x] else []
  {
    if lit > 0 {
      pos[lit] := pos[lit] + [x];
    } else {
      neg[-lit] := neg[-lit] + [x];
    }
  }

  method AddClause(pos: array<seq<nat>>, neg: array<seq<nat>>, cs: seq<seq<int>>, x: nat, vars: nat)
    requires pos.Length == neg.Length == vars + 1 && pos != neg
    requires x < |cs| && Triples(cs) && InRange(cs, vars)
    requires Listed(cs, pos[..], neg[..], vars, x)
    modifies pos, neg
    ensures Listed(cs, pos[..], neg[..], vars, x + 1)
  {
    if |cs[x]| == 3 {
      ghost var pos0, neg0 := pos[..], neg[..];
      var c := cs[x];
      AddNumber(pos, neg, c[0], x, vars);
      AddNumber(pos, neg, c[1], x, vars);
      AddNumber(pos, neg, c[2], x, vars);
      forall lit | Literal(lit, vars)
        ensures ListOf(pos[..], neg[..], lit) == ThreeOf(cs, lit, x + 1)
      {
        assert ListOf(pos0, neg0, lit) == ThreeOf(cs, lit, x);
        AddsOnce(ThreeOf(cs, lit, x), c, lit, x);
      }
    }
  }

  lemma AddsOnce(es: seq<nat>, c: seq<int>, lit: int, x: nat)
    requires |c| == 3 && Proper(c)
    ensures es + (if lit in c then [x] else []) ==
            es + (if lit == c[0] then [x] else []) + (if lit == c[1] then [x] else []) + (if lit == c[2] then [x] else [])
  {
  }

  method BuildThreeLists(cs: seq<seq<int>>, vars: nat) returns (pos: array<seq<nat>>, neg: array<seq<nat>>)
    requires ThreeInput(cs) && InRange(cs, vars)
    ensures fresh(pos) && fresh(neg)
    ensures Listed(cs, pos[..], neg[..], vars, |cs|)
  {
    pos := new seq<nat>[vars + 1](_ => []);
    neg := new seq<nat>[vars + 1](_ => []);
    for x := 0 to |cs|
      invariant pos != neg && Listed(cs, pos[..], neg[..], vars, x)
    {
      AddClause(pos, neg, cs, x, vars);
    }
  }
}
