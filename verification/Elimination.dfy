// What merging functions and quantifying variables away do to the set of models
// (src/preproc/do_exquantifyand.cc, src/preproc/do_exquantify.cc).

module Elimination {
  import opened Arithmetic
  import opened Bdd

  ghost predicate Joint(fs: seq<Bdd>, a: Assignment) {
    forall x :: 0 <= x < |fs| ==> Eval(fs[x], a)
  }

  ghost predicate SameOutside(a: Assignment, b: Assignment, q: iset<nat>) {
    forall v: nat :: v !in q ==> (v in a <==> v in b)
  }

  // Some values of the variables in q make a a joint model.
  ghost predicate JointFor(fs: seq<Bdd>, a: Assignment, q: iset<nat>) {
    exists b: Assignment :: SameOutside(a, b, q) && Joint(fs, b)
  }

  // fs is the original conjunction with the variables of q quantified away.
  ghost predicate Eliminated(original: seq<Bdd>, fs: seq<Bdd>, q: iset<nat>) {
    forall a: Assignment :: Joint(fs, a) <==> JointFor(original, a, q)
  }

  lemma NothingEliminated(fs: seq<Bdd>)
    ensures Eliminated(fs, fs, iset{})
  {
    forall a: Assignment ensures Joint(fs, a) <==> JointFor(fs, a, iset{}) {
      assert SameOutside(a, a, iset{});
      forall b: Assignment | SameOutside(a, b, iset{}) ensures a == b {
      }
    }
  }

  // A false function: the original has no model.
  lemma FalseIsUnsat(original: seq<Bdd>, fs: seq<Bdd>, q: iset<nat>, a: Assignment)
    requires Eliminated(original, fs, q) && False in fs
    ensures !Joint(original, a)
  {
    var x :| 0 <= x < |fs| && fs[x] == False;
    assert !Joint(fs, a);
    assert SameOutside(a, a, q);
  }

  // A model of what is left extends to the original.
  lemma ModelExtends(original: seq<Bdd>, fs: seq<Bdd>, q: iset<nat>, a: Assignment) returns (b: Assignment)
    requires Eliminated(original, fs, q) && Joint(fs, a)
    ensures Joint(original, b) && SameOutside(a, b, q)
  {
    assert JointFor(original, a, q);
    b :| SameOutside(a, b, q) && Joint(original, b);
  }

  // ----- one merge -----

  function MergedInto(fs: seq<Bdd>, j: nat, z: nat): seq<Bdd>
    requires j < |fs| && z < |fs|
  {
    fs[j := And(fs[j], fs[z])][z := True]
  }

  lemma MergeJoint(fs: seq<Bdd>, j: nat, z: nat, a: Assignment)
    requires j < |fs| && z < |fs| && j != z
    ensures Joint(MergedInto(fs, j, z), a) <==> Joint(fs, a)
  {
    var gs := MergedInto(fs, j, z);
    OperatorsEval(fs[j], fs[z], a);
    assert gs[z] == True && gs[j] == And(fs[j], fs[z]);
    assert forall x :: 0 <= x < |fs| && x != j && x != z ==> gs[x] == fs[x];
  }

  lemma MergeEliminates(original: seq<Bdd>, fs: seq<Bdd>, q: iset<nat>, j: nat, z: nat)
    requires Eliminated(original, fs, q) && j < |fs| && z < |fs| && j != z
    ensures Eliminated(original, MergedInto(fs, j, z), q)
  {
    forall a: Assignment ensures Joint(MergedInto(fs, j, z), a) <==> JointFor(original, a, q) {
      MergeJoint(fs, j, z, a);
    }
  }

  // ----- one quantification -----

  ghost predicate OnlyIn(fs: seq<Bdd>, j: nat, v: nat) {
    forall x :: 0 <= x < |fs| && x != j ==> v !in Support(fs[x])
  }

  lemma OtherValues(fs: seq<Bdd>, j: nat, v: nat, a: Assignment, b: Assignment)
    requires j < |fs| && OnlyIn(fs, j, v) && forall w :: w != v ==> (w in a <==> w in b)
    ensures forall x :: 0 <= x < |fs| && x != j ==> (Eval(fs[x], a) <==> Eval(fs[x], b))
  {
    forall x | 0 <= x < |fs| && x != j ensures Eval(fs[x], a) <==> Eval(fs[x], b) {
      EvalSupport(fs[x], a, b);
    }
  }

  lemma QuantifyJoint(fs: seq<Bdd>, j: nat, v: nat, a: Assignment)
    requires j < |fs| && OnlyIn(fs, j, v) && Robdd(fs[j])
    ensures Joint(fs[j := Exists(fs[j], v)], a) <==> Joint(fs, a + iset{v}) || Joint(fs, a - iset{v})
  {
    var gs := fs[j := Exists(fs[j], v)];
    ExistsEval(fs[j], v, a);
    OtherValues(fs, j, v, a, a + iset{v});
    OtherValues(fs, j, v, a, a - iset{v});
    assert forall x :: 0 <= x < |fs| && x != j ==> gs[x] == fs[x];
    assert gs[j] == Exists(fs[j], v);
    JointBut(fs, j, a + iset{v});
    JointBut(fs, j, a - iset{v});
    JointBut(gs, j, a);
  }

  // A joint model, split at function j.
  lemma JointBut(fs: seq<Bdd>, j: nat, a: Assignment)
    requires j < |fs|
    ensures Joint(fs, a) <==> Eval(fs[j], a) && forall x :: 0 <= x < |fs| && x != j ==> Eval(fs[x], a)
  {
  }

  lemma QuantifyEliminates(original: seq<Bdd>, fs: seq<Bdd>, q: iset<nat>, j: nat, v: nat)
    requires Eliminated(original, fs, q) && j < |fs| && OnlyIn(fs, j, v) && Robdd(fs[j])
    ensures Eliminated(original, fs[j := Exists(fs[j], v)], q + iset{v})
  {
    forall a: Assignment
      ensures Joint(fs[j := Exists(fs[j], v)], a) <==> JointFor(original, a, q + iset{v})
    {
      QuantifyJoint(fs, j, v, a);
      OneMore(original, a, q, v);
    }
  }

  // Choosing v as well is choosing it first.
  lemma OneMore(original: seq<Bdd>, a: Assignment, q: iset<nat>, v: nat)
    ensures JointFor(original, a, q + iset{v}) <==> JointFor(original, a + iset{v}, q) || JointFor(original, a - iset{v}, q)
  {
    if JointFor(original, a, q + iset{v}) {
      var b: Assignment :| SameOutside(a, b, q + iset{v}) && Joint(original, b);
      if v in b {
        assert SameOutside(a + iset{v}, b, q);
      } else {
        assert SameOutside(a - iset{v}, b, q);
      }
    }
    if JointFor(original, a + iset{v}, q) {
      var b: Assignment :| SameOutside(a + iset{v}, b, q) && Joint(original, b);
      assert SameOutside(a, b, q + iset{v});
    }
    if JointFor(original, a - iset{v}, q) {
      var b: Assignment :| SameOutside(a - iset{v}, b, q) && Joint(original, b);
      assert SameOutside(a, b, q + iset{v});
    }
  }

  // ----- every step makes the problem smaller -----

  function Live(fs: seq<Bdd>): set<nat> {
    set x, v | 0 <= x < |fs| && v in Support(fs[x]) :: v
  }

  function NonTrue(fs: seq<Bdd>): set<nat> {
    set x: nat | x < |fs| && fs[x] != True
  }

  // Variables that still occur, and functions still there.
  function Measure(fs: seq<Bdd>): nat {
    |Live(fs)| + |NonTrue(fs)|
  }

  lemma MergeShrinks(fs: seq<Bdd>, j: nat, z: nat)
    requires j < |fs| && z < |fs| && j != z && Robdd(fs[j]) && Robdd(fs[z])
    requires fs[z] != True
    ensures Measure(MergedInto(fs, j, z)) <= Measure(fs)
    ensures fs[j] != True ==> Measure(MergedInto(fs, j, z)) < Measure(fs)
  {
    var gs := MergedInto(fs, j, z);
    AndRobdd(fs[j], fs[z]);
    forall v | v in Live(gs) ensures v in Live(fs) {
      var x :| 0 <= x < |gs| && v in Support(gs[x]);
      if x == j {
        assert v in Support(fs[j]) || v in Support(fs[z]);
      } else {
        assert gs[x] == if x == z then True else fs[x];
      }
    }
    SubsetSize(Live(gs), Live(fs));
    var now := if fs[j] != True then NonTrue(fs) - {z} else NonTrue(fs) - {z} + {j};
    assert z in NonTrue(fs) && NonTrue(gs) <= now;
    SubsetSize(NonTrue(gs), now);
  }

  lemma QuantifyShrinks(fs: seq<Bdd>, j: nat, v: nat)
    requires j < |fs| && OnlyIn(fs, j, v) && Robdd(fs[j]) && v in Support(fs[j])
    ensures Measure(fs[j := Exists(fs[j], v)]) < Measure(fs)
  {
    var gs := fs[j := Exists(fs[j], v)];
    ExistsRobdd(fs[j], v);
    forall w | w in Live(gs) ensures w in Live(fs) && w != v {
      var x :| 0 <= x < |gs| && w in Support(gs[x]);
      assert x != j ==> gs[x] == fs[x];
    }
    assert v in Live(fs) && Live(gs) <= Live(fs) - {v};
    SubsetSize(Live(gs), Live(fs) - {v});
    assert fs[j] != True;
    SubsetSize(NonTrue(gs), NonTrue(fs));
  }
}
