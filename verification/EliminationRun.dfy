// The steps of the two elimination loops (src/preproc/do_exquantifyand.cc,
// src/preproc/do_exquantify.cc) on values: which step may be taken, what it does to
// functions, kinds and marks, and what a run of such steps keeps.

module EliminationRun {
  import opened Bdd
  import opened Clauses
  import opened Elimination
  import opened OccurrenceIndex

  // What the loops change.  quantified are the variables gone so far.
  datatype Stage = Stage(fs: seq<Bdd>, trueFalse: seq<int>, kinds: seq<FunctionType>, equals: seq<int>, quantified: iset<nat>)

  // What they do not change.
  datatype Rules = Rules(classify: Bdd -> (FunctionType, int), equalvars: seq<int>, limits: FunctionType -> int, maxLen: int)

  // For open variable i function z is merged into j; variable h of the merged function j
  // goes; the open variable i goes; and it goes from a function that gives it up.
  datatype Action = MergeFor(i: nat, j: nat, z: nat) | QuantifyOther(j: nat, h: nat) | QuantifyOpen(j: nat, h: nat) | LetGo(j: nat, h: nat)

  predicate OpenIn(trueFalse: seq<int>, equalvars: seq<int>, i: nat)
    requires i < |trueFalse| == |equalvars|
  {
    trueFalse[i] == -1 && equalvars[i] == 0
  }

  function Abs(x: int): nat { if x < 0 then -x else x }

  // The guard of do_exquantify.cc: functions of that kind are short enough, i is what
  // the function defines, or it is a plain OR or XOR.
  predicate GivesUp(limits: FunctionType -> int, length: nat, kind: FunctionType, equality: int, i: nat) {
    length < limits(kind) || i == Abs(equality) || kind == PlainOr || kind == PlainXor
  }

  ghost predicate Sized(rules: Rules, s: Stage) {
    |s.trueFalse| == |rules.equalvars| && |s.fs| == |s.kinds| == |s.equals|
  }

  // Variable h is in function j only.
  ghost predicate Alone(s: Stage, j: nat, h: nat) {
    j < |s.fs| && h < |s.trueFalse| && OnlyIn(s.fs, j, h) && h in Support(s.fs[j])
  }

  ghost predicate Allowed(rules: Rules, s: Stage, a: Action)
    requires Sized(rules, s)
  {
    match a
    case MergeFor(i, j, z) =>
      && j < |s.fs| && z < |s.fs| && j != z && i < |s.trueFalse| && OpenIn(s.trueFalse, rules.equalvars, i)
      && i in Support(s.fs[z]) && |Vars(s.fs[z])| <= rules.maxLen && |Vars(s.fs[j])| <= rules.maxLen
    case QuantifyOther(j, h) => Alone(s, j, h)
    case QuantifyOpen(j, h) => Alone(s, j, h) && OpenIn(s.trueFalse, rules.equalvars, h)
    case LetGo(j, h) =>
      && Alone(s, j, h) && OpenIn(s.trueFalse, rules.equalvars, h)
      && GivesUp(rules.limits, |Vars(s.fs[j])|, s.kinds[j], s.equals[j], h)
  }

  // ----- what the steps do -----

  // Function x is listed anew, which gives it its kind.
  ghost function Relisted(rules: Rules, s: Stage, x: nat): (t: Stage)
    requires Sized(rules, s) && x < |s.fs|
    ensures Sized(rules, t) && t.fs == s.fs && t.trueFalse == s.trueFalse && t.quantified == s.quantified
  {
    s.(kinds := KindsAfter(rules.classify, s.kinds, s.fs, x), equals := EqualsAfter(rules.classify, s.kinds, s.equals, s.fs, x))
  }

  ghost function AfterMerge(rules: Rules, s: Stage, j: nat, z: nat): (t: Stage)
    requires Sized(rules, s) && j < |s.fs| && z < |s.fs|
    ensures Sized(rules, t) && t.fs == MergedInto(s.fs, j, z) && t.trueFalse == s.trueFalse && t.quantified == s.quantified
  {
    Relisted(rules, Relisted(rules, s.(fs := MergedInto(s.fs, j, z)), z), j)
  }

  ghost function AfterQuantify(rules: Rules, s: Stage, j: nat, h: nat): (t: Stage)
    requires Sized(rules, s) && j < |s.fs| && h < |s.trueFalse|
    ensures Sized(rules, t) && t.fs == s.fs[j := Exists(s.fs[j], h)]
    ensures t.trueFalse == s.trueFalse[h := 2] && t.quantified == s.quantified + iset{h}
  {
    var fs := s.fs[j := Exists(s.fs[j], h)];
    Relisted(rules, s.(fs := fs, trueFalse := s.trueFalse[h := 2], quantified := s.quantified + iset{h}), j)
  }

  ghost function Retyped(s: Stage, j: nat, kind: FunctionType, equality: int): (t: Stage)
    requires j < |s.kinds| && j < |s.equals|
  {
    s.(kinds := s.kinds[j := kind], equals := s.equals[j := equality])
  }

  ghost function After(rules: Rules, s: Stage, a: Action): (t: Stage)
    requires Sized(rules, s) && Allowed(rules, s, a)
    ensures Sized(rules, t) && |t.trueFalse| == |s.trueFalse| && |t.fs| == |s.fs|
  {
    match a
    case MergeFor(i, j, z) => AfterMerge(rules, s, j, z)
    case QuantifyOther(j, h) =>
      var t := AfterQuantify(rules, s, j, h);
      if t.fs[j] == False then t else Retyped(t, j, Unsure, 0)
    case QuantifyOpen(j, h) => AfterQuantify(rules, s, j, h)
    case LetGo(j, h) => AfterQuantify(rules, Retyped(s, j, s.kinds[j], 0), j, h)
  }

  // ----- runs -----

  ghost predicate Performs(rules: Rules, s: Stage, actions: seq<Action>, t: Stage)
    requires Sized(rules, s)
    decreases |actions|
  {
    if actions == [] then s == t
    else Allowed(rules, s, actions[0]) && Performs(rules, After(rules, s, actions[0]), actions[1..], t)
  }

  predicate NoLetGo(actions: seq<Action>) {
    forall k :: 0 <= k < |actions| ==> !actions[k].LetGo?
  }

  predicate OnlyLetGo(actions: seq<Action>) {
    forall k :: 0 <= k < |actions| ==> actions[k].LetGo?
  }

  // Steps of the merging loop lead from s to t.
  ghost predicate MergeRun(rules: Rules, s: Stage, t: Stage) {
    exists actions :: MergesBy(rules, s, actions, t)
  }

  ghost predicate MergesBy(rules: Rules, s: Stage, actions: seq<Action>, t: Stage) {
    Sized(rules, s) && NoLetGo(actions) && Performs(rules, s, actions, t)
  }

  // Steps of the other loop do.
  ghost predicate LetGoRun(rules: Rules, s: Stage, t: Stage) {
    exists actions :: LetsGoBy(rules, s, actions, t)
  }

  ghost predicate LetsGoBy(rules: Rules, s: Stage, actions: seq<Action>, t: Stage) {
    Sized(rules, s) && OnlyLetGo(actions) && Performs(rules, s, actions, t)
  }

  lemma {:induction false} PerformsSized(rules: Rules, s: Stage, actions: seq<Action>, t: Stage)
    requires Sized(rules, s) && Performs(rules, s, actions, t)
    ensures Sized(rules, t) && |t.trueFalse| == |s.trueFalse| && |t.fs| == |s.fs|
    decreases |actions|
  {
    if actions != [] {
      PerformsSized(rules, After(rules, s, actions[0]), actions[1..], t);
    }
  }

  lemma PerformsFirst(rules: Rules, s: Stage, a: Action, rest: seq<Action>, t: Stage)
    requires Sized(rules, s) && Allowed(rules, s, a) && Performs(rules, After(rules, s, a), rest, t)
    ensures Performs(rules, s, [a] + rest, t)
  {
    assert ([a] + rest)[1..] == rest;
  }

  lemma PerformsRest(rules: Rules, s: Stage, actions: seq<Action>, t: Stage)
    requires Sized(rules, s) && actions != [] && Performs(rules, s, actions, t)
    ensures Allowed(rules, s, actions[0]) && Performs(rules, After(rules, s, actions[0]), actions[1..], t)
  {
  }

  lemma FirstApart<T>(s: seq<T>, t: seq<T>)
    ensures s == [] ==> s + t == t
    ensures s != [] ==> [s[0]] + (s[1..] + t) == s + t
  {
  }

  lemma {:induction false} PerformsMore(rules: Rules, s: Stage, first: seq<Action>, t: Stage, more: seq<Action>, u: Stage)
    requires Sized(rules, s) && Performs(rules, s, first, t) && Sized(rules, t) && Performs(rules, t, more, u)
    ensures Performs(rules, s, first + more, u)
    decreases |first|
  {
    FirstApart(first, more);
    if first != [] {
      PerformsRest(rules, s, first, t);
      PerformsMore(rules, After(rules, s, first[0]), first[1..], t, more, u);
      PerformsFirst(rules, s, first[0], first[1..] + more, u);
    }
  }

  lemma PerformsOne(rules: Rules, s: Stage, a: Action)
    requires Sized(rules, s) && Allowed(rules, s, a)
    ensures Performs(rules, s, [a], After(rules, s, a))
  {
    assert [a][1..] == [];
  }

  lemma MergeRunNone(rules: Rules, s: Stage)
    requires Sized(rules, s)
    ensures MergeRun(rules, s, s)
  {
    assert MergesBy(rules, s, [], s);
  }

  lemma MergeRunOne(rules: Rules, s: Stage, a: Action)
    requires Sized(rules, s) && Allowed(rules, s, a) && !a.LetGo?
    ensures MergeRun(rules, s, After(rules, s, a))
  {
    PerformsOne(rules, s, a);
    assert MergesBy(rules, s, [a], After(rules, s, a));
  }

  lemma MergeRunMore(rules: Rules, s: Stage, t: Stage, u: Stage)
    requires MergeRun(rules, s, t) && MergeRun(rules, t, u)
    ensures MergeRun(rules, s, u)
  {
    var first :| MergesBy(rules, s, first, t);
    var more :| MergesBy(rules, t, more, u);
    PerformsMore(rules, s, first, t, more, u);
    assert MergesBy(rules, s, first + more, u);
  }

  lemma LetGoRunNone(rules: Rules, s: Stage)
    requires Sized(rules, s)
    ensures LetGoRun(rules, s, s)
  {
    assert LetsGoBy(rules, s, [], s);
  }

  lemma LetGoRunOne(rules: Rules, s: Stage, a: Action)
    requires Sized(rules, s) && Allowed(rules, s, a) && a.LetGo?
    ensures LetGoRun(rules, s, After(rules, s, a))
  {
    PerformsOne(rules, s, a);
    assert LetsGoBy(rules, s, [a], After(rules, s, a));
  }

  lemma LetGoRunMore(rules: Rules, s: Stage, t: Stage, u: Stage)
    requires LetGoRun(rules, s, t) && LetGoRun(rules, t, u)
    ensures LetGoRun(rules, s, u)
  {
    var first :| LetsGoBy(rules, s, first, t);
    var more :| LetsGoBy(rules, t, more, u);
    PerformsMore(rules, s, first, t, more, u);
    assert LetsGoBy(rules, s, first + more, u);
  }

  // ----- what a run keeps -----

  ghost predicate AllRobdd(s: Stage) {
    forall x :: 0 <= x < |s.fs| ==> Robdd(s.fs[x])
  }

  // A step adds no variable to any function.
  lemma LiveShrinks(rules: Rules, s: Stage, a: Action)
    requires Sized(rules, s) && Allowed(rules, s, a) && AllRobdd(s)
    ensures AllRobdd(After(rules, s, a)) && Live(After(rules, s, a).fs) <= Live(s.fs)
    ensures !a.MergeFor? ==> a.h !in Live(After(rules, s, a).fs)
  {
    match a
    case MergeFor(i, j, z) => MergeLive(s.fs, j, z);
    case QuantifyOther(j, h) => QuantifyLive(s.fs, j, h);
    case QuantifyOpen(j, h) => QuantifyLive(s.fs, j, h);
    case LetGo(j, h) => QuantifyLive(s.fs, j, h);
  }

  lemma MergeLive(fs: seq<Bdd>, j: nat, z: nat)
    requires j < |fs| && z < |fs| && j != z && forall x :: 0 <= x < |fs| ==> Robdd(fs[x])
    ensures Live(MergedInto(fs, j, z)) <= Live(fs) && forall x :: 0 <= x < |fs| ==> Robdd(MergedInto(fs, j, z)[x])
  {
    var gs := MergedInto(fs, j, z);
    AndRobdd(fs[j], fs[z]);
    forall v | v in Live(gs) ensures v in Live(fs) {
      var x :| 0 <= x < |gs| && v in Support(gs[x]);
      if x == j {
        assert v in Support(fs[j]) || v in Support(fs[z]);
      } else {
        assert gs[x] == if x == z then True else fs[x];
      }
    }
  }

  lemma QuantifyLive(fs: seq<Bdd>, j: nat, h: nat)
    requires j < |fs| && OnlyIn(fs, j, h) && forall x :: 0 <= x < |fs| ==> Robdd(fs[x])
    ensures var gs := fs[j := Exists(fs[j], h)];
            Live(gs) <= Live(fs) - {h} && forall x :: 0 <= x < |fs| ==> Robdd(gs[x])
  {
    var gs := fs[j := Exists(fs[j], h)];
    ExistsRobdd(fs[j], h);
    forall v | v in Live(gs) ensures v in Live(fs) && v != h {
      var x :| 0 <= x < |gs| && v in Support(gs[x]);
      assert x != j ==> gs[x] == fs[x];
    }
  }

  // Variables gone are marked and in no function.
  ghost predicate GoneRight(s: Stage) {
    forall v: nat {:trigger v in s.quantified} :: v in s.quantified ==> v < |s.trueFalse| && s.trueFalse[v] == 2 && v !in Live(s.fs)
  }

  lemma QuantifyRight(rules: Rules, s: Stage, j: nat, h: nat)
    requires Sized(rules, s) && AllRobdd(s) && GoneRight(s) && Alone(s, j, h)
    ensures GoneRight(AfterQuantify(rules, s, j, h))
  {
    QuantifyLive(s.fs, j, h);
  }

  lemma MergeRight(rules: Rules, s: Stage, j: nat, z: nat)
    requires Sized(rules, s) && AllRobdd(s) && GoneRight(s) && j < |s.fs| && z < |s.fs| && j != z
    ensures GoneRight(AfterMerge(rules, s, j, z))
  {
    MergeLive(s.fs, j, z);
  }

  // Marks change for variables that go, and for no others; each goes once.
  ghost predicate MarkedAt(s: Stage, t: Stage, v: nat)
    requires v < |s.trueFalse| == |t.trueFalse|
  {
    if v in t.quantified && v !in s.quantified then t.trueFalse[v] == 2 && v in Live(s.fs)
    else t.trueFalse[v] == s.trueFalse[v] && (v in t.quantified <==> v in s.quantified)
  }

  ghost predicate Marks(s: Stage, t: Stage) {
    && |s.trueFalse| == |t.trueFalse| && s.quantified <= t.quantified
    && (forall v: nat :: v < |s.trueFalse| ==> MarkedAt(s, t, v))
    && Live(t.fs) <= Live(s.fs)
  }

  lemma StepMarks(rules: Rules, s: Stage, a: Action)
    requires Sized(rules, s) && Allowed(rules, s, a) && AllRobdd(s) && GoneRight(s)
    ensures GoneRight(After(rules, s, a)) && Marks(s, After(rules, s, a))
  {
    LiveShrinks(rules, s, a);
    if !a.MergeFor? {
      assert a.h in Live(s.fs);
    }
  }

  lemma MarksMore(s: Stage, t: Stage, u: Stage)
    requires GoneRight(s) && GoneRight(t) && Marks(s, t) && Marks(t, u)
    ensures Marks(s, u)
  {
    forall v: nat | v < |s.trueFalse| ensures MarkedAt(s, u, v) {
      assert MarkedAt(s, t, v) && MarkedAt(t, u, v);
    }
  }

  lemma {:induction false} PerformsMarks(rules: Rules, s: Stage, actions: seq<Action>, t: Stage)
    requires Sized(rules, s) && Performs(rules, s, actions, t) && AllRobdd(s) && GoneRight(s)
    ensures AllRobdd(t) && GoneRight(t) && Marks(s, t)
    decreases |actions|
  {
    if actions != [] {
      var m := After(rules, s, actions[0]);
      LiveShrinks(rules, s, actions[0]);
      StepMarks(rules, s, actions[0]);
      PerformsMarks(rules, m, actions[1..], t);
      MarksMore(s, m, t);
    }
  }

  // A run of either loop marks exactly the variables it quantifies away, with 2; these
  // occurred before, and occur nowhere any more.
  lemma RunMarks(rules: Rules, s: Stage, t: Stage)
    requires AllRobdd(s) && GoneRight(s) && (MergeRun(rules, s, t) || LetGoRun(rules, s, t))
    ensures Sized(rules, t) && AllRobdd(t) && GoneRight(t) && Marks(s, t)
  {
    var actions: seq<Action> :| Performs(rules, s, actions, t);
    PerformsSized(rules, s, actions, t);
    PerformsMarks(rules, s, actions, t);
  }

  // An open variable that still occurs is open still.
  lemma StillOpen(rules: Rules, s: Stage, t: Stage, i: nat)
    requires AllRobdd(s) && GoneRight(s) && MergeRun(rules, s, t)
    requires i < |s.trueFalse| && OpenIn(s.trueFalse, rules.equalvars, i)
    ensures Sized(rules, t) && |t.trueFalse| == |s.trueFalse|
    ensures i in Live(t.fs) ==> OpenIn(t.trueFalse, rules.equalvars, i)
  {
    RunMarks(rules, s, t);
    assert MarkedAt(s, t, i);
  }

  lemma {:induction false} LetGoOpen(rules: Rules, s: Stage, actions: seq<Action>, t: Stage, v: nat)
    requires Sized(rules, s) && OnlyLetGo(actions) && Performs(rules, s, actions, t)
    requires v in t.quantified && v !in s.quantified
    ensures v < |s.trueFalse| && OpenIn(s.trueFalse, rules.equalvars, v)
    decreases |actions|
  {
    if actions != [] {
      var a, m := actions[0], After(rules, s, actions[0]);
      if v != a.h {
        LetGoOpen(rules, m, actions[1..], t, v);
      }
    }
  }

  // The loop over single functions quantifies variables that were open.
  lemma LetGoWasOpen(rules: Rules, s: Stage, t: Stage, v: nat)
    requires LetGoRun(rules, s, t) && v in t.quantified && v !in s.quantified
    ensures v < |s.trueFalse| && OpenIn(s.trueFalse, rules.equalvars, v)
  {
    var actions :| OnlyLetGo(actions) && Performs(rules, s, actions, t);
    LetGoOpen(rules, s, actions, t, v);
  }
}
