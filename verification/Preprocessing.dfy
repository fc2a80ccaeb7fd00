// Variable elimination: ExQuantifyAnd (src/preproc/do_exquantifyand.cc) merges the
// functions of a variable, ExQuantify (src/preproc/do_exquantify.cc) quantifies
// variables that occur once; both read and repair the index as they go.

module Preprocessing {
  import opened Basics
  import opened Bdd
  import opened Clauses
  import opened OccurrenceLists
  import opened OccurrenceIndex
  import opened Elimination
  import opened EliminationRun

  class Preprocessor {
    const formula: Formula
    // variablelist[v].true_false: -1 open, 2 quantified; equalvars: 0 open.
    var trueFalse: seq<int>
    const equalvars: seq<int>
    // functionTypeLimits: shorter functions of a kind give up their variables.
    const limits: FunctionType -> int
    // nCtrlC, and whether the user presses the keys before it is read the t-th time.
    const interrupts: nat -> bool
    var polls: nat
    var nCtrlC: bool
    ghost const original: seq<Bdd>
    ghost var quantified: iset<nat>

    constructor (formula: Formula, trueFalse: seq<int>, equalvars: seq<int>, limits: FunctionType -> int, interrupts: nat -> bool)
      requires formula.Valid() && formula.tracked == formula.functions
      requires |trueFalse| == formula.numinp + 1 == |equalvars|
      ensures this.formula == formula && this.trueFalse == trueFalse && this.equalvars == equalvars
      ensures this.limits == limits && this.interrupts == interrupts && polls == 0 && !nCtrlC
      ensures original == formula.functions && quantified == iset{} && Valid() && InStep()
    {
      this.formula, this.trueFalse, this.equalvars := formula, trueFalse, equalvars;
      this.limits, this.interrupts, polls, nCtrlC := limits, interrupts, 0, false;
      original, quantified := formula.functions, iset{};
      new;
      NothingEliminated(original);
    }

    // The functions always are the original ones with the quantified variables gone.
    ghost predicate Valid()
      reads this, formula, formula.amount, formula.amount.lists, formula.amount.repr
    {
      && formula.Valid() && |trueFalse| == formula.numinp + 1 == |equalvars|
      && Eliminated(original, formula.functions, quantified) && GoneRight(State())
    }

    // What the steps change, as a value, and what they do not.
    ghost function State(): Stage
      reads this`trueFalse, this`quantified, formula
    {
      Stage(formula.functions, trueFalse, formula.functionType, formula.equalityVble, quantified)
    }

    ghost function RulesFor(maxLen: int): Rules {
      Rules(formula.classify, equalvars, limits, maxLen)
    }

    lemma StateRight(maxLen: int)
      requires Valid()
      ensures Sized(RulesFor(maxLen), State()) && AllRobdd(State())
    {
      forall x | 0 <= x < |formula.functions| ensures Robdd(formula.functions[x]) {
        assert WithinAt(formula.functions, formula.numinp, x);
      }
    }

    // Between steps the index describes the functions as they are.
    ghost predicate InStep()
      reads formula
    {
      formula.tracked == formula.functions
    }

    // Nobody interrupts, now or later.
    ghost predicate Quiet()
      reads this`nCtrlC
    {
      !nCtrlC && forall t: nat :: !interrupts(t)
    }

    // The flag is read; keys pressed since the last time have set it.
    method Poll()
      modifies this`polls, this`nCtrlC
      ensures nCtrlC == (old(nCtrlC) || interrupts(old(polls))) && polls == old(polls) + 1
      ensures old(Quiet()) ==> Quiet()
    {
      nCtrlC := nCtrlC || interrupts(polls);
      polls := polls + 1;
    }

    // functions[j] takes in functions[z]; both are listed anew.
    method Merge(j: nat, z: nat, ghost maxLen: int) returns (r: PrepResult)
      requires Valid() && InStep() && j < |formula.functions| && z < |formula.functions| && j != z
      requires formula.functions[z] != True
      modifies this, formula, formula.amount, formula.amount.lists, formula.amount.repr
      ensures fresh(formula.amount.repr - old(formula.amount.repr)) && Valid()
      ensures old(Quiet()) ==> Quiet()
      ensures State() == AfterMerge(RulesFor(maxLen), old(State()), j, z)
      ensures formula.functions == MergedInto(old(formula.functions), j, z)
      ensures Measure(formula.functions) <= old(Measure(formula.functions))
      ensures old(formula.functions[j]) != True ==> Measure(formula.functions) < old(Measure(formula.functions))
      ensures (r == Unsat && False in formula.functions) || (r == NoChange && InStep() && formula.variables[j].Some?)
    {
      assert WithinAt(formula.functions, formula.numinp, j) && WithinAt(formula.functions, formula.numinp, z);
      MergeStep(original, formula.functions, quantified, j, z, formula.numinp);
      StateRight(maxLen);
      MergeRight(RulesFor(maxLen), State(), j, z);
      r := formula.ReplaceTwo(j, z, And(formula.functions[j], formula.functions[z]));
      if r == Unsat {
        assert formula.functions[j] == False;
      }
    }

    // Variable h occurs in functions[j] only and goes away.
    method Quantify(j: nat, h: nat, ghost maxLen: int) returns (r: PrepResult)
      requires Valid() && InStep() && j < |formula.functions| && h <= formula.numinp
      requires OnlyIn(formula.functions, j, h) && h in Support(formula.functions[j])
      modifies this, formula, formula.amount, formula.amount.lists, formula.amount.repr
      ensures fresh(formula.amount.repr - old(formula.amount.repr)) && Valid()
      ensures old(Quiet()) ==> Quiet()
      ensures State() == AfterQuantify(RulesFor(maxLen), old(State()), j, h)
      ensures r == Unsat <==> formula.functions[j] == False
      ensures formula.functions == old(formula.functions)[j := Exists(old(formula.functions)[j], h)]
      ensures Measure(formula.functions) < old(Measure(formula.functions))
      ensures (r == Unsat && False in formula.functions) || (r == NoChange && InStep() && formula.variables[j].Some?)
    {
      assert WithinAt(formula.functions, formula.numinp, j);
      QuantifyStep(original, formula.functions, quantified, j, h, formula.numinp);
      StateRight(maxLen);
      QuantifyRight(RulesFor(maxLen), State(), j, h);
      trueFalse := trueFalse[h := 2];
      quantified := quantified + iset{h};
      r := formula.Replace(j, Exists(formula.functions[j], h));
      if r == Unsat {
        assert formula.functions[j] == False;
      }
    }

    // Steps of the merging loop lead from s to t.
    ghost predicate MergeRunTo(maxLen: int, s: Stage, t: Stage) {
      MergeRun(RulesFor(maxLen), s, t)
    }

    lemma MergeRunJoin(maxLen: int, s: Stage, t: Stage, u: Stage)
      requires MergeRunTo(maxLen, s, t) && MergeRunTo(maxLen, t, u)
      ensures MergeRunTo(maxLen, s, u)
    {
      MergeRunMore(RulesFor(maxLen), s, t, u);
    }

    // A variable listed once occurs in that function only.
    lemma OccursOnce(h: nat, j: nat)
      requires Valid() && InStep() && h <= formula.numinp && formula.amount.occurs[h] == 1
      requires j in formula.amount.Amount()[h]
      ensures j < |formula.functions| && OnlyIn(formula.functions, j, h) && h in Support(formula.functions[j])
    {
      var list := formula.amount.Amount()[h];
      assert formula.amount.ValidAt(h) && ListedRight(list, formula.functions, h);
      assert |list| == 1 && list[0] == j;
    }

    // Quantify, after which the function is of no known kind.
    method QuantifyUnsure(j: nat, h: nat, ghost maxLen: int) returns (r: PrepResult)
      requires Valid() && InStep() && j < |formula.functions| && h <= formula.numinp
      requires OnlyIn(formula.functions, j, h) && h in Support(formula.functions[j])
      modifies this, formula, formula.amount, formula.amount.lists, formula.amount.repr
      ensures fresh(formula.amount.repr - old(formula.amount.repr)) && Valid()
      ensures Allowed(RulesFor(maxLen), old(State()), QuantifyOther(j, h)) && State() == After(RulesFor(maxLen), old(State()), QuantifyOther(j, h))
      ensures old(Quiet()) ==> Quiet()
      ensures OnlyChanges(old(formula.functions), formula.functions, j)
      ensures Measure(formula.functions) < old(Measure(formula.functions))
      ensures (r == Unsat && False in formula.functions) || (r == NoChange && InStep() && formula.variables[j].Some?)
    {
      StateRight(maxLen);
      r := Quantify(j, h, maxLen);
      if r == NoChange {
        formula.SetType(j, Unsure, 0);
      }
    }

    // One variable of functions[j]: it goes away if it is nowhere else.
    method QuantifyIfAlone(j: nat, l: nat, ghost maxLen: int) returns (r: PrepResult, gone: bool)
      requires Valid() && InStep() && j < |formula.functions| && formula.variables[j].Some? && l < formula.length[j]
      modifies this, formula, formula.amount, formula.amount.lists, formula.amount.repr
      ensures fresh(formula.amount.repr - old(formula.amount.repr)) && Valid()
      ensures MergeRunTo(maxLen, old(State()), State())
      ensures old(Quiet()) ==> Quiet()
      ensures OnlyChanges(old(formula.functions), formula.functions, j)
      ensures gone ==> Measure(formula.functions) < old(Measure(formula.functions))
      ensures !gone ==> State() == old(State()) && formula.length[j] == old(formula.length[j])
      ensures (r == Unsat && False in formula.functions) || (r == NoChange && InStep() && formula.variables[j].Some?)
    {
      assert ListedAt(formula.variables, formula.length, formula.tracked, formula.numinp, j);
      VarsSupport(formula.functions[j]);
      ghost var s := State();
      StateRight(maxLen);
      var h := formula.variables[j].value[l];
      assert h in Vars(formula.functions[j]);
      gone := formula.amount.occurs[h] == 1;
      r := NoChange;
      if gone {
        assert ListedRight(formula.amount.Amount()[h], formula.functions, h);
        OccursOnce(h, j);
        r := QuantifyUnsure(j, h, maxLen);
        MergeRunOne(RulesFor(maxLen), s, QuantifyOther(j, h));
      } else {
        MergeRunNone(RulesFor(maxLen), s);
      }
    }

    // The loop over the variables of functions[j]; the one at position 0 is not
    // looked at again after a change.
    method QuantifyOthers(j: nat, ghost maxLen: int) returns (r: PrepResult)
      requires Valid() && InStep() && j < |formula.functions| && formula.variables[j].Some?
      modifies this, formula, formula.amount, formula.amount.lists, formula.amount.repr
      ensures fresh(formula.amount.repr - old(formula.amount.repr)) && Valid()
      ensures MergeRunTo(maxLen, old(State()), State())
      ensures old(Quiet()) ==> Quiet()
      ensures OnlyChanges(old(formula.functions), formula.functions, j)
      ensures (r == Unsat && False in formula.functions) || (r == NoChange && InStep())
    {
      StateRight(maxLen);
      MergeRunNone(RulesFor(maxLen), State());
      var l: nat := 0;
      while l < formula.length[j]
        invariant Valid() && InStep() && j < |formula.functions| && formula.variables[j].Some?
        invariant fresh(formula.amount.repr - old(formula.amount.repr)) && (old(Quiet()) ==> Quiet())
        invariant MergeRunTo(maxLen, old(State()), State())
        invariant OnlyChanges(old(formula.functions), formula.functions, j)
        decreases Measure(formula.functions), formula.length[j] - l
      {
        var gone;
        ghost var s := State();
        r, gone := QuantifyIfAlone(j, l, maxLen);
        MergeRunJoin(maxLen, old(State()), s, State());
        if r == Unsat {
          return;
        }
        if gone {
          l := 0;
        }
        l := l + 1;
      }
      return NoChange;
    }

    // Functions z and j may be merged for variable i.
    ghost predicate MayMerge(i: nat, j: nat, z: nat, maxLen: int)
      reads this`trueFalse, this`quantified, formula
    {
      Sized(RulesFor(maxLen), State()) && Allowed(RulesFor(maxLen), State(), MergeFor(i, j, z))
    }

    // One merge and the quantifications it makes possible.
    method MergeAndQuantify(j: nat, z: nat, ghost i: nat, ghost maxLen: int) returns (r: PrepResult)
      requires Valid() && InStep() && j < |formula.functions| && z < |formula.functions| && j != z
      requires formula.functions[z] != True && MayMerge(i, j, z, maxLen)
      modifies this, formula, formula.amount, formula.amount.lists, formula.amount.repr
      ensures fresh(formula.amount.repr - old(formula.amount.repr)) && Valid()
      ensures MergeRunTo(maxLen, old(State()), State())
      ensures old(Quiet()) ==> Quiet()
      ensures TakenIn(old(formula.functions), formula.functions, j, z)
      ensures old(formula.functions[j]) != True ==> Measure(formula.functions) < old(Measure(formula.functions))
      ensures (r == Unsat && False in formula.functions) || (r == NoChange && InStep())
    {
      ghost var s := State();
      r := Merge(j, z, maxLen);
      ghost var fs, t := formula.functions, State();
      MergeRunOne(RulesFor(maxLen), s, MergeFor(i, j, z));
      if r == Unsat {
        return;
      }
      assert fs[z] == True;
      r := QuantifyOthers(j, maxLen);
      MergeRunJoin(maxLen, s, t, State());
    }

    // The functions other than j listed under variable i.
    ghost function Others(i: nat, j: nat): set<nat>
      requires i < |formula.amount.lists|
      reads formula, formula.amount, formula.amount.lists
    {
      set x | x in formula.amount.Amount()[i] && x != j
    }

    // How many functions the walk can still merge.
    ghost function OthersLeft(i: nat, j: nat): nat
      requires i < |formula.amount.lists|
      reads formula, formula.amount, formula.amount.lists
    {
      |Others(i, j)|
    }

    lemma ListMembers(i: nat)
      requires Valid() && InStep() && i <= formula.numinp
      ensures forall x: nat :: x in formula.amount.Amount()[i] <==> x < |formula.functions| && i in Support(formula.functions[x])
      ensures formula.amount.lists[i].Valid() && formula.amount.occurs[i] == |formula.amount.Amount()[i]|
      ensures formula.amount.Amount()[i] == formula.amount.lists[i].Contents()
    {
      assert formula.amount.ValidAt(i) && ListedRight(formula.amount.Amount()[i], formula.functions, i);
    }

    // The function at the cursor, and the cursor moved on.
    method Next(i: nat, k: ListNode, ghost p: nat) returns (z: nat, next: ListNode?)
      requires Valid() && InStep() && i <= formula.numinp
      requires p < |formula.amount.lists[i].nodes| && k == formula.amount.lists[i].At(p)
      ensures z == formula.amount.Amount()[i][p] && z in formula.amount.Amount()[i] && z < |formula.functions|
      ensures next == formula.amount.lists[i].At(p + 1)
    {
      ListMembers(i);
      z, next := k.num, k.next;
      assert z == formula.amount.Amount()[i][p] && formula.amount.lists[i].LinkedAt(p);
    }

    // The head of a non-empty list.
    method First(i: nat) returns (k: ListNode, j: nat)
      requires Valid() && InStep() && i <= formula.numinp && formula.amount.occurs[i] != 0
      ensures k == formula.amount.lists[i].At(0) && k.num == j < |formula.functions|
      ensures j in formula.amount.Amount()[i] && i in Support(formula.functions[j])
    {
      ListMembers(i);
      k := formula.amount.lists[i].head;
      j := k.num;
      assert j == formula.amount.Amount()[i][0];
      assert j in formula.amount.Amount()[i];
    }

    // Function z leaves the list of variable i for good; only j may have joined it.
    method MergeAway(i: nat, j: nat, z: nat, ghost maxLen: int) returns (r: PrepResult)
      requires Valid() && InStep() && i <= formula.numinp && j < |formula.functions| && z != j
      requires z in formula.amount.Amount()[i] && MayMerge(i, j, z, maxLen)
      modifies this, formula, formula.amount, formula.amount.lists, formula.amount.repr
      ensures fresh(formula.amount.repr - old(formula.amount.repr)) && Valid()
      ensures MergeRunTo(maxLen, old(State()), State())
      ensures old(Quiet()) ==> Quiet()
      ensures |formula.functions| == |old(formula.functions)| && Measure(formula.functions) <= old(Measure(formula.functions))
      ensures old(formula.functions[j]) != True ==> Measure(formula.functions) < old(Measure(formula.functions))
      ensures (r == Unsat && False in formula.functions) || (r == NoChange && InStep() && Others(i, j) < old(Others(i, j)))
    {
      ListMembers(i);
      r := MergeAndQuantify(j, z, i, maxLen);
      if r == NoChange {
        ListMembers(i);
        assert z in old(Others(i, j)) && z !in Others(i, j);
        assert forall x :: x in Others(i, j) ==> x in old(Others(i, j));
      }
    }

    // The first p entries of the list of variable i are j, and nothing has been merged;
    // the walk may have ended at the next one.
    ghost predicate Untouched(i: nat, j: nat, p: nat, maxLen: int, stop: bool)
      requires i < |formula.amount.lists|
      reads this`nCtrlC, formula, formula.amount, formula.amount.lists
    {
      && j in formula.amount.Amount()[i]
      && if stop then nCtrlC || Stuck(formula.functions, i, maxLen)
         else Before(formula.amount.Amount()[i], j, p)
    }

    lemma PassedOver(i: nat, j: nat, p: nat, z: nat, maxLen: int)
      requires Valid() && InStep() && i <= formula.numinp && Untouched(i, j, p, maxLen, false)
      requires p < |formula.amount.Amount()[i]| && z == formula.amount.Amount()[i][p]
      requires z == j || nCtrlC || (z < |formula.functions| && j < |formula.functions| && (formula.length[z] > maxLen || formula.length[j] > maxLen))
      ensures Untouched(i, j, p + 1, maxLen, z != j)
    {
      if z != j && !nCtrlC {
        ListMembers(i);
        assert z in formula.amount.Amount()[i];
        TooLong(i, j, z, maxLen);
      }
    }

    // Two functions of variable i, one of them too long, stay apart.
    lemma TooLong(i: nat, j: nat, z: nat, maxLen: int)
      requires Valid() && InStep() && i <= formula.numinp && j != z && z in formula.amount.Amount()[i]
      requires j < |formula.functions| && z < |formula.functions| && i in Support(formula.functions[j])
      requires formula.length[z] > maxLen || formula.length[j] > maxLen
      ensures Stuck(formula.functions, i, maxLen)
    {
      ListMembers(i);
      assert ListedAt(formula.variables, formula.length, formula.tracked, formula.numinp, z);
      assert ListedAt(formula.variables, formula.length, formula.tracked, formula.numinp, j);
      assert Apart(formula.functions, i, maxLen, z, j) || Apart(formula.functions, i, maxLen, j, z);
    }

    // A variable that occurs is open.
    ghost predicate OpenIfLive(i: nat)
      requires i < |trueFalse| == |equalvars|
      reads this`trueFalse, formula
    {
      i in Live(formula.functions) ==> Open(i)
    }

    lemma LengthIs(x: nat)
      requires Valid() && InStep() && x < |formula.functions| && formula.length[x] >= 0
      ensures formula.variables[x].Some? ==> |Vars(formula.functions[x])| == formula.length[x]
      ensures formula.variables[x].None? ==> formula.functions[x] == True
    {
      assert ListedAt(formula.variables, formula.length, formula.tracked, formula.numinp, x);
    }

    lemma ShortEnough(i: nat, j: nat, z: nat, maxLen: int)
      requires Valid() && InStep() && i <= formula.numinp && j < |formula.functions| && z < |formula.functions| && z != j && OpenIfLive(i)
      requires z in formula.amount.Amount()[i] && formula.length[z] <= maxLen && formula.length[j] <= maxLen
      ensures MayMerge(i, j, z, maxLen)
    {
      ListMembers(i);
      StateRight(maxLen);
      LengthIs(z);
      LengthIs(j);
      assert Vars(True) == [];
    }

    // Whether z stays as it is, and whether the walk ends there.
    method PassEntry(i: nat, j: nat, z: nat, maxLen: int, ghost p: nat) returns (pass: bool, stop: bool)
      requires Valid() && InStep() && i <= formula.numinp && j < |formula.functions| && z < |formula.functions|
      requires p < |formula.amount.Amount()[i]| && z == formula.amount.Amount()[i][p]
      modifies this`polls, this`nCtrlC
      ensures Valid() && (old(Quiet()) ==> Quiet())
      ensures pass && old(Untouched(i, j, p, maxLen, false)) ==> Untouched(i, j, p + 1, maxLen, stop)
      ensures !pass ==> z != j && !stop && formula.length[z] <= maxLen && formula.length[j] <= maxLen
    {
      if z != j {
        Poll();
      }
      pass := z == j || nCtrlC || formula.length[z] > maxLen || formula.length[j] > maxLen;
      stop := pass && z != j;
      if pass && Untouched(i, j, p, maxLen, false) {
        PassedOver(i, j, p, z, maxLen);
      }
    }

    // k is the entry at place p of the list of variable i, or null at its end.
    ghost predicate Cursor(i: nat, k: ListNode?, p: nat)
      requires i < |formula.amount.lists|
      reads formula, formula.amount, formula.amount.lists
    {
      p <= |formula.amount.lists[i].nodes| && k == formula.amount.lists[i].At(p)
    }

    // What is left of the list after place p.
    ghost function ToGo(i: nat, p: nat): int
      reads formula, formula.amount, formula.amount.lists
    {
      if i < |formula.amount.lists| then |formula.amount.lists[i].nodes| - p else 0
    }

    // Another function is merged into j, and the walk starts over.
    method MergeEntry(i: nat, j: nat, z: nat, ghost maxLen: int) returns (r: PrepResult, k: ListNode?, ghost p: nat)
      requires Valid() && InStep() && i <= formula.numinp && j < |formula.functions| && z != j
      requires z in formula.amount.Amount()[i] && MayMerge(i, j, z, maxLen)
      modifies this, formula, formula.amount, formula.amount.lists, formula.amount.repr
      ensures fresh(formula.amount.repr - old(formula.amount.repr)) && Valid()
      ensures MergeRunTo(maxLen, old(State()), State())
      ensures old(Quiet()) ==> Quiet()
      ensures |formula.functions| == |old(formula.functions)| && Measure(formula.functions) <= old(Measure(formula.functions))
      ensures old(formula.functions[j]) != True ==> Measure(formula.functions) < old(Measure(formula.functions))
      ensures (r == Unsat && False in formula.functions) || (r == NoChange && InStep() && Others(i, j) < old(Others(i, j)))
      ensures r == NoChange ==> Cursor(i, k, p)
    {
      r := MergeAway(i, j, z, maxLen);
      k, p := null, 0;
      if r == NoChange {
        ListMembers(i);
        k := formula.amount.lists[i].head;
      }
    }

    // One entry of the list of variable i: j itself is passed over, another
    // function is merged into j, unless one of the two is too long or the user stops;
    // nCtrlC then stays set for the loop outside.
    method VisitEntry(i: nat, j: nat, k: ListNode, maxLen: int, ghost p: nat)
      returns (r: PrepResult, k': ListNode?, merged: bool, stop: bool, ghost p': nat)
      requires Valid() && InStep() && i <= formula.numinp && j < |formula.functions|
      requires p < |formula.amount.lists[i].nodes| && k == formula.amount.lists[i].At(p)
      requires OpenIfLive(i)
      modifies this, formula, formula.amount, formula.amount.lists, formula.amount.repr
      ensures fresh(formula.amount.repr - old(formula.amount.repr)) && Valid()
      ensures MergeRunTo(maxLen, old(State()), State())
      ensures old(Quiet()) ==> Quiet()
      ensures |formula.functions| == |old(formula.functions)| && Measure(formula.functions) <= old(Measure(formula.functions))
      ensures merged && old(formula.functions[j]) != True ==> Measure(formula.functions) < old(Measure(formula.functions))
      ensures !merged ==> r == NoChange && State() == old(State()) && Others(i, j) == old(Others(i, j))
                          && formula.amount.lists[i].nodes == old(formula.amount.lists[i].nodes) && p' == p + 1
      ensures !merged && old(Untouched(i, j, p, maxLen, false)) ==> Untouched(i, j, p', maxLen, stop)
      ensures (r == Unsat && False in formula.functions) || (r == NoChange && InStep())
      ensures r == NoChange && merged ==> Others(i, j) < old(Others(i, j))
      ensures r == NoChange ==> Cursor(i, k', p')
    {
      var z;
      z, k' := Next(i, k, p);
      var pass;
      pass, stop := PassEntry(i, j, z, maxLen, p);
      r, merged, p' := NoChange, !pass, p + 1;
      if merged {
        ShortEnough(i, j, z, maxLen);
        r, k', p' := MergeEntry(i, j, z, maxLen);
      } else {
        NoStep(maxLen);
      }
    }

    lemma NoStep(maxLen: int)
      requires Valid()
      ensures MergeRunTo(maxLen, State(), State())
    {
      StateRight(maxLen);
      MergeRunNone(RulesFor(maxLen), State());
    }

    // The loop body of WalkList.
    method WalkStep(i: nat, j: nat, k: ListNode, maxLen: int, ghost p: nat, ghost start: Stage, changed: bool)
      returns (r: PrepResult, k': ListNode?, changed': bool, stop: bool, ghost p': nat)
      requires Valid() && InStep() && i <= formula.numinp && j < |formula.functions| == |start.fs| && start.fs[j] != True
      requires Cursor(i, k, p) && WalkStart(start, i) && Walking(maxLen, start, State(), changed)
      requires !changed ==> Untouched(i, j, p, maxLen, false)
      modifies this, formula, formula.amount, formula.amount.lists, formula.amount.repr
      ensures fresh(formula.amount.repr - old(formula.amount.repr)) && Valid()
      ensures old(Quiet()) ==> Quiet()
      ensures |formula.functions| == |old(formula.functions)| && Walking(maxLen, start, State(), changed')
      ensures !changed' ==> r == NoChange && Untouched(i, j, p', maxLen, stop)
      ensures (r == Unsat && False in formula.functions && changed') || (r == NoChange && InStep() && Cursor(i, k', p'))
      ensures r == NoChange ==> OthersLeft(i, j) < old(OthersLeft(i, j)) || (OthersLeft(i, j) == old(OthersLeft(i, j)) && ToGo(i, p') < old(ToGo(i, p)))
    {
      var merged;
      ghost var s := State();
      OpenStays(maxLen, start, i);
      ghost var others := Others(i, j);
      r, k', merged, stop, p' := VisitEntry(i, j, k, maxLen, p);
      WalkMore(maxLen, start, s, State(), j, changed, merged);
      changed' := changed || merged;
      if r == NoChange && merged {
        SmallerSet(Others(i, j), others);
      }
    }

    // Walking the list of variable i, from the start again after each merge.
    method WalkList(i: nat, j: nat, first: ListNode, maxLen: int) returns (r: PrepResult, changed: bool, stop: bool, ghost p: nat)
      requires Valid() && InStep() && i <= formula.numinp && j < |formula.functions|
      requires first == formula.amount.lists[i].At(0) && formula.functions[j] != True && j in formula.amount.Amount()[i]
      requires Open(i)
      modifies this, formula, formula.amount, formula.amount.lists, formula.amount.repr
      ensures fresh(formula.amount.repr - old(formula.amount.repr)) && Valid()
      ensures MergeRunTo(maxLen, old(State()), State())
      ensures old(Quiet()) ==> Quiet()
      ensures changed ==> Measure(formula.functions) < old(Measure(formula.functions))
      ensures !changed ==> r == NoChange && State() == old(State())
      ensures !changed ==> Untouched(i, j, p, maxLen, stop) && (stop || p == |formula.amount.lists[i].nodes|)
      ensures (r == Unsat && False in formula.functions) || (r == NoChange && InStep())
    {
      var k: ListNode? := first;
      p, stop := 0, false;
      r, changed := NoChange, false;
      ghost var start := State();
      StateRight(maxLen);
      MergeRunNone(RulesFor(maxLen), start);
      while k != null
        invariant Valid() && InStep() && r == NoChange && !stop && |formula.functions| == |start.fs|
        invariant fresh(formula.amount.repr - old(formula.amount.repr)) && (old(Quiet()) ==> Quiet())
        invariant Cursor(i, k, p) && Walking(maxLen, start, State(), changed)
        invariant !changed ==> Untouched(i, j, p, maxLen, false)
        decreases OthersLeft(i, j), ToGo(i, p)
      {
        r, k, changed, stop, p := WalkStep(i, j, k, maxLen, p, start, changed);
        if r == Unsat || stop {
          break;
        }
      }
    }

    // Where the walk starts: variable i is open.
    ghost predicate WalkStart(start: Stage, i: nat) {
      AllRobdd(start) && GoneRight(start) && i < |start.trueFalse| == |equalvars| && OpenIn(start.trueFalse, equalvars, i)
    }

    // The walk from start has come to s.
    ghost predicate Walking(maxLen: int, start: Stage, s: Stage, changed: bool) {
      && MergeRunTo(maxLen, start, s)
      && if changed then Measure(s.fs) < Measure(start.fs) else s == start
    }

    lemma WalkMore(maxLen: int, start: Stage, s: Stage, t: Stage, j: nat, changed: bool, merged: bool)
      requires Walking(maxLen, start, s, changed) && MergeRunTo(maxLen, s, t)
      requires Measure(t.fs) <= Measure(s.fs) && (!merged ==> t == s) && j < |s.fs| == |t.fs| && |start.fs| == |s.fs| && start.fs[j] != True
      requires merged && s.fs[j] != True ==> Measure(t.fs) < Measure(s.fs)
      ensures Walking(maxLen, start, t, changed || merged)
    {
      MergeRunJoin(maxLen, start, s, t);
    }

    // A variable open at the start is open as long as it occurs.
    lemma OpenStays(maxLen: int, start: Stage, i: nat)
      requires Valid() && MergeRunTo(maxLen, start, State()) && AllRobdd(start) && GoneRight(start)
      requires i < |start.trueFalse| == |equalvars| && OpenIn(start.trueFalse, equalvars, i)
      ensures OpenIfLive(i)
    {
      StillOpen(RulesFor(maxLen), start, State(), i);
    }

    // The functions of variable i are merged into the first one.
    method MergeVariable(i: nat, maxLen: int) returns (r: PrepResult, changed: bool)
      requires Valid() && InStep() && i <= formula.numinp && formula.amount.occurs[i] != 0 && Open(i)
      modifies this, formula, formula.amount, formula.amount.lists, formula.amount.repr
      ensures fresh(formula.amount.repr - old(formula.amount.repr)) && Valid()
      ensures MergeRunTo(maxLen, old(State()), State())
      ensures old(Quiet()) ==> Quiet()
      ensures changed ==> Measure(formula.functions) < old(Measure(formula.functions))
      ensures !changed ==> r == NoChange && State() == old(State())
      ensures !changed && !nCtrlC ==> formula.amount.occurs[i] == 1 || Stuck(formula.functions, i, maxLen)
      ensures (r == Unsat && False in formula.functions) || (r == NoChange && InStep())
    {
      var k, j := First(i);
      var stop;
      ghost var p;
      r, changed, stop, p := WalkList(i, j, k, maxLen);
      if !changed && !stop {
        OneLeft(i, j, p, maxLen);
      }
    }

    lemma OneLeft(i: nat, j: nat, p: nat, maxLen: int)
      requires Valid() && InStep() && i <= formula.numinp && p == |formula.amount.lists[i].nodes|
      requires Untouched(i, j, p, maxLen, false)
      ensures formula.amount.occurs[i] == 1
    {
      ListMembers(i);
      assert ListedRight(formula.amount.Amount()[i], formula.functions, i);
      OnlyMember(formula.amount.Amount()[i], j);
    }

    // Variable i, listed once, goes away.
    method QuantifyHead(i: nat, ghost maxLen: int) returns (r: PrepResult)
      requires Valid() && InStep() && i <= formula.numinp && formula.amount.occurs[i] == 1 && Open(i)
      modifies this, formula, formula.amount, formula.amount.lists, formula.amount.repr
      ensures fresh(formula.amount.repr - old(formula.amount.repr)) && Valid() && quantified == old(quantified) + iset{i}
      ensures MergeRunTo(maxLen, old(State()), State())
      ensures old(Quiet()) ==> Quiet()
      ensures Measure(formula.functions) < old(Measure(formula.functions))
      ensures (r == Unsat && False in formula.functions) || (r == NoChange && InStep())
    {
      var k, j := First(i);
      OccursOnce(i, j);
      ghost var s := State();
      StateRight(maxLen);
      r := Quantify(j, i, maxLen);
      MergeRunOne(RulesFor(maxLen), s, QuantifyOpen(j, i));
    }

    // A variable that is assigned, replaced or gone is passed over.
    predicate Open(i: nat)
      requires i < |trueFalse| == |equalvars|
      reads this`trueFalse
    {
      OpenIn(trueFalse, equalvars, i)
    }

    // The loop body of ExQuantifyAnd.
    method ExQuantifyAndVariable(i: nat, maxLen: int) returns (r: PrepResult, changed: bool)
      requires Valid() && InStep() && i <= formula.numinp && formula.amount.occurs[i] != 0 && Open(i)
      modifies this, formula, formula.amount, formula.amount.lists, formula.amount.repr
      ensures fresh(formula.amount.repr - old(formula.amount.repr)) && Valid()
      ensures MergeRunTo(maxLen, old(State()), State())
      ensures old(Quiet()) ==> Quiet()
      ensures changed ==> Measure(formula.functions) < old(Measure(formula.functions))
      ensures !changed ==> State() == old(State())
      ensures !changed && !nCtrlC ==> Stuck(formula.functions, i, maxLen)
      ensures (r == Unsat && False in formula.functions) || (r == NoChange && InStep())
    {
      ghost var start := State();
      StateRight(maxLen);
      r, changed := MergeVariable(i, maxLen);
      ghost var s := State();
      if r == NoChange && formula.amount.occurs[i] == 1 {
        OccursLive(i);
        OpenStays(maxLen, start, i);
        r := QuantifyHead(i, maxLen);
        MergeRunJoin(maxLen, start, s, State());
        changed := true;
      }
    }

    // A variable of some function has a list, and the other way round.
    lemma OccursLive(v: nat)
      requires Valid() && InStep() && v <= formula.numinp
      ensures formula.amount.occurs[v] != 0 <==> v in Live(formula.functions)
    {
      ListMembers(v);
      if formula.amount.occurs[v] != 0 {
        assert formula.amount.Amount()[v][0] in formula.amount.Amount()[v];
      }
    }

    // One turn of the loop of ExQuantifyAnd.
    method VisitVariable(i: nat, maxLen: int) returns (r: PrepResult, changed: bool)
      requires Valid() && InStep() && i <= formula.numinp
      modifies this, formula, formula.amount, formula.amount.lists, formula.amount.repr
      ensures fresh(formula.amount.repr - old(formula.amount.repr)) && Valid()
      ensures MergeRunTo(maxLen, old(State()), State())
      ensures old(Quiet()) ==> Quiet()
      ensures changed ==> Measure(formula.functions) < old(Measure(formula.functions))
      ensures !changed ==> State() == old(State())
      ensures !changed && !nCtrlC ==> SettledAt(i, formula.functions, trueFalse, equalvars, maxLen)
      ensures (r == Unsat && False in formula.functions) || (r == NoChange && InStep())
    {
      r, changed := NoChange, false;
      NoStep(maxLen);
      OccursLive(i);
      if i != 0 && Open(i) && formula.amount.occurs[i] != 0 {
        r, changed := ExQuantifyAndVariable(i, maxLen);
      }
    }

    // Every open variable in order is gone or stuck.
    ghost predicate Settled(order: seq<nat>, fs: seq<Bdd>, trueFalse: seq<int>, maxLen: int)
      requires |trueFalse| == |equalvars|
    {
      forall v :: v in order ==> SettledAt(v, fs, trueFalse, equalvars, maxLen)
    }

    lemma SettledMore(order: seq<nat>, rnum: nat, fs: seq<Bdd>, trueFalse: seq<int>, maxLen: int)
      requires |trueFalse| == |equalvars| && rnum < |order|
      requires Settled(order[..rnum], fs, trueFalse, maxLen) && SettledAt(order[rnum], fs, trueFalse, equalvars, maxLen)
      ensures Settled(order[..rnum + 1], fs, trueFalse, maxLen)
    {
      assert order[..rnum + 1] == order[..rnum] + [order[rnum]];
    }

    // One pass over the variables, in the given order; unless the user breaks in, a
    // pass that changes nothing has settled them all.
    method ExQuantifyAnd(order: seq<nat>, maxLen: int) returns (r: PrepResult)
      requires Valid() && InStep() && forall v :: v in order ==> v <= formula.numinp
      modifies this, formula, formula.amount, formula.amount.lists, formula.amount.repr
      ensures fresh(formula.amount.repr - old(formula.amount.repr)) && Valid()
      ensures MergeRunTo(maxLen, old(State()), State())
      ensures old(Quiet()) ==> Quiet()
      ensures r == ChangedSome ==> Measure(formula.functions) < old(Measure(formula.functions))
      ensures (r == Unsat && False in formula.functions) || ((r == NoChange || r == ChangedSome) && InStep())
      ensures r == NoChange && old(Quiet()) ==> State() == old(State())
      ensures Measure(formula.functions) <= old(Measure(formula.functions))
      ensures r == NoChange && old(Quiet()) ==> Settled(order, formula.functions, trueFalse, maxLen)
    {
      NoStep(maxLen);
      ghost var changed;
      r, changed := VisitAll(order, maxLen, State());
    }

    // The loop; changed says whether any turn did anything.
    method VisitAll(order: seq<nat>, maxLen: int, ghost start: Stage) returns (r: PrepResult, ghost changed: bool)
      requires Valid() && InStep() && forall v :: v in order ==> v <= formula.numinp
      requires start == State() && MergeRunTo(maxLen, start, State())
      modifies this, formula, formula.amount, formula.amount.lists, formula.amount.repr
      ensures fresh(formula.amount.repr - old(formula.amount.repr)) && Valid()
      ensures old(Quiet()) ==> Quiet()
      ensures (r == Unsat && False in formula.functions) || ((r == NoChange || r == ChangedSome) && InStep())
      ensures Visiting(maxLen, start, State(), changed, order, r == NoChange && old(Quiet())) && (r == ChangedSome ==> changed)
      ensures r == NoChange && old(Quiet()) ==> !changed
    {
      r, changed := NoChange, false;
      var rnum := 0;
      while rnum < |order|
        invariant 0 <= rnum <= |order| && Valid() && InStep() && r == if changed then ChangedSome else NoChange
        invariant fresh(formula.amount.repr - old(formula.amount.repr)) && (old(Quiet()) ==> Quiet())
        invariant Visiting(maxLen, start, State(), changed, order[..rnum], !nCtrlC)
      {
        var i := order[rnum];
        assert i in order;
        Poll();
        if nCtrlC {
          nCtrlC := false;
          return NoChange, changed;
        }
        ghost var s := State();
        var r1, now := VisitVariable(i, maxLen);
        VisitMore(maxLen, start, s, State(), changed, now, order, rnum, !nCtrlC);
        if now {
          r, changed := ChangedSome, true;
        }
        rnum := rnum + 1;
        if r1 == Unsat {
          return Unsat, changed;
        }
      }
      assert order[..rnum] == order;
    }

    // The pass from start has come to s; the variables done are settled if nothing has
    // changed and nobody has interrupted.
    ghost predicate Visiting(maxLen: int, start: Stage, s: Stage, changed: bool, done: seq<nat>, quiet: bool) {
      && MergeRunTo(maxLen, start, s)
      && (if changed then Measure(s.fs) < Measure(start.fs) else s == start)
      && (!changed && quiet ==> Settled(done, s.fs, s.trueFalse, maxLen))
    }

    lemma VisitMore(maxLen: int, start: Stage, s: Stage, t: Stage, changed: bool, now: bool, order: seq<nat>, rnum: nat, quiet: bool)
      requires rnum < |order| && Visiting(maxLen, start, s, changed, order[..rnum], true) && MergeRunTo(maxLen, s, t)
      requires if now then Measure(t.fs) < Measure(s.fs) else t == s
      requires !now && quiet ==> SettledAt(order[rnum], t.fs, t.trueFalse, equalvars, maxLen)
      ensures Visiting(maxLen, start, t, changed || now, order[..rnum + 1], quiet)
    {
      MergeRunJoin(maxLen, start, s, t);
      if !changed && !now && quiet {
        SettledMore(order, rnum, t.fs, t.trueFalse, maxLen);
      }
    }

    ghost predicate ByOccurrence(order: seq<nat>)
      reads formula, formula.amount
    {
      && (forall a :: 0 <= a < |order| ==> order[a] < |formula.amount.occurs|)
      && forall a, b :: 0 <= a <= b < |order| ==> formula.amount.occurs[order[a]] <= formula.amount.occurs[order[b]]
    }

    // A place for a variable with that many functions, any one among its equals.
    method PlaceFor(order: seq<nat>, size: nat) returns (at: nat)
      requires ByOccurrence(order)
      ensures at <= |order|
      ensures forall a :: 0 <= a < at ==> formula.amount.occurs[order[a]] <= size
      ensures forall a :: at <= a < |order| ==> formula.amount.occurs[order[a]] >= size
    {
      at := 0;
      var further := true;
      while further && at < |order|
        invariant at <= |order| && forall a :: 0 <= a < at ==> formula.amount.occurs[order[a]] <= size
        invariant !further ==> at < |order| && formula.amount.occurs[order[at]] >= size
        decreases further, |order| - at
      {
        var lucky: bool := *;
        if formula.amount.occurs[order[at]] < size || (formula.amount.occurs[order[at]] == size && lucky) {
          at := at + 1;
        } else {
          further := false;
        }
      }
    }

    lemma Inserted(order: seq<nat>, at: nat, i: nat)
      requires ByOccurrence(order) && at <= |order| && i < |formula.amount.occurs|
      requires forall a :: 0 <= a < at ==> formula.amount.occurs[order[a]] <= formula.amount.occurs[i]
      requires forall a :: at <= a < |order| ==> formula.amount.occurs[order[a]] >= formula.amount.occurs[i]
      ensures ByOccurrence(order[..at] + [i] + order[at..])
      ensures forall v: nat :: v in order[..at] + [i] + order[at..] <==> v in order || v == i
    {
      var more := order[..at] + [i] + order[at..];
      InsertedMembers(order, at, i);
      forall a, b | 0 <= a <= b < |more|
        ensures more[a] < |formula.amount.occurs| && more[b] < |formula.amount.occurs| && formula.amount.occurs[more[a]] <= formula.amount.occurs[more[b]]
      {
        assert more[a] == if a < at then order[a] else if a == at then i else order[a - 1];
        assert more[b] == if b < at then order[b] else if b == at then i else order[b - 1];
      }
    }

    lemma InsertedMembers(order: seq<nat>, at: nat, i: nat)
      requires at <= |order|
      ensures forall v: nat :: v in order[..at] + [i] + order[at..] <==> v in order || v == i
    {
      assert order == order[..at] + order[at..];
    }

    // The variables by number of functions, ties broken at random.  The unused entry 0
    // takes part; the first entry, which has no function, is left out.
    method RandomOrder() returns (order: seq<nat>)
      requires Valid() && InStep()
      ensures ByOccurrence(order) && forall v :: v in order ==> v <= formula.numinp
      ensures Complete(order, formula.functions, formula.numinp)
    {
      order := [];
      var i := 0;
      while i <= formula.numinp
        invariant i <= formula.numinp + 1 && |order| == i && ByOccurrence(order)
        invariant forall v: nat :: v in order <==> v < i
      {
        var at := PlaceFor(order, formula.amount.occurs[i]);
        Inserted(order, at, i);
        order := order[..at] + [i] + order[at..];
        i := i + 1;
      }
      NoFunctionFirst(order);
      order := order[1..];
    }

    lemma NoFunctionFirst(order: seq<nat>)
      requires Valid() && InStep() && ByOccurrence(order) && |order| > 0 && forall v: nat :: v in order <==> v <= formula.numinp
      ensures order[0] !in Live(formula.functions)
      ensures Complete(order[1..], formula.functions, formula.numinp)
    {
      OccursLive(0);
      assert 0 in order && order[0] in order;
      var a :| 0 <= a < |order| && order[a] == 0;
      assert 0 !in Live(formula.functions) by {
        forall x | 0 <= x < |formula.functions| ensures 0 !in Support(formula.functions[x]) {
          assert WithinAt(formula.functions, formula.numinp, x);
        }
      }
      assert formula.amount.occurs[order[0]] <= formula.amount.occurs[order[a]] == 0;
      OccursLive(order[0]);
      forall v: nat | v <= formula.numinp && v in Live(formula.functions) ensures v in order[1..] {
        assert v in order;
        var b :| 0 <= b < |order| && order[b] == v;
        assert order[1..][b - 1] == v;
      }
    }

    // Every open variable that still occurs is stuck.
    ghost predicate NoneLeft(fs: seq<Bdd>, trueFalse: seq<int>, maxLen: int)
      requires |trueFalse| == |equalvars|
    {
      forall v: nat :: 1 <= v < |trueFalse| && OpenIn(trueFalse, equalvars, v) && v in Live(fs) ==> Stuck(fs, v, maxLen)
    }

    lemma AllSettled(order: seq<nat>, fs: seq<Bdd>, numinp: nat, trueFalse: seq<int>, maxLen: int)
      requires |trueFalse| == |equalvars| == numinp + 1 && Complete(order, fs, numinp) && Settled(order, fs, trueFalse, maxLen)
      ensures NoneLeft(fs, trueFalse, maxLen)
    {
      forall v: nat | 1 <= v < |trueFalse| && OpenIn(trueFalse, equalvars, v) && v in Live(fs) ensures Stuck(fs, v, maxLen) {
        assert v in order;
        assert SettledAt(v, fs, trueFalse, equalvars, maxLen);
      }
    }

    // One pass in a random order.
    method MergePass(maxLen: int) returns (r: PrepResult)
      requires Valid() && InStep()
      modifies this, formula, formula.amount, formula.amount.lists, formula.amount.repr
      ensures fresh(formula.amount.repr - old(formula.amount.repr)) && Valid()
      ensures MergeRunTo(maxLen, old(State()), State())
      ensures old(Quiet()) ==> Quiet()
      ensures r == ChangedSome ==> Measure(formula.functions) < old(Measure(formula.functions))
      ensures (r == Unsat && False in formula.functions) || ((r == NoChange || r == ChangedSome) && InStep())
      ensures Measure(formula.functions) <= old(Measure(formula.functions))
      ensures r == NoChange && old(Quiet()) ==> State() == old(State()) && NoneLeft(formula.functions, trueFalse, maxLen)
    {
      var list := RandomOrder();
      r := ExQuantifyAnd(list, maxLen);
      if r == NoChange && old(Quiet()) {
        AllSettled(list, formula.functions, formula.numinp, trueFalse, maxLen);
      }
    }

    // The passes from start have come to s.
    ghost predicate Repeating(maxLen: int, start: Stage, s: Stage, changed: bool, quiet: bool) {
      && MergeRunTo(maxLen, start, s) && Measure(s.fs) <= Measure(start.fs)
      && (changed ==> Measure(s.fs) < Measure(start.fs))
      && (!changed && quiet ==> s == start)
    }

    lemma RepeatMore(maxLen: int, start: Stage, s: Stage, t: Stage, changed: bool, r: PrepResult, quiet: bool)
      requires Repeating(maxLen, start, s, changed, quiet) && MergeRunTo(maxLen, s, t) && Measure(t.fs) <= Measure(s.fs)
      requires r != Sat && (r == ChangedSome ==> Measure(t.fs) < Measure(s.fs)) && (r == NoChange && quiet ==> t == s)
      ensures r != Unsat ==> Repeating(maxLen, start, t, changed || r == ChangedSome, quiet)
      ensures MergeRunTo(maxLen, start, t)
    {
      MergeRunJoin(maxLen, start, s, t);
    }

    // Passes until nothing changes.
    method DoExQuantifyAnd(maxLen: int) returns (r: PrepResult)
      requires Valid() && InStep()
      modifies this, formula, formula.amount, formula.amount.lists, formula.amount.repr
      ensures fresh(formula.amount.repr - old(formula.amount.repr)) && Valid()
      ensures MergeRunTo(maxLen, old(State()), State())
      ensures old(Quiet()) ==> Quiet()
      ensures r == Unsat ==> forall a: Assignment :: !Joint(original, a)
      ensures r == Sat ==> exists a: Assignment :: Joint(original, a)
      ensures r != Unsat ==> (r == Sat <==> forall x :: 0 <= x < |formula.functions| ==> formula.functions[x] == True)
      ensures r != Unsat ==> InStep()
      ensures r == NoChange && old(Quiet()) ==> State() == old(State())
      ensures r == ChangedSome ==> Measure(formula.functions) < old(Measure(formula.functions))
      ensures r != Unsat && old(Quiet()) ==> NoneLeft(formula.functions, trueFalse, maxLen)
    {
      var cofs := ChangedSome;
      r := NoChange;
      ghost var start := State();
      StateRight(maxLen);
      MergeRunNone(RulesFor(maxLen), start);
      while cofs != NoChange
        invariant Valid() && InStep() && fresh(formula.amount.repr - old(formula.amount.repr)) && (old(Quiet()) ==> Quiet())
        invariant cofs == NoChange || cofs == ChangedSome
        invariant r == NoChange || r == ChangedSome
        invariant Repeating(maxLen, start, State(), r == ChangedSome, old(Quiet()))
        invariant cofs == NoChange && old(Quiet()) ==> NoneLeft(formula.functions, trueFalse, maxLen)
        decreases if cofs == NoChange then 0 else 1 + Measure(formula.functions)
      {
        ghost var s := State();
        cofs := MergePass(maxLen);
        RepeatMore(maxLen, start, s, State(), r == ChangedSome, cofs, old(Quiet()));
        if cofs == ChangedSome {
          r := ChangedSome;
        } else if cofs == Unsat {
          FalseMeansUnsat();
          return Unsat;
        }
      }
      var count := CountBDDs();
      if count == 0 {
        ghost var a := ModelExtends(original, formula.functions, quantified, iset{});
        return Sat;
      }
    }

    lemma FalseMeansUnsat()
      requires Valid() && False in formula.functions
      ensures forall a: Assignment :: !Joint(original, a)
    {
      forall a: Assignment ensures !Joint(original, a) {
        FalseIsUnsat(original, formula.functions, quantified, a);
      }
    }

    method CountBDDs() returns (count: nat)
      ensures count == 0 <==> forall x :: 0 <= x < |formula.functions| ==> formula.functions[x] == True
    {
      count := 0;
      var x := 0;
      while x < |formula.functions|
        invariant 0 <= x <= |formula.functions|
        invariant count == 0 <==> forall y :: 0 <= y < x ==> formula.functions[y] == True
      {
        if formula.functions[x] != True {
          count := count + 1;
        }
        x := x + 1;
      }
    }

    // ----- ExQuantify -----

    // The guard of do_exquantify.cc.
    predicate Qualifies(j: nat, i: nat)
      requires j < |formula.length| && j < |formula.functionType| && j < |formula.equalityVble|
      reads formula
    {
      GivesUp(limits, formula.length[j], formula.functionType[j], formula.equalityVble[j], i)
    }

    // Variable v is open, in function j alone, and that function gives it up.
    ghost predicate MayLetGo(s: Stage, j: nat, v: nat) {
      Sized(RulesFor(0), s) && Allowed(RulesFor(0), s, LetGo(j, v))
    }

    // Closed, in several functions or in none, or refused by its only one.
    ghost predicate KeptAt(s: Stage, v: nat) {
      forall j: nat {:trigger MayLetGo(s, j, v)} :: !MayLetGo(s, j, v)
    }

    // So are all variables below bound.
    ghost predicate Singled(s: Stage, bound: nat) {
      forall v: nat {:trigger KeptAt(s, v)} :: 1 <= v < bound ==> KeptAt(s, v)
    }

    // The function that does not define its variable any more loses it.
    method QuantifyGiven(j: nat, h: nat) returns (r: PrepResult)
      requires Valid() && InStep() && j < |formula.functions| && h <= formula.numinp
      requires OnlyIn(formula.functions, j, h) && h in Support(formula.functions[j])
      modifies this, formula, formula.amount, formula.amount.lists, formula.amount.repr
      ensures fresh(formula.amount.repr - old(formula.amount.repr)) && Valid()
      ensures State() == AfterQuantify(RulesFor(0), Retyped(old(State()), j, old(formula.functionType[j]), 0), j, h)
      ensures old(Quiet()) ==> Quiet()
      ensures Measure(formula.functions) < old(Measure(formula.functions))
      ensures (r == Unsat && False in formula.functions) || (r == NoChange && InStep())
    {
      formula.SetType(j, formula.functionType[j], 0);
      r := Quantify(j, h, 0);
    }

    // Steps of this loop lead from s to t.
    ghost predicate LetGoRunTo(s: Stage, t: Stage) {
      LetGoRun(RulesFor(0), s, t)
    }

    lemma LetGoRunJoin(s: Stage, t: Stage, u: Stage)
      requires LetGoRunTo(s, t) && LetGoRunTo(t, u)
      ensures LetGoRunTo(s, u)
    {
      LetGoRunMore(RulesFor(0), s, t, u);
    }

    // The function a variable occurs in alone, if there is one that gives it up.
    method GivenUpBy(i: nat) returns (found: bool, j: nat)
      requires Valid() && InStep() && 1 <= i <= formula.numinp
      ensures found ==> MayLetGo(State(), j, i)
      ensures !found ==> KeptAt(State(), i)
    {
      found, j := false, 0;
      StateRight(0);
      if Open(i) {
        if formula.amount.occurs[i] == 1 {
          var k;
          k, j := First(i);
          OccursOnce(i, j);
          found := Qualifies(j, i);
          LengthIs(j);
          OnlyThere(i, j);
        } else {
          NotAlone(i);
        }
      }
    }

    // A variable of function j alone is in no other function alone.
    lemma OnlyThere(i: nat, j: nat)
      requires j < |formula.functions| && OnlyIn(formula.functions, j, i) && i in Support(formula.functions[j])
      ensures forall k: nat :: MayLetGo(State(), k, i) ==> k == j
    {
    }

    // Variable i goes because its only function gives it up, or nothing changes because
    // no function does.
    ghost predicate SingleStep(s: Stage, t: Stage, i: nat, gone: bool) {
      if gone then exists j: nat :: MayLetGo(s, j, i) && t == After(RulesFor(0), s, LetGo(j, i))
      else t == s && KeptAt(s, i)
    }

    // The loop body of ExQuantify after nCtrlC has been read.
    method QuantifySingle(i: nat) returns (r: PrepResult, gone: bool)
      requires Valid() && InStep() && 1 <= i <= formula.numinp
      modifies this, formula, formula.amount, formula.amount.lists, formula.amount.repr
      ensures fresh(formula.amount.repr - old(formula.amount.repr)) && Valid()
      ensures old(Quiet()) ==> Quiet()
      ensures gone ==> Measure(formula.functions) < old(Measure(formula.functions))
      ensures SingleStep(old(State()), State(), i, gone) && (!gone ==> r == NoChange)
      ensures (r == Unsat && False in formula.functions) || (r == NoChange && InStep())
    {
      var j;
      gone, j := GivenUpBy(i);
      r := NoChange;
      if gone {
        ghost var s := State();
        r := QuantifyGiven(j, i);
        assert MayLetGo(s, j, i) && State() == After(RulesFor(0), s, LetGo(j, i));
      }
    }

    // A variable listed more than once, or not at all, is in no function alone.
    lemma NotAlone(i: nat)
      requires Valid() && InStep() && i <= formula.numinp && formula.amount.occurs[i] != 1
      ensures forall j: nat :: j < |formula.functions| && OnlyIn(formula.functions, j, i) ==> i !in Support(formula.functions[j])
    {
      ListMembers(i);
      var list := formula.amount.Amount()[i];
      assert ListedRight(list, formula.functions, i);
      forall j: nat | j < |formula.functions| && OnlyIn(formula.functions, j, i) ensures i !in Support(formula.functions[j]) {
        if i in Support(formula.functions[j]) {
          assert j in list;
          forall q | 0 <= q < |list| ensures list[q] == j {
            assert list[q] in list;
          }
          OnlyMember(list, j);
        }
      }
    }

    // The pass from start has come to s and variable i.
    ghost predicate Passing(start: Stage, s: Stage, i: nat, again: bool) {
      && LetGoRunTo(start, s)
      && if again then Measure(s.fs) < Measure(start.fs) else s == start && Singled(s, i)
    }

    lemma SingledMore(s: Stage, i: nat)
      requires Singled(s, i) && KeptAt(s, i)
      ensures Singled(s, i + 1)
    {
    }

    lemma PassMore(start: Stage, s: Stage, t: Stage, i: nat, again: bool, gone: bool)
      requires Passing(start, s, i, again) && SingleStep(s, t, i, gone) && (gone ==> Measure(t.fs) < Measure(s.fs))
      ensures Passing(start, t, i + 1, again || gone)
    {
      if gone {
        var j: nat :| MayLetGo(s, j, i) && t == After(RulesFor(0), s, LetGo(j, i));
        LetGoRunOne(RulesFor(0), s, LetGo(j, i));
        LetGoRunJoin(start, s, t);
      } else if !again {
        SingledMore(s, i);
      }
    }

    // One pass over the variables: those listed once go away, if their function gives them up.
    method ExQuantifyPass() returns (r: PrepResult, loopAgain: bool)
      requires Valid() && InStep()
      modifies this, formula, formula.amount, formula.amount.lists, formula.amount.repr
      ensures fresh(formula.amount.repr - old(formula.amount.repr)) && Valid()
      ensures LetGoRunTo(old(State()), State())
      ensures old(Quiet()) ==> Quiet()
      ensures Measure(formula.functions) <= old(Measure(formula.functions))
      ensures loopAgain ==> Measure(formula.functions) < old(Measure(formula.functions))
      ensures (r == Unsat && False in formula.functions) || (r == NoChange && InStep())
      ensures r == NoChange && !loopAgain && old(Quiet()) ==> Singled(State(), formula.numinp + 1)
      ensures r == NoChange && !loopAgain ==> State() == old(State())
    {
      r, loopAgain := NoChange, false;
      var i: nat := 1;
      ghost var start := State();
      StateRight(0);
      LetGoRunNone(RulesFor(0), start);
      while i < formula.numinp + 1
        invariant 1 <= i <= formula.numinp + 1 && Valid() && InStep() && r == NoChange
        invariant fresh(formula.amount.repr - old(formula.amount.repr)) && (old(Quiet()) ==> Quiet())
        invariant Passing(start, State(), i, loopAgain)
      {
        Poll();
        if nCtrlC {
          nCtrlC := false;
          break;
        }
        var gone;
        ghost var s := State();
        r, gone := QuantifySingle(i);
        PassMore(start, s, State(), i, loopAgain, gone);
        loopAgain := loopAgain || gone;
        if r == Unsat {
          break;
        }
        i := i + 1;
      }
    }

    // Passes until one finds nothing to quantify.
    method ExQuantify() returns (r: PrepResult)
      requires Valid() && InStep()
      modifies this, formula, formula.amount, formula.amount.lists, formula.amount.repr
      ensures fresh(formula.amount.repr - old(formula.amount.repr)) && Valid()
      ensures LetGoRunTo(old(State()), State())
      ensures old(Quiet()) ==> Quiet()
      ensures r == ChangedSome ==> Measure(formula.functions) < old(Measure(formula.functions))
      ensures r == NoChange ==> State() == old(State())
      ensures (r == Unsat && False in formula.functions) || ((r == NoChange || r == ChangedSome) && InStep())
      ensures r != Unsat && old(Quiet()) ==> Singled(State(), formula.numinp + 1)
    {
      r := NoChange;
      var loopAgain := true;
      ghost var start := State();
      StateRight(0);
      LetGoRunNone(RulesFor(0), start);
      while loopAgain
        invariant Valid() && InStep() && (r == NoChange || r == ChangedSome)
        invariant fresh(formula.amount.repr - old(formula.amount.repr)) && (old(Quiet()) ==> Quiet())
        invariant LetGoRunTo(start, State())
        invariant if r == ChangedSome then Measure(formula.functions) < Measure(start.fs) else State() == start
        invariant !loopAgain && old(Quiet()) ==> Singled(State(), formula.numinp + 1)
        decreases Measure(formula.functions), loopAgain
      {
        var r1;
        ghost var s := State();
        r1, loopAgain := ExQuantifyPass();
        LetGoRunJoin(start, s, State());
        if r1 == Unsat {
          return Unsat;
        }
        if loopAgain {
          r := ChangedSome;
        }
      }
    }

    // Unless the user breaks in, every open variable that is left in one function only
    // is refused by that function.
    method DoExQuantify() returns (r: PrepResult)
      requires Valid() && InStep()
      modifies this, formula, formula.amount, formula.amount.lists, formula.amount.repr
      ensures fresh(formula.amount.repr - old(formula.amount.repr)) && Valid()
      ensures LetGoRunTo(old(State()), State())
      ensures r == Unsat ==> forall a: Assignment :: !Joint(original, a)
      ensures r != Unsat ==> InStep()
      ensures r == Unsat || r == NoChange || r == ChangedSome
      ensures r == ChangedSome ==> Measure(formula.functions) < old(Measure(formula.functions))
      ensures r == NoChange ==> State() == old(State())
      ensures r != Unsat && old(Quiet()) ==> Singled(State(), formula.numinp + 1)
    {
      var cofs := ChangedSome;
      r := NoChange;
      ghost var start := State();
      StateRight(0);
      LetGoRunNone(RulesFor(0), start);
      while cofs != NoChange
        invariant Valid() && InStep() && fresh(formula.amount.repr - old(formula.amount.repr)) && (old(Quiet()) ==> Quiet())
        invariant LetGoRunTo(start, State())
        invariant cofs == NoChange && old(Quiet()) ==> Singled(State(), formula.numinp + 1)
        invariant cofs == NoChange || cofs == ChangedSome
        invariant r == NoChange || r == ChangedSome
        invariant Measure(formula.functions) <= old(Measure(formula.functions))
        invariant r == ChangedSome ==> Measure(formula.functions) < old(Measure(formula.functions))
        invariant r == NoChange ==> State() == start
        decreases if cofs == NoChange then 0 else 1 + Measure(formula.functions)
      {
        ghost var s := State();
        cofs := ExQuantify();
        LetGoRunJoin(start, s, State());
        if cofs == ChangedSome {
          r := ChangedSome;
        } else if cofs == Unsat {
          FalseMeansUnsat();
          return Unsat;
        }
      }
    }
  }

  // Variable v is closed, gone or stuck.
  ghost predicate SettledAt(v: nat, fs: seq<Bdd>, trueFalse: seq<int>, equalvars: seq<int>, maxLen: int)
    requires |trueFalse| == |equalvars|
  {
    0 < v < |trueFalse| && OpenIn(trueFalse, equalvars, v) && v in Live(fs) ==> Stuck(fs, v, maxLen)
  }

  // The order leaves no variable out that occurs.
  ghost predicate Complete(order: seq<nat>, fs: seq<Bdd>, numinp: nat) {
    forall v: nat :: v <= numinp && v in Live(fs) ==> v in order
  }

  lemma OnlyMember(list: seq<nat>, j: nat)
    requires NoDuplicates(list) && list != [] && forall q :: 0 <= q < |list| ==> list[q] == j
    ensures |list| == 1
  {
    var first, last := list[0], list[|list| - 1];
  }

  // Only function j differs, and the problem has not grown.
  ghost predicate OnlyChanges(fs: seq<Bdd>, gs: seq<Bdd>, j: nat) {
    && |gs| == |fs| && Measure(gs) <= Measure(fs)
    && forall x :: 0 <= x < |fs| && x != j ==> gs[x] == fs[x]
  }

  // Variable v is in two functions, one of them longer than the limit.
  // The walk has met only j so far.
  ghost predicate Before(list: seq<nat>, j: nat, p: nat) {
    forall q :: 0 <= q < p && q < |list| ==> list[q] == j
  }

  ghost predicate Stuck(fs: seq<Bdd>, v: nat, maxLen: int) {
    exists z, j :: Apart(fs, v, maxLen, z, j)
  }

  ghost predicate Apart(fs: seq<Bdd>, v: nat, maxLen: int, z: int, j: int) {
    && 0 <= z < |fs| && 0 <= j < |fs| && z != j && v in Support(fs[z]) && v in Support(fs[j])
    && |Vars(fs[z])| > maxLen
  }

  // z has become true, j has changed, nothing else has.
  ghost predicate TakenIn(fs: seq<Bdd>, gs: seq<Bdd>, j: nat, z: nat) {
    && |gs| == |fs| && Measure(gs) <= Measure(fs) && z < |fs| && gs[z] == True
    && forall x :: 0 <= x < |fs| && x != j && x != z ==> gs[x] == fs[x]
  }

  lemma MergeStep(original: seq<Bdd>, fs: seq<Bdd>, q: iset<nat>, j: nat, z: nat, numinp: nat)
    requires Eliminated(original, fs, q) && j < |fs| && z < |fs| && j != z && fs[z] != True
    requires Within(fs[j], numinp) && Within(fs[z], numinp)
    ensures Eliminated(original, MergedInto(fs, j, z), q) && Measure(MergedInto(fs, j, z)) <= Measure(fs)
    ensures fs[j] != True ==> Measure(MergedInto(fs, j, z)) < Measure(fs)
    ensures Within(And(fs[j], fs[z]), numinp)
    ensures MergedInto(fs, j, z)[j] == And(fs[j], fs[z])
  {
    MergeEliminates(original, fs, q, j, z);
    MergeShrinks(fs, j, z);
    AndRobdd(fs[j], fs[z]);
  }

  lemma QuantifyStep(original: seq<Bdd>, fs: seq<Bdd>, q: iset<nat>, j: nat, h: nat, numinp: nat)
    requires Eliminated(original, fs, q) && j < |fs| && OnlyIn(fs, j, h) && h in Support(fs[j]) && Within(fs[j], numinp)
    ensures Eliminated(original, fs[j := Exists(fs[j], h)], q + iset{h}) && Measure(fs[j := Exists(fs[j], h)]) < Measure(fs)
    ensures Within(Exists(fs[j], h), numinp)
  {
    QuantifyEliminates(original, fs, q, j, h);
    QuantifyShrinks(fs, j, h);
    ExistsRobdd(fs[j], h);
  }

  // A proper subset has fewer members.
  lemma SmallerSet(s: set<nat>, t: set<nat>)
    requires s < t
    ensures |s| < |t|
  {
    assert t == s + (t - s);
    var x :| x in t - s;
    assert |t - s| > 0;
  }
}
