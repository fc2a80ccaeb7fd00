// The index part of Rebuild_BDDx (src/preproc/do_applyinfs.cc): after function x
// has changed, the lists of its old and new variables are brought up to date.

module OccurrenceIndex {
  import opened Basics
  import opened Bdd
  import opened Clauses
  import opened OccurrenceLists

  // A list after x left a variable, joined it, or neither.
  function Changed(s: seq<nat>, x: nat, leaves: bool, joins: bool): seq<nat> {
    if leaves then Without(s, x) else if joins then s + [x] else s
  }

  // Where the merge of the sorted lists was and now stands: everything before
  // position b of was and position a of now is done.
  ghost predicate Merging(was: seq<nat>, now: seq<nat>, b: nat, a: nat) {
    && b <= |was| && a <= |now|
    && (forall i :: 0 <= i < a ==> b < |was| ==> now[i] < was[b])
    && forall i :: 0 <= i < b ==> a < |now| ==> was[i] < now[a]
  }

  ghost predicate Merged(amount: seq<seq<nat>>, before: seq<seq<nat>>, x: nat, was: seq<nat>, now: seq<nat>, b: nat, a: nat)
    requires b <= |was| && a <= |now|
  {
    |amount| == |before| && forall v: nat :: v < |amount| ==> MergedAt(amount, before, x, was, now, b, a, v)
  }

  ghost predicate MergedAt(amount: seq<seq<nat>>, before: seq<seq<nat>>, x: nat, was: seq<nat>, now: seq<nat>, b: nat, a: nat, v: nat)
    requires b <= |was| && a <= |now| && v < |amount| == |before|
  {
    amount[v] == Changed(before[v], x, v in was[..b] && v !in now, v in now[..a] && v !in was)
  }

  lemma TakeMember(s: seq<nat>, k: nat, v: nat)
    requires k < |s|
    ensures v in s[..k + 1] <==> v in s[..k] || v == s[k]
  {
    assert s[..k + 1] == s[..k] + [s[k]];
  }

  lemma NextIsNew(s: seq<nat>, k: nat)
    requires Ascending(s) && k < |s|
    ensures s[k] !in s[..k]
  {
  }

  // was[b] does not occur in now: it lies strictly between two neighbours.
  lemma Leaves(was: seq<nat>, now: seq<nat>, b: nat, a: nat)
    requires Ascending(was) && Ascending(now) && Merging(was, now, b, a) && b < |was|
    requires a < |now| ==> now[a] > was[b]
    ensures was[b] !in now && Merging(was, now, b + 1, a)
  {
  }

  lemma Joins(was: seq<nat>, now: seq<nat>, b: nat, a: nat)
    requires Ascending(was) && Ascending(now) && Merging(was, now, b, a) && a < |now|
    requires b < |was| ==> now[a] < was[b]
    ensures now[a] !in was && Merging(was, now, b, a + 1)
  {
  }

  lemma Stays(was: seq<nat>, now: seq<nat>, b: nat, a: nat)
    requires Ascending(was) && Ascending(now) && Merging(was, now, b, a) && a < |now| && b < |was|
    requires now[a] == was[b]
    ensures Merging(was, now, b + 1, a + 1)
  {
  }

  lemma MergedLeaves(amount: seq<seq<nat>>, before: seq<seq<nat>>, x: nat, was: seq<nat>, now: seq<nat>, b: nat, a: nat)
    requires Ascending(was) && b < |was| && a <= |now| && was[b] < |amount| && was[b] !in now
    requires Merged(amount, before, x, was, now, b, a)
    ensures Merged(amount[was[b] := Without(amount[was[b]], x)], before, x, was, now, b + 1, a)
  {
    var amount' := amount[was[b] := Without(amount[was[b]], x)];
    var b' := b + 1;
    NextIsNew(was, b);
    forall v: nat | v < |amount| ensures MergedAt(amount', before, x, was, now, b', a, v) {
      assert MergedAt(amount, before, x, was, now, b, a, v);
      TakeMember(was, b, v);
    }
  }

  lemma MergedJoins(amount: seq<seq<nat>>, before: seq<seq<nat>>, x: nat, was: seq<nat>, now: seq<nat>, b: nat, a: nat)
    requires Ascending(now) && b <= |was| && a < |now| && now[a] < |amount| && now[a] !in was
    requires Merged(amount, before, x, was, now, b, a)
    ensures Merged(amount[now[a] := amount[now[a]] + [x]], before, x, was, now, b, a + 1)
  {
    var amount' := amount[now[a] := amount[now[a]] + [x]];
    var a' := a + 1;
    NextIsNew(now, a);
    forall v: nat | v < |amount| ensures MergedAt(amount', before, x, was, now, b, a', v) {
      assert MergedAt(amount, before, x, was, now, b, a, v);
      TakeMember(now, a, v);
      assert v in was[..b] ==> v in was;
    }
  }

  lemma MergedStays(amount: seq<seq<nat>>, before: seq<seq<nat>>, x: nat, was: seq<nat>, now: seq<nat>, b: nat, a: nat)
    requires b < |was| && a < |now| && now[a] == was[b]
    requires Merged(amount, before, x, was, now, b, a)
    ensures Merged(amount, before, x, was, now, b + 1, a + 1)
  {
    var b', a' := b + 1, a + 1;
    forall v: nat | v < |amount| ensures MergedAt(amount, before, x, was, now, b', a', v) {
      assert MergedAt(amount, before, x, was, now, b, a, v);
      TakeMember(was, b, v);
      TakeMember(now, a, v);
    }
  }

  ghost predicate Below(s: seq<nat>, n: nat) {
    forall i :: 0 <= i < |s| ==> s[i] < n
  }

  // x leaves the list of was[b].
  method DropNext(amount: Occurrences, x: nat, was: seq<nat>, ghost now: seq<nat>, b: nat, ghost a: nat, ghost before: seq<seq<nat>>)
    requires amount.Valid() && Ascending(was) && Ascending(now) && Below(was, |amount.lists|)
    requires Merging(was, now, b, a) && b < |was| && (a < |now| ==> now[a] > was[b])
    requires Merged(amount.Amount(), before, x, was, now, b, a)
    modifies amount, amount.lists, amount.repr
    ensures amount.Valid() && fresh(amount.repr - old(amount.repr)) && Merging(was, now, b + 1, a)
    ensures Merged(amount.Amount(), before, x, was, now, b + 1, a)
  {
    Leaves(was, now, b, a);
    MergedLeaves(amount.Amount(), before, x, was, now, b, a);
    assert amount.ValidAt(was[b]);
    amount.Drop(was[b], x);
  }

  // x joins the list of now[a].
  method AddNext(amount: Occurrences, x: nat, ghost was: seq<nat>, now: seq<nat>, ghost b: nat, a: nat, ghost before: seq<seq<nat>>)
    requires amount.Valid() && Ascending(was) && Ascending(now) && Below(now, |amount.lists|)
    requires Merging(was, now, b, a) && a < |now| && (b < |was| ==> now[a] < was[b])
    requires Merged(amount.Amount(), before, x, was, now, b, a)
    modifies amount, amount.lists, amount.repr
    ensures amount.Valid() && fresh(amount.repr - old(amount.repr)) && Merging(was, now, b, a + 1)
    ensures Merged(amount.Amount(), before, x, was, now, b, a + 1)
  {
    Joins(was, now, b, a);
    MergedJoins(amount.Amount(), before, x, was, now, b, a);
    assert amount.ValidAt(now[a]);
    amount.Add(now[a], x);
  }

  // One turn of the first merge loop.
  method MergeNext(amount: Occurrences, x: nat, was: seq<nat>, now: seq<nat>, b: nat, a: nat, ghost before: seq<seq<nat>>)
    returns (b': nat, a': nat)
    requires amount.Valid() && Ascending(was) && Ascending(now) && Below(was, |amount.lists|) && Below(now, |amount.lists|)
    requires Merging(was, now, b, a) && b < |was| && a < |now|
    requires Merged(amount.Amount(), before, x, was, now, b, a)
    modifies amount, amount.lists, amount.repr
    ensures amount.Valid() && fresh(amount.repr - old(amount.repr)) && Merging(was, now, b', a')
    ensures Merged(amount.Amount(), before, x, was, now, b', a') && b' + a' > b + a
  {
    b', a' := b, a;
    if now[a] > was[b] {
      DropNext(amount, x, was, now, b, a, before);
      b' := b + 1;
    } else if now[a] < was[b] {
      AddNext(amount, x, was, now, b, a, before);
      a' := a + 1;
    } else {
      Stays(was, now, b, a);
      MergedStays(amount.Amount(), before, x, was, now, b, a);
      b', a' := b + 1, a + 1;
    }
  }

  // The second loop: only old variables are left.
  method DropRest(amount: Occurrences, x: nat, was: seq<nat>, ghost now: seq<nat>, b0: nat, ghost a: nat, ghost before: seq<seq<nat>>)
    requires amount.Valid() && Ascending(was) && Ascending(now) && Below(was, |amount.lists|)
    requires Merging(was, now, b0, a) && (b0 < |was| ==> a == |now|)
    requires Merged(amount.Amount(), before, x, was, now, b0, a)
    modifies amount, amount.lists, amount.repr
    ensures amount.Valid() && fresh(amount.repr - old(amount.repr)) && Merging(was, now, |was|, a)
    ensures Merged(amount.Amount(), before, x, was, now, |was|, a)
  {
    var b := b0;
    while b < |was|
      invariant Merging(was, now, b, a) && amount.Valid() && fresh(amount.repr - old(amount.repr))
      invariant Merged(amount.Amount(), before, x, was, now, b, a) && (b < |was| ==> a == |now|)
    {
      DropNext(amount, x, was, now, b, a, before);
      b := b + 1;
    }
  }

  // The third loop: only new variables are left.
  method AddRest(amount: Occurrences, x: nat, ghost was: seq<nat>, now: seq<nat>, ghost b: nat, a0: nat, ghost before: seq<seq<nat>>)
    requires amount.Valid() && Ascending(was) && Ascending(now) && Below(now, |amount.lists|)
    requires Merging(was, now, b, a0) && b == |was|
    requires Merged(amount.Amount(), before, x, was, now, b, a0)
    modifies amount, amount.lists, amount.repr
    ensures amount.Valid() && fresh(amount.repr - old(amount.repr))
    ensures Merged(amount.Amount(), before, x, was, now, b, |now|)
  {
    var a := a0;
    while a < |now|
      invariant Merging(was, now, b, a) && amount.Valid() && fresh(amount.repr - old(amount.repr))
      invariant Merged(amount.Amount(), before, x, was, now, b, a)
    {
      AddNext(amount, x, was, now, b, a, before);
      a := a + 1;
    }
  }

  // The three merge loops.
  method MergeLists(amount: Occurrences, x: nat, was: seq<nat>, now: seq<nat>)
    requires amount.Valid() && Ascending(was) && Ascending(now)
    requires Below(was, |amount.lists|) && Below(now, |amount.lists|)
    modifies amount, amount.lists, amount.repr
    ensures amount.Valid() && fresh(amount.repr - old(amount.repr))
    ensures Merged(amount.Amount(), old(amount.Amount()), x, was, now, |was|, |now|)
  {
    ghost var before := amount.Amount();
    var a: nat, b: nat := 0, 0;
    while a < |now| && b < |was|
      invariant Merging(was, now, b, a) && amount.Valid() && fresh(amount.repr - old(amount.repr))
      invariant Merged(amount.Amount(), before, x, was, now, b, a)
      decreases |now| + |was| - (b + a)
    {
      b, a := MergeNext(amount, x, was, now, b, a, before);
    }
    DropRest(amount, x, was, now, b, a, before);
    AddRest(amount, x, was, now, |was|, a, before);
  }

  // ----- the index and the functions -----

  // functionType; kinds that no code here asks for are told apart by their number.
  datatype FunctionType = Unsure | PlainOr | PlainXor | Xdd | Other(kind: nat)

  datatype PrepResult = Unsat | Sat | ChangedSome | NoChange

  ghost predicate Within(f: Bdd, numinp: nat) {
    Robdd(f) && forall v :: v in Support(f) ==> 1 <= v <= numinp
  }

  // The list of v holds exactly the functions that mention v, each once.
  ghost predicate ListedRight(list: seq<nat>, functions: seq<Bdd>, v: nat) {
    NoDuplicates(list) && forall x: nat :: x in list <==> x < |functions| && v in Support(functions[x])
  }

  ghost predicate IndexExact(amount: seq<seq<nat>>, functions: seq<Bdd>, numinp: nat) {
    |amount| == numinp + 1 && forall v: nat {:trigger ListedRight(amount[v], functions, v)} :: v < |amount| ==> ListedRight(amount[v], functions, v)
  }

  // The sorted support kept for function x; nothing yet for a new function.
  ghost predicate VariablesRight(variables: Option<seq<nat>>, length: nat, f: Bdd) {
    match variables
    case None => f == True
    case Some(vars) => vars == Vars(f) && length == |vars|
  }

  ghost predicate AllListed(variables: seq<Option<seq<nat>>>, length: seq<nat>, fs: seq<Bdd>, numinp: nat)
    requires |variables| == |length| == |fs|
  {
    forall x: nat {:trigger ListedAt(variables, length, fs, numinp, x)} :: x < |fs| ==> ListedAt(variables, length, fs, numinp, x)
  }

  ghost predicate ListedAt(variables: seq<Option<seq<nat>>>, length: seq<nat>, fs: seq<Bdd>, numinp: nat, x: nat)
    requires x < |variables| == |length| == |fs|
  {
    VariablesRight(variables[x], length[x], fs[x]) && Within(fs[x], numinp)
  }

  ghost predicate AllWithin(fs: seq<Bdd>, numinp: nat) {
    forall x: nat {:trigger WithinAt(fs, numinp, x)} :: x < |fs| ==> WithinAt(fs, numinp, x)
  }

  ghost predicate WithinAt(fs: seq<Bdd>, numinp: nat, x: nat)
    requires x < |fs|
  {
    Within(fs[x], numinp)
  }

  lemma ListedUpdate(variables: seq<Option<seq<nat>>>, length: seq<nat>, fs: seq<Bdd>, numinp: nat, x: nat, vars: seq<nat>, f: Bdd)
    requires |variables| == |length| == |fs| && x < |fs| && AllListed(variables, length, fs, numinp)
    requires vars == Vars(f) && Within(f, numinp)
    ensures AllListed(variables[x := Some(vars)], length[x := |vars|], fs[x := f], numinp)
  {
    var vs, ls, gs := variables[x := Some(vars)], length[x := |vars|], fs[x := f];
    forall y: nat | y < |fs| ensures ListedAt(vs, ls, gs, numinp, y) {
      assert ListedAt(variables, length, fs, numinp, y);
    }
  }

  lemma ListedBefore(variables: seq<Option<seq<nat>>>, length: seq<nat>, fs: seq<Bdd>, numinp: nat, x: nat)
    requires |variables| == |length| == |fs| && x < |fs| && AllListed(variables, length, fs, numinp)
    ensures var was := if variables[x] == None then [] else variables[x].value;
            Ascending(was) && Below(was, numinp + 1) && forall v :: v in was <==> v in Support(fs[x])
  {
    assert ListedAt(variables, length, fs, numinp, x);
    VarsSupport(fs[x]);
  }

  lemma ListedAfter(fs: seq<Bdd>, numinp: nat, x: nat)
    requires x < |fs| && AllWithin(fs, numinp)
    ensures Ascending(Vars(fs[x])) && Below(Vars(fs[x]), numinp + 1) && forall v :: v in Vars(fs[x]) <==> v in Support(fs[x])
  {
    assert WithinAt(fs, numinp, x);
    VarsSupport(fs[x]);
  }

  lemma WithinUpdate(fs: seq<Bdd>, numinp: nat, x: nat, f: Bdd)
    requires x < |fs| && AllWithin(fs, numinp) && Within(f, numinp)
    ensures AllWithin(fs[x := f], numinp)
  {
    var gs := fs[x := f];
    forall y: nat | y < |fs| ensures WithinAt(gs, numinp, y) {
      assert WithinAt(fs, numinp, y);
    }
  }

  lemma ChangedRight(list: seq<nat>, functions: seq<Bdd>, x: nat, f: Bdd, v: nat)
    requires x < |functions| && ListedRight(list, functions, v)
    ensures ListedRight(Changed(list, x, v in Support(functions[x]) && v !in Support(f), v in Support(f) && v !in Support(functions[x])),
                        functions[x := f], v)
  {
    WithoutHas(list, x);
    var joined := list + [x];
    assert forall y :: y in joined <==> y in list || y == x;
  }

  lemma IndexUpdated(amount: seq<seq<nat>>, before: seq<seq<nat>>, functions: seq<Bdd>, numinp: nat, x: nat, f: Bdd,
                     was: seq<nat>, now: seq<nat>)
    requires IndexExact(before, functions, numinp) && x < |functions|
    requires (forall v :: v in was <==> v in Support(functions[x])) && (forall v :: v in now <==> v in Support(f))
    requires Merged(amount, before, x, was, now, |was|, |now|)
    ensures IndexExact(amount, functions[x := f], numinp)
  {
    forall v: nat | v < |amount| ensures ListedRight(amount[v], functions[x := f], v) {
      assert MergedAt(amount, before, x, was, now, |was|, |now|, v);
      assert was[..|was|] == was && now[..|now|] == now;
      ChangedRight(before[v], functions, x, f, v);
    }
  }

  // The kinds once function x is listed anew; an XOR diagram stays one, and a false
  // function is not looked at.
  function KindsAfter(classify: Bdd -> (FunctionType, int), kinds: seq<FunctionType>, fs: seq<Bdd>, x: nat): (r: seq<FunctionType>)
    requires x < |fs| == |kinds|
    ensures |r| == |kinds|
  {
    if fs[x] == False || kinds[x].Xdd? then kinds else kinds[x := classify(fs[x]).0]
  }

  function EqualsAfter(classify: Bdd -> (FunctionType, int), kinds: seq<FunctionType>, equals: seq<int>, fs: seq<Bdd>, x: nat): (r: seq<int>)
    requires x < |fs| == |kinds| == |equals|
    ensures |r| == |equals|
  {
    if fs[x] == False || kinds[x].Xdd? then equals else equals[x := classify(fs[x]).1]
  }

  class Formula {
    const numinp: nat
    const amount: Occurrences
    var functions: seq<Bdd>
    var variables: seq<Option<seq<nat>>>
    var length: seq<nat>
    var functionType: seq<FunctionType>
    var equalityVble: seq<int>
    // findandset_fnType, or no more than Unsure where limits are not used.
    const classify: Bdd -> (FunctionType, int)
    // What the index says; it lags behind functions until the next rebuild.
    ghost var tracked: seq<Bdd>

    ghost predicate Valid()
      reads this, amount, amount.lists, amount.repr
    {
      && amount.Valid() && |functions| == |variables| == |length| == |tracked| == |functionType| == |equalityVble|
      && IndexExact(amount.Amount(), tracked, numinp)
      && AllListed(variables, length, tracked, numinp) && AllWithin(functions, numinp)
    }

    // No function is listed yet.
    constructor (numinp: nat, functions: seq<Bdd>, functionType: seq<FunctionType>, equalityVble: seq<int>,
                 classify: Bdd -> (FunctionType, int), amount: Occurrences)
      requires |functionType| == |functions| == |equalityVble|
      requires amount.Valid() && |amount.lists| == numinp + 1 && forall v :: 0 <= v <= numinp ==> amount.Amount()[v] == []
      requires forall x :: 0 <= x < |functions| ==> Within(functions[x], numinp)
      ensures Valid() && this.numinp == numinp && this.functions == functions && this.amount == amount
      ensures this.functionType == functionType && this.equalityVble == equalityVble && this.classify == classify
      ensures forall x :: 0 <= x < |functions| ==> variables[x] == None
    {
      this.numinp, this.functions, this.amount := numinp, functions, amount;
      this.functionType, this.equalityVble, this.classify := functionType, equalityVble, classify;
      variables := seq(|functions|, x => None);
      length := seq(|functions|, x => 0);
      tracked := seq(|functions|, x => True);
    }

    // functions[x] = f, before the index follows.
    method SetFunction(x: nat, f: Bdd)
      requires Valid() && x < |functions| && Within(f, numinp)
      modifies this`functions
      ensures Valid() && functions == old(functions)[x := f]
    {
      WithinUpdate(functions, numinp, x, f);
      functions := functions[x := f];
    }

    method SetType(x: nat, kind: FunctionType, equality: int)
      requires Valid() && x < |functions|
      modifies this`functionType, this`equalityVble
      ensures Valid() && functionType == old(functionType)[x := kind] && equalityVble == old(equalityVble)[x := equality]
    {
      functionType, equalityVble := functionType[x := kind], equalityVble[x := equality];
    }

    // Lists every function.
    method RebuildAll() returns (r: PrepResult)
      requires Valid()
      modifies this`variables, this`length, this`tracked, this`functionType, this`equalityVble
      modifies amount, amount.lists, amount.repr
      ensures Valid() && fresh(amount.repr - old(amount.repr))
      ensures r == if False in functions then Unsat else NoChange
      ensures r == NoChange ==> tracked == functions
    {
      var x: nat := 0;
      while x < |functions|
        invariant x <= |functions| && Valid() && fresh(amount.repr - old(amount.repr))
        invariant False !in functions[..x] && tracked[..x] == functions[..x]
      {
        r := RebuildBDDx(x);
        if r == Unsat {
          return;
        }
        x := x + 1;
      }
      assert functions[..x] == functions && tracked[..x] == tracked;
      return NoChange;
    }

    method UpdateLists(x: nat, tempint: seq<nat>)
      requires Valid() && x < |functions| && tempint == Vars(functions[x])
      modifies amount, amount.lists, amount.repr
      ensures amount.Valid() && fresh(amount.repr - old(amount.repr))
      ensures IndexExact(amount.Amount(), tracked[x := functions[x]], numinp)
    {
      ListedBefore(variables, length, tracked, numinp, x);
      ListedAfter(functions, numinp, x);
      ghost var before := amount.Amount();
      if variables[x] != None {
        MergeLists(amount, x, variables[x].value, tempint);
        IndexUpdated(amount.Amount(), before, tracked, numinp, x, functions[x], variables[x].value, tempint);
      } else {
        ListNew(amount, x, tempint);
        IndexUpdated(amount.Amount(), before, tracked, numinp, x, functions[x], [], tempint);
      }
    }

    method Retype(x: nat)
      requires Valid() && x < |functions| && functions[x] != False
      modifies this`functionType, this`equalityVble
      ensures Valid() && functionType == KindsAfter(classify, old(functionType), functions, x)
      ensures equalityVble == EqualsAfter(classify, old(functionType), old(equalityVble), functions, x)
    {
      if functionType[x] != Xdd {
        functionType, equalityVble := functionType[x := classify(functions[x]).0], equalityVble[x := classify(functions[x]).1];
      }
    }

    // Rebuild_BDDx without inferences: a false function ends the run at once.
    method RebuildBDDx(x: nat) returns (r: PrepResult)
      requires Valid() && x < |functions|
      modifies this`variables, this`length, this`tracked, this`functionType, this`equalityVble
      modifies amount, amount.lists, amount.repr
      ensures r == if functions[x] == False then Unsat else NoChange
      ensures r == Unsat ==> unchanged(this) && amount.Valid() && amount.Amount() == old(amount.Amount()) && amount.repr == old(amount.repr)
      ensures Valid() && fresh(amount.repr - old(amount.repr))
      ensures r != Unsat ==> tracked == old(tracked)[x := functions[x]] && variables[x] == Some(Vars(functions[x]))
      ensures functionType == KindsAfter(classify, old(functionType), functions, x)
      ensures equalityVble == EqualsAfter(classify, old(functionType), old(equalityVble), functions, x)
    {
      if functions[x] == False {
        return Unsat;
      }
      var tempint := Vars(functions[x]);
      assert WithinAt(functions, numinp, x);
      UpdateLists(x, tempint);
      ListedUpdate(variables, length, tracked, numinp, x, tempint, functions[x]);
      length := length[x := |tempint|];
      variables := variables[x := Some(tempint)];
      tracked := tracked[x := functions[x]];
      Retype(x);
      return NoChange;
    }

    // functions[x] = f, and the index follows.
    method Replace(x: nat, f: Bdd) returns (r: PrepResult)
      requires Valid() && tracked == functions && x < |functions| && Within(f, numinp)
      modifies this`functions, this`variables, this`length, this`tracked, this`functionType, this`equalityVble
      modifies amount, amount.lists, amount.repr
      ensures Valid() && fresh(amount.repr - old(amount.repr)) && functions == old(functions)[x := f]
      ensures r == if f == False then Unsat else NoChange
      ensures r == NoChange ==> tracked == functions && variables[x] == Some(Vars(f))
      ensures functionType == KindsAfter(classify, old(functionType), functions, x)
      ensures equalityVble == EqualsAfter(classify, old(functionType), old(equalityVble), functions, x)
    {
      SetFunction(x, f);
      r := RebuildBDDx(x);
    }

    // Two functions change before either is listed anew: z becomes true, j becomes f.
    method ReplaceTwo(j: nat, z: nat, f: Bdd) returns (r: PrepResult)
      requires Valid() && tracked == functions && j < |functions| && z < |functions| && j != z && Within(f, numinp)
      modifies this`functions, this`variables, this`length, this`tracked, this`functionType, this`equalityVble
      modifies amount, amount.lists, amount.repr
      ensures Valid() && fresh(amount.repr - old(amount.repr)) && functions == old(functions)[j := f][z := True]
      ensures r == if f == False then Unsat else NoChange
      ensures r == NoChange ==> tracked == functions && variables[j] == Some(Vars(f))
      ensures functionType == KindsAfter(classify, KindsAfter(classify, old(functionType), functions, z), functions, j)
      ensures equalityVble == EqualsAfter(classify, KindsAfter(classify, old(functionType), functions, z),
                                          EqualsAfter(classify, old(functionType), old(equalityVble), functions, z), functions, j)
    {
      SetFunction(j, f);
      SetFunction(z, True);
      r := RebuildBDDx(z);
      r := RebuildBDDx(j);
    }
  }

  // A new function joins the lists of all its variables.
  method ListNew(amount: Occurrences, x: nat, now: seq<nat>)
    requires amount.Valid() && Ascending(now) && Below(now, |amount.lists|)
    modifies amount, amount.lists, amount.repr
    ensures amount.Valid() && fresh(amount.repr - old(amount.repr))
    ensures Merged(amount.Amount(), old(amount.Amount()), x, [], now, 0, |now|)
  {
    ghost var before := amount.Amount();
    var b: nat := 0;
    while b < |now|
      invariant Merging([], now, 0, b) && amount.Valid() && fresh(amount.repr - old(amount.repr))
      invariant Merged(amount.Amount(), before, x, [], now, 0, b)
    {
      AddNext(amount, x, [], now, 0, b, before);
      b := b + 1;
    }
  }
}
