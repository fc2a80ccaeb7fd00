// The lists amount[v] and the counters num_funcs_var_occurs[v]
// (src/preproc/do_applyinfs.cc): for each variable the functions that mention it.

module OccurrenceLists {
  import opened Basics

  class ListNode {
    const num: nat
    var next: ListNode?
    ghost const owner: LList

    constructor (num: nat, next: ListNode?, ghost owner: LList)
      ensures this.num == num && this.next == next && this.owner == owner
    {
      this.num, this.next, this.owner := num, next, owner;
    }
  }

  // The sequence without the first x.
  function Without(s: seq<nat>, x: nat): (r: seq<nat>) {
    if s == [] then [] else if s[0] == x then s[1..] else [s[0]] + Without(s[1..], x)
  }

  lemma HeadOnce(s: seq<nat>)
    requires NoDuplicates(s) && s != []
    ensures NoDuplicates(s[1..]) && s[0] !in s[1..]
    ensures forall y :: y in s <==> y == s[0] || y in s[1..]
  {
    assert s == [s[0]] + s[1..];
  }

  lemma Prepend(x: nat, t: seq<nat>)
    requires NoDuplicates(t) && x !in t
    ensures NoDuplicates([x] + t) && forall y :: y in [x] + t <==> y == x || y in t
  {
  }

  lemma {:induction false} WithoutHas(s: seq<nat>, x: nat)
    requires NoDuplicates(s)
    ensures NoDuplicates(Without(s, x))
    ensures forall y :: y in Without(s, x) <==> y in s && y != x
    ensures |Without(s, x)| == |s| - if x in s then 1 else 0
  {
    if s != [] {
      HeadOnce(s);
      if s[0] != x {
        WithoutHas(s[1..], x);
        Prepend(s[0], Without(s[1..], x));
      }
    }
  }

  lemma {:induction false} WithoutAt(s: seq<nat>, x: nat, k: nat)
    requires k < |s| && s[k] == x && x !in s[..k]
    ensures Without(s, x) == s[..k] + s[k + 1..]
  {
    if k > 0 {
      assert s[1..][..k - 1] == s[..k][1..];
      WithoutAt(s[1..], x, k - 1);
    }
  }

  lemma {:induction false} WithoutNone(s: seq<nat>, x: nat)
    requires x !in s
    ensures Without(s, x) == s
  {
    if s != [] {
      WithoutNone(s[1..], x);
    }
  }

  lemma Dropped(nodes: seq<ListNode>, p: nat, rest: seq<ListNode>)
    requires p < |nodes| && rest == nodes[..p] + nodes[p + 1..]
    requires forall i, j :: 0 <= i < j < |nodes| ==> nodes[i] != nodes[j]
    ensures forall i, j :: 0 <= i < j < |rest| ==> rest[i] != rest[j]
    ensures rest != [] ==> rest[0] == nodes[if p == 0 then 1 else 0]
    ensures rest != [] ==> rest[|rest| - 1] == nodes[if p == |nodes| - 1 then |nodes| - 2 else |nodes| - 1]
    ensures |rest| == |nodes| - 1 && forall i :: 0 <= i < |rest| ==> rest[i] == nodes[if i < p then i else i + 1]
  {
  }

  // A singly linked list with a pointer to its last node.
  class LList {
    var head: ListNode?
    var tail: ListNode?
    ghost var nodes: seq<ListNode>

    // Nodes are linked in order, and tail is the last one.
    ghost predicate Valid()
      reads this, nodes
    {
      && (forall i, j :: 0 <= i < j < |nodes| ==> nodes[i] != nodes[j])
      && (forall i :: 0 <= i < |nodes| ==> nodes[i].owner == this)
      && head == At(0) && tail == At(|nodes| - 1)
      && forall i :: 0 <= i < |nodes| ==> LinkedAt(i)
    }

    ghost predicate LinkedAt(i: int)
      requires 0 <= i < |nodes|
      reads this, nodes
    {
      nodes[i].next == At(i + 1)
    }

    // The node at a place, null outside.
    ghost function At(k: int): ListNode?
      reads this
    {
      if 0 <= k < |nodes| then nodes[k] else null
    }

    ghost function Contents(): (s: seq<nat>)
      reads this
      ensures |s| == |nodes|
    {
      seq(|nodes|, i requires 0 <= i < |nodes| reads this => nodes[i].num)
    }

    constructor ()
      ensures Valid() && nodes == [] && Contents() == []
    {
      head, tail, nodes := null, null, [];
    }

    // Appends at the tail.
    method Append(x: nat)
      requires Valid()
      modifies this, if tail == null then {} else {tail}
      ensures Valid() && Contents() == old(Contents()) + [x]
      ensures |nodes| == |old(nodes)| + 1 && nodes[..|old(nodes)|] == old(nodes) && fresh(nodes[|old(nodes)|])
    {
      var newllist := new ListNode(x, null, this);
      if head == null {
        head := newllist;
        tail := newllist;
      } else {
        tail.next := newllist;
        tail := newllist;
      }
      ghost var was := nodes;
      nodes := nodes + [newllist];
      forall i | 0 <= i < |nodes| ensures LinkedAt(i) {
        if i < |was| {
          assert old(LinkedAt(i));
        }
      }
    }

    // Takes out node k, which follows node follow.
    method Unlink(k: ListNode, follow: ListNode?, ghost p: nat)
      requires Valid() && p < |nodes| && k == nodes[p] && follow == At(p - 1)
      modifies this`head, this`tail, this`nodes, (if follow == null then {} else {follow})`next
      ensures Valid() && nodes == old(nodes)[..p] + old(nodes)[p + 1..]
    {
      ghost var was, rest := nodes, nodes[..p] + nodes[p + 1..];
      Dropped(was, p, rest);
      assert LinkedAt(p);
      var next := k.next;
      if follow != null {
        follow.next := next;
      } else {
        head := next;
      }
      if next == null {
        tail := follow;
      }
      nodes := rest;
      forall i | 0 <= i < |nodes| ensures LinkedAt(i) {
        assert old(LinkedAt(if i < p then i else i + 1));
        assert rest[i] == was[if i < p then i else i + 1];
      }
    }

    // Takes the node holding x out, if there is one.
    method Remove(x: nat) returns (found: bool)
      requires Valid()
      modifies this, nodes
      ensures Valid() && found == (x in old(Contents())) && Contents() == Without(old(Contents()), x)
      ensures forall n :: n in nodes ==> n in old(nodes)
      ensures |nodes| == |old(nodes)| - if found then 1 else 0
    {
      ghost var s := Contents();
      found := false;
      var k := head;
      var follow: ListNode? := null;
      ghost var p: nat := 0;
      while k != null
        invariant p <= |nodes| && k == At(p) && follow == At(p - 1)
        invariant x !in s[..p] && nodes == old(nodes) && Valid() && Contents() == s
        decreases |nodes| - p
      {
        if k.num == x {
          assert s[p] == x;
          WithoutAt(s, x, p);
          Unlink(k, follow, p);
          assert Contents() == s[..p] + s[p + 1..];
          return true;
        }
        assert LinkedAt(p);
        follow := k;
        k := k.next;
        p := p + 1;
      }
      assert s[..p] == s;
      WithoutNone(s, x);
    }
  }

  // All lists, by variable, and their lengths.
  class Occurrences {
    const lists: seq<LList>
    var occurs: seq<nat>
    ghost var repr: set<ListNode>

    ghost predicate Valid()
      reads this, lists, repr
    {
      && |occurs| == |lists|
      && (forall v: nat, w: nat {:trigger Different(v, w)} :: v < w < |lists| ==> Different(v, w))
      && forall v: nat {:trigger ValidAt(v)} :: v < |lists| ==> ValidAt(v)
    }

    ghost predicate Different(v: nat, w: nat)
      requires v < |lists| && w < |lists|
    {
      lists[v] != lists[w]
    }

    // The list of v is none of the others.
    lemma OnlyList(v: nat)
      requires Valid() && v < |lists|
      ensures forall w: nat :: w < |lists| && w != v ==> lists[w] != lists[v]
    {
      forall w: nat | w < |lists| && w != v ensures lists[w] != lists[v] {
        assert if v < w then Different(v, w) else Different(w, v);
      }
    }

    constructor (lists: seq<LList>)
      requires forall v, w :: 0 <= v < w < |lists| ==> lists[v] != lists[w]
      requires forall v :: 0 <= v < |lists| ==> lists[v].Valid() && lists[v].nodes == []
      ensures this.lists == lists && Valid() && repr == {}
      ensures forall v :: 0 <= v < |lists| ==> Amount()[v] == []
    {
      this.lists := lists;
      occurs := seq(|lists|, v => 0);
      repr := {};
      new;
      forall v: nat | v < |lists| ensures ValidAt(v) {
      }
    }

    ghost predicate ValidAt(v: nat)
      requires v < |lists| == |occurs|
      reads this, lists, repr
    {
      (forall n :: n in lists[v].nodes ==> n in repr) && lists[v].Valid() && occurs[v] == |lists[v].nodes|
    }

    ghost function Amount(): (s: seq<seq<nat>>)
      reads lists
      ensures |s| == |lists|
    {
      seq(|lists|, v requires 0 <= v < |lists| reads lists => lists[v].Contents())
    }

    // One list and its counter changed: the others are as before.
    twostate lemma OthersKept(v: nat)
      requires old(Valid()) && v < |lists| && |occurs| == |lists|
      requires forall n :: n in old(repr) ==> n in repr
      requires forall n :: n in old(repr) && n.owner != lists[v] ==> unchanged(n)
      requires forall w :: 0 <= w < |lists| && w != v ==> unchanged(lists[w]) && occurs[w] == old(occurs[w])
      requires ValidAt(v)
      ensures Valid()
      ensures forall w :: 0 <= w < |lists| && w != v ==> Amount()[w] == old(Amount()[w])
    {
      forall w | 0 <= w < |lists| ensures ValidAt(w) {
        if w != v {
          assert old(ValidAt(w));
        }
      }
    }

    // x is listed under v.
    method Add(v: nat, x: nat)
      requires Valid() && v < |lists|
      modifies this, lists[v], lists[v].nodes
      ensures Valid() && Amount() == old(Amount())[v := old(Amount())[v] + [x]]
      ensures fresh(repr - old(repr))
    {
      assert ValidAt(v);
      OnlyList(v);
      if lists[v].head == null {
        occurs := occurs[v := 1];
      } else {
        occurs := occurs[v := occurs[v] + 1];
      }
      lists[v].Append(x);
      repr := repr + (set n | n in lists[v].nodes);
      OthersKept(v);
    }

    // x is no longer listed under v.
    method Drop(v: nat, x: nat)
      requires Valid() && v < |lists|
      modifies this, lists[v], lists[v].nodes
      ensures Valid() && Amount() == old(Amount())[v := Without(old(Amount())[v], x)]
      ensures repr == old(repr)
    {
      assert ValidAt(v);
      OnlyList(v);
      var found := lists[v].Remove(x);
      if found {
        occurs := occurs[v := occurs[v] - 1];
      }
      OthersKept(v);
    }
  }

  method NewLists(n: nat) returns (lists: seq<LList>)
    ensures |lists| == n && forall v, w :: 0 <= v < w < n ==> lists[v] != lists[w]
    ensures forall v :: 0 <= v < n ==> lists[v].Valid() && lists[v].nodes == [] && fresh(lists[v])
  {
    lists := [];
    while |lists| < n
      invariant |lists| <= n && forall v, w :: 0 <= v < w < |lists| ==> lists[v] != lists[w]
      invariant forall v :: 0 <= v < |lists| ==> lists[v].Valid() && lists[v].nodes == [] && fresh(lists[v])
    {
      var list := new LList();
      lists := lists + [list];
    }
  }
}
