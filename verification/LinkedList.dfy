/** The doubly linked list that holds the agent's sockets (dll.c, dll.h). */
module LinkedList {
  import opened Basics

  class ListNode<V> {
    var next: ListNode?<V>
    var prev: ListNode?<V>
    const value: V

    constructor (v: V)
      ensures next == null && prev == null && value == v
    {
      next, prev, value := null, null, v;
    }
  }

  // `ns` without its k-th element.
  function Without<T>(ns: seq<T>, k: nat): seq<T>
    requires k < |ns|
  {
    ns[..k] + ns[k + 1..]
  }

  // The elements of `s` for which `drop` does not hold.
  function Kept<V>(s: seq<V>, drop: V -> bool): seq<V> {
    if s == [] then [] else Kept(s[..|s| - 1], drop) + if drop(s[|s| - 1]) then [] else [s[|s| - 1]]
  }

  /** Every value that is not dropped is kept, as often as it was there, and no other. */
  lemma {:induction false} KeptExactly<V>(s: seq<V>, drop: V -> bool, x: V)
    ensures multiset(Kept(s, drop))[x] == if drop(x) then 0 else multiset(s)[x]
  {
    if s != [] {
      var before, y := s[..|s| - 1], s[|s| - 1];
      KeptExactly(before, drop, x);
      assert s == before + [y];
    }
  }

  ghost function ValuesOf<V>(ns: seq<ListNode<V>>): seq<V> {
    seq(|ns|, i requires 0 <= i < |ns| => ns[i].value)
  }

  ghost predicate Distinct<V>(ns: seq<ListNode<V>>) {
    forall i, j :: 0 <= i < j < |ns| ==> ns[i] != ns[j]
  }

  // The neighbours of the i-th node are what they should be.
  ghost predicate Linked<V>(ns: seq<ListNode<V>>, i: nat)
    requires i < |ns|
    reads ns[i]
  {
    && ns[i].prev == (if i == 0 then null else ns[i - 1])
    && ns[i].next == (if i == |ns| - 1 then null else ns[i + 1])
  }

  class List<V> {
    var count: nat
    var first: ListNode?<V>
    var last: ListNode?<V>
    ghost var nodes: seq<ListNode<V>>   // the nodes from first to last

    ghost predicate Valid()
      reads this, nodes
    {
      && count == |nodes|
      && first == (if nodes == [] then null else nodes[0])
      && last == (if nodes == [] then null else nodes[|nodes| - 1])
      && Distinct(nodes)
      && forall i :: 0 <= i < |nodes| ==> Linked(nodes, i)
    }

    // What the list holds, in order.
    ghost function Values(): seq<V>
      reads this
    {
      ValuesOf(nodes)
    }

    constructor ()
      ensures Valid() && nodes == []
    {
      count, first, last, nodes := 0, null, null, [];
    }

    // dll.c:64-82
    method Push(v: V) returns (node: ListNode<V>)
      requires Valid()
      modifies this, nodes
      ensures Valid() && fresh(node) && nodes == old(nodes) + [node] && Values() == old(Values()) + [v]
    {
      ghost var was := nodes;
      node := new ListNode(v);
      if last == null {
        first := node;
        last := node;
      } else {
        assert Linked(was, |was| - 1);
        last.next := node;
        node.prev := last;
        last := node;
      }
      count := count + 1;
      nodes := nodes + [node];
      forall i | 0 <= i < |nodes| ensures Linked(nodes, i) {
        if i < |was| { assert nodes[i] == was[i] && old(Linked(was, i)); }
      }
      assert ValuesOf(nodes) == ValuesOf(was) + [v];
    }

    // dll.c:90-110
    method Unshift(v: V)
      requires Valid()
      modifies this, nodes
      ensures Valid() && Values() == [v] + old(Values())
      ensures |nodes| == |old(nodes)| + 1 && fresh(nodes[0]) && nodes[1..] == old(nodes)
    {
      ghost var was := nodes;
      var node := new ListNode(v);
      if first == null {
        first := node;
        last := node;
      } else {
        node.next := first;
        first.prev := node;
        first := node;
      }
      count := count + 1;
      nodes := [node] + nodes;
      forall i | 0 <= i < |nodes| ensures Linked(nodes, i) {
        if i > 0 { assert nodes[i] == was[i - 1] && old(Linked(was, i - 1)); }
      }
      assert ValuesOf(nodes) == [v] + ValuesOf(was);
    }

    /** Any node can be taken out (dll.c:120-149); `k` says where it stood. */
    method Remove(node: ListNode<V>, ghost k: nat) returns (result: V)
      requires Valid() && k < |nodes| && nodes[k] == node
      modifies this, nodes
      ensures Valid() && nodes == Without(old(nodes), k)
      ensures result == node.value
    {
      ghost var was := nodes;
      assert Linked(was, k);
      if node == first && node == last {
        first := null;
        last := null;
      } else if node == first {
        first := node.next;
        first.prev := null;
      } else if node == last {
        last := node.prev;
        last.next := null;
      } else {
        var after, before := node.next, node.prev;
        after.prev := before;
        before.next := after;
      }
      count := count - 1;
      result := node.value;
      nodes := Without(nodes, k);
      WithoutDistinct(was, k);
      forall i | 0 <= i < |nodes| ensures Linked(nodes, i) {
        var j := if i < k then i else i + 1;
        assert nodes[i] == was[j] && old(Linked(was, j));
      }
    }

    // List_pop and List_shift both take the first element, if there is one (dll.c:84-88, 112-116).
    method Shift() returns (v: Option<V>)
      requires Valid()
      modifies this, nodes
      ensures Valid() && v == (if old(Values()) == [] then None else Some(old(Values())[0]))
      ensures Values() == if old(Values()) == [] then [] else old(Values())[1..]
    {
      if first == null {
        return None;
      }
      ghost var was := nodes;
      var value := Remove(first, 0);
      assert Without(was, 0) == was[1..];
      assert ValuesOf(was[1..]) == ValuesOf(was)[1..];
      return Some(value);
    }

    /** The iteration macro (dll.h:48-52) with a body that may remove the node it is given: every node there was
        at the start is visited, once and in order, and exactly those to be dropped are gone. */
    method ForEachRemove(drop: V -> bool) returns (visited: seq<V>)
      requires Valid()
      modifies this, nodes
      ensures Valid() && visited == old(Values()) && Values() == Kept(old(Values()), drop)
    {
      ghost var was := nodes;
      visited := [];
      var cur, next := first, first;
      ghost var k := 0;
      while next != null
        invariant k <= |was| && Valid() && Progress(was, k, nodes, drop)
        invariant cur == next == if k < |was| then was[k] else null
        invariant visited == ValuesOf(was[..k])
        decreases |was| - k
      {
        visited := visited + [cur.value];
        next := VisitNext(cur, was, k, drop);
        k := k + 1;
        cur := next;
      }
      assert was[..k] == was;
      KeptValues(was, drop);
    }

    // An unvisited node still points to the one that followed it at the start.
    lemma NextInLine(was: seq<ListNode<V>>, k: nat, drop: V -> bool)
      requires Valid() && k < |was| && Progress(was, k, nodes, drop)
      ensures was[k].next == if k + 1 < |was| then was[k + 1] else null
      ensures ValuesOf(was[..k + 1]) == ValuesOf(was[..k]) + [was[k].value]
    {
      var at := |KeptNodes(was[..k], drop)|;
      assert nodes[at] == was[k] && Linked(nodes, at);
      assert k + 1 < |was| ==> nodes[at + 1] == was[k + 1];
    }

    // One turn of the macro: the next node is looked up before the body runs.
    method VisitNext(cur: ListNode<V>, ghost was: seq<ListNode<V>>, ghost k: nat, drop: V -> bool)
      returns (next: ListNode?<V>)
      requires Valid() && k < |was| && cur == was[k] && Progress(was, k, nodes, drop)
      modifies this, was
      ensures Valid() && Progress(was, k + 1, nodes, drop)
      ensures next == if k + 1 < |was| then was[k + 1] else null
      ensures ValuesOf(was[..k + 1]) == ValuesOf(was[..k]) + [cur.value]
    {
      NextInLine(was, k, drop);
      next := cur.next;
      Visit(cur, was, k, drop);
    }

    // The body of the loop, given one node.
    method Visit(cur: ListNode<V>, ghost was: seq<ListNode<V>>, ghost k: nat, drop: V -> bool)
      requires Valid() && k < |was| && cur == was[k] && Progress(was, k, nodes, drop)
      modifies this, was
      ensures Valid() && Progress(was, k + 1, nodes, drop)
    {
      ProgressStep(was, k, nodes, drop);
      if drop(cur.value) {
        assert forall i :: 0 <= i < |nodes| ==> nodes[i] in was;
        var gone := Remove(cur, |KeptNodes(was[..k], drop)|);
      }
    }
  }

  // The nodes before `k` have been visited, the others have not.
  ghost predicate Progress<V>(was: seq<ListNode<V>>, k: nat, nodes: seq<ListNode<V>>, drop: V -> bool)
    requires k <= |was|
  {
    && nodes == KeptNodes(was[..k], drop) + was[k..]
    && forall n :: n in nodes ==> n in was
  }

  lemma ProgressStep<V>(was: seq<ListNode<V>>, k: nat, nodes: seq<ListNode<V>>, drop: V -> bool)
    requires k < |was| && Progress(was, k, nodes, drop)
    ensures var at := |KeptNodes(was[..k], drop)|;
      && at < |nodes| && nodes[at] == was[k]
      && Progress(was, k + 1, if drop(was[k].value) then Without(nodes, at) else nodes, drop)
  {
    var kept := KeptNodes(was[..k], drop);
    KeptNodesPush(was, k, drop);
    assert was[k..] == [was[k]] + was[k + 1..];
    assert nodes == kept + [was[k]] + was[k + 1..];
    assert Without(nodes, |kept|) == kept + was[k + 1..];
    assert forall n :: n in Without(nodes, |kept|) ==> n in nodes;
  }

  lemma WithoutDistinct<V>(ns: seq<ListNode<V>>, k: nat)
    requires k < |ns| && Distinct(ns)
    ensures Distinct(Without(ns, k))
  {
    var ms := Without(ns, k);
    forall i, j | 0 <= i < j < |ms| ensures ms[i] != ms[j] {
      assert ms[i] == ns[if i < k then i else i + 1] && ms[j] == ns[if j < k then j else j + 1];
    }
  }

  function KeptNodes<V>(ns: seq<ListNode<V>>, drop: V -> bool): seq<ListNode<V>> {
    if ns == [] then [] else KeptNodes(ns[..|ns| - 1], drop) + if drop(ns[|ns| - 1].value) then [] else [ns[|ns| - 1]]
  }

  lemma KeptNodesPush<V>(ns: seq<ListNode<V>>, k: nat, drop: V -> bool)
    requires k < |ns|
    ensures KeptNodes(ns[..k + 1], drop) == KeptNodes(ns[..k], drop) + if drop(ns[k].value) then [] else [ns[k]]
  {
    assert ns[..k + 1][..k] == ns[..k];
  }

  /** Keeping nodes keeps their values. */
  lemma {:induction false} KeptValues<V>(ns: seq<ListNode<V>>, drop: V -> bool)
    ensures ValuesOf(KeptNodes(ns, drop)) == Kept(ValuesOf(ns), drop)
  {
    if ns != [] {
      var before, n := ns[..|ns| - 1], ns[|ns| - 1];
      KeptValues(before, drop);
      assert ValuesOf(ns)[..|ns| - 1] == ValuesOf(before);
    }
  }
}
