/** lib/list.c: the doubly linked list with two sentinels that lies under every queue, free list and cache.
    The links are part of the listed objects, so a node is on one list at a time; which list it is on, and
    where, is known only to the ghost sequence `chain`. */
module IntrusiveList {

  class Node {
    var prev: Node?
    var next: Node?

    constructor ()
    {
      prev, next := null, null;
    }
  }

  ghost predicate Distinct(q: seq<Node>) {
    forall i, j :: 0 <= i < j < |q| ==> q[i] != q[j]
  }

  class List {
    const head: Node
    const tail: Node
    ghost var chain: seq<Node>

    /** `chain` is head sentinel, nodes and tail sentinel without repetition, and prev and next are
        inverses of each other along it. */
    ghost predicate Valid()
      reads this`chain, chain
    {
      && |chain| >= 2 && chain[0] == head && chain[|chain| - 1] == tail && Distinct(chain)
      && chain[0].prev == null && chain[|chain| - 1].next == null
      && (forall i :: 0 <= i < |chain| - 1 ==> chain[i].next == chain[i + 1])
      && (forall i :: 0 < i < |chain| ==> chain[i].prev == chain[i - 1])
    }

    /** The list as a sequence. */
    ghost function Nodes(): seq<Node>
      requires |chain| >= 2
      reads this`chain
    {
      chain[1..|chain| - 1]
    }

    /** List_Init. */
    constructor ()
      ensures Valid() && Nodes() == [] && fresh(chain)
    {
      head := new Node();
      tail := new Node();
      new;
      head.prev := null;
      head.next := tail;
      tail.prev := head;
      tail.next := null;
      chain := [head, tail];
    }

    /** List_Push. Callers assert with List_Find that the node is not on the list. */
    method Push(node: Node)
      requires Valid() && node !in chain
      modifies this`chain, chain, node
      ensures Valid() && chain == old(chain)[..1] + [node] + old(chain)[1..]
      ensures Nodes() == [node] + old(Nodes())
    {
      ghost var was := chain;
      assert head.next == was[1];
      head.next.prev := node;
      node.prev := head;
      node.next := head.next;
      head.prev := null;
      head.next := node;
      chain := was[..1] + [node] + was[1..];
    }

    /** List_Append. */
    method Append(node: Node)
      requires Valid() && node !in chain
      modifies this`chain, chain, node
      ensures Valid() && chain == old(chain)[..|old(chain)| - 1] + [node] + old(chain)[|old(chain)| - 1..]
      ensures Nodes() == old(Nodes()) + [node]
    {
      ghost var was := chain;
      assert tail.prev == was[|was| - 2];
      tail.prev.next := node;
      node.prev := tail.prev;
      node.next := tail;
      tail.prev := node;
      tail.next := null;
      chain := was[..|was| - 1] + [node] + was[|was| - 1..];
      assert Nodes() == was[1..|was| - 1] + [node];
    }

    /** List_IsEmpty. */
    method IsEmpty() returns (empty: bool)
      requires Valid()
      ensures empty <==> Nodes() == []
    {
      assert head.next == chain[1];
      empty := head.next == tail;
    }

    /** List_Pop; an empty list fails the assertion. */
    method Pop() returns (node: Node)
      requires Valid() && Nodes() != []
      modifies this`chain, chain
      ensures Valid() && old(chain) == chain[..1] + [node] + chain[1..]
      ensures old(Nodes()) == [node] + Nodes() && node !in chain
    {
      assert head.next == chain[1];
      node := head.next;
      Remove(node, this, 1);
    }

    /** List_Find: a pointer walk that ends at the tail sentinel. */
    method Find(node: Node) returns (found: bool)
      requires Valid()
      ensures found <==> node in Nodes()
    {
      var n := head.next;
      ghost var i := 1;
      while n != tail
        invariant 1 <= i < |chain| && n == chain[i]
        invariant node !in chain[1..i]
        decreases |chain| - i
      {
        if n == node {
          assert Nodes()[i - 1] == node;
          return true;
        }
        n := n.next;
        i := i + 1;
      }
      found := false;
    }

    /** List_Traversal: the nodes handed to the function, in order. */
    method Traversal() returns (visited: seq<Node>)
      requires Valid()
      ensures visited == Nodes()
    {
      visited := [];
      var n := head.next;
      ghost var i := 1;
      while n != tail
        invariant 1 <= i < |chain| && n == chain[i]
        invariant visited == chain[1..i]
        decreases |chain| - i
      {
        visited := visited + [n];
        n := n.next;
        i := i + 1;
      }
    }
  }

  /** List_Remove is given the node only; which list it is on, and where, is for the proof. The links of
      the node itself are left as they were. */
  method Remove(node: Node, ghost list: List, ghost k: nat)
    requires list.Valid() && 0 < k < |list.chain| - 1 && list.chain[k] == node
    modifies list`chain, list.chain
    ensures list.Valid() && list.chain == old(list.chain)[..k] + old(list.chain)[k + 1..]
    ensures node !in list.chain && node.prev == old(node.prev) && node.next == old(node.next)
  {
    ghost var was := list.chain;
    assert node.prev == was[k - 1] && node.next == was[k + 1];
    node.prev.next := node.next;
    node.next.prev := node.prev;
    list.chain := was[..k] + was[k + 1..];
  }

  ghost predicate Apart(a: List, b: List)
    reads a`chain, b`chain
  {
    && (forall i :: 0 <= i < |a.chain| ==> a.chain[i] !in b.chain)
    && (forall i :: 0 <= i < |b.chain| ==> b.chain[i] !in a.chain)
  }

  /** The way of a task through Lock_V and Thread_UnBlock (sync.c:41-47, thread.c:222): off the front of
      one list, onto the front of another. Both stay well-linked and apart, and so does any third list. */
  method MoveToFront(source: List, target: List, third: List) returns (node: Node)
    requires source.Valid() && target.Valid() && third.Valid() && source.Nodes() != []
    requires source != target && target != third && source != third
    requires Apart(source, target) && Apart(target, third) && Apart(source, third)
    modifies source`chain, target`chain, source.chain, target.chain
    ensures source.Valid() && target.Valid() && third.Valid()
    ensures old(source.Nodes()) == [node] + source.Nodes() && target.Nodes() == [node] + old(target.Nodes())
    ensures third.chain == old(third.chain)
    ensures Apart(source, target) && Apart(target, third) && Apart(source, third)
  {
    ghost var was := source.chain;
    node := source.Pop();
    assert was[1] == node;
    target.Push(node);
  }

  /** Why callers assert that the node is not listed: the statements of List_Push for a node that is on the
      list already close a circle around the nodes up to it, and a walk from the head never ends. */
  method PushListed(list: List, node: Node, ghost k: nat)
    requires list.Valid() && 0 < k < |list.chain| - 1 && list.chain[k] == node
    modifies list.chain
    ensures var circle := list.chain[1..k + 1];
            list.head.next in circle && list.tail !in circle && forall i :: 0 <= i < k ==> circle[i].next in circle
  {
    ghost var chain := list.chain;
    assert list.head.next == chain[1];
    list.head.next.prev := node;
    node.prev := list.head;
    node.next := list.head.next;
    list.head.prev := null;
    list.head.next := node;
    ghost var circle := chain[1..k + 1];
    assert circle[k - 1] == node && circle[0] == chain[1];
    forall i | 0 <= i < k
      ensures circle[i].next in circle
    {
      if i < k - 1 { assert circle[i].next == circle[i + 1]; }
    }
  }
}
