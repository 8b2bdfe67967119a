/** Intrusive singly linked lists on the heap. */
module Chains {
  import opened Sequences

  /** The link inside an `async_mutex_lock_operation` (`m_next`) and inside a `schedule` (`next`). */
  class Node {
    var next: Node?

    constructor ()
      ensures next == null
    {
      next := null;
    }
  }

  function First(s: seq<Node>): Node? {
    if s == [] then null else s[0]
  }

  function After(s: seq<Node>, i: nat): Node?
    requires i < |s|
  {
    if i + 1 < |s| then s[i + 1] else null
  }

  /** `head` starts a null-terminated list of exactly these nodes, in this order. */
  ghost predicate Chain(head: Node?, s: seq<Node>)
    reads s
  {
    head == First(s) && forall i :: 0 <= i < |s| ==> s[i].next == After(s, i)
  }

  lemma ChainMore(node: Node, s: seq<Node>)
    requires Chain(First(s), s) && node.next == First(s)
    ensures Chain(node, [node] + s)
  {
    var all := [node] + s;
    forall i | 0 <= i < |all|
      ensures all[i].next == After(all, i)
    {
      if i > 0 {
        assert all[i] == s[i - 1];
      }
    }
  }

  lemma ChainLess(node: Node, s: seq<Node>)
    requires s != [] && Chain(node, s)
    ensures Chain(node.next, s[1..])
  {
    assert s[0].next == After(s, 0);
    forall i | 0 <= i < |s[1..]|
      ensures s[1..][i].next == After(s[1..], i)
    {
      assert s[1..][i] == s[i + 1];
    }
  }

  /** Links some of the nodes into a list; the others are not touched. */
  method Link(s: seq<Node>, nodes: set<Node>)
    requires Distinct(s) && forall node :: node in s ==> node in nodes
    modifies nodes
    ensures Chain(First(s), s)
    ensures forall node :: node in nodes && node !in s ==> node.next == old(node.next)
  {
    forall i | 0 <= i < |s| {
      s[i].next := After(s, i);
    }
  }

  /** The body of the loops that reverse a stack in place, in `unlock` and in `acquire`. */
  method MoveOne(next: Node, prev: Node?, ghost rest: seq<Node>, ghost head: seq<Node>)
    returns (temp: Node?)
    requires rest != [] && Chain(next, rest) && Chain(prev, head)
    requires Distinct(rest) && next !in head
    modifies next
    ensures Chain(temp, rest[1..]) && Chain(next, [next] + head)
  {
    temp := next.next;
    next.next := prev;
    assert Chain(prev, head);
    ChainMore(next, head);
    forall i | 0 <= i < |rest[1..]|
      ensures rest[1..][i].next == After(rest[1..], i)
    {
      assert rest[1..][i] == rest[i + 1] != rest[0];
    }
  }
}
