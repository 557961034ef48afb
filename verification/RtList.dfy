/** The intrusive circular list of rt-thread/include/rtservice.h. A list is the ring of its head and the
    nodes that hang on it; r lists them from the head on. */
module RtList {
  import opened Sequences
  import opened Rings

  class Node {
    var next: Node?
    var prev: Node?

    /** rt_list_init */
    constructor ()
      ensures Circle([this])
    {
      new;
      next := this;
      prev := this;
    }
  }

  ghost predicate Linked(r: seq<Node>, i: nat)
    requires i < |r|
    reads r[i]
  {
    r[i].next == Succ(r, i) && r[i].prev == Pred(r, i)
  }

  ghost predicate Circle(r: seq<Node>)
    reads r
  {
    r != [] && Distinct(r) && forall i :: 0 <= i < |r| ==> Linked(r, i)
  }

  /** rt_list_insert_after */
  method InsertAfter(l: Node, n: Node, ghost r: seq<Node>, ghost i: nat)
    requires Circle(r) && i < |r| && r[i] == l && n !in r
    modifies r, n
    ensures Circle(PutAfter(r, i, n))
  {
    assert Linked(r, i) && Linked(r, if i + 1 < |r| then i + 1 else 0);
    InsertDistinct(r, i, n);
    l.next.prev := n;
    n.next := l.next;
    l.next := n;
    n.prev := l;
    ghost var r' := PutAfter(r, i, n);
    forall k | 0 <= k < |r'|
      ensures Linked(r', k)
    {
      if k <= i {
        assert old(Linked(r, k));
      } else if k > i + 1 {
        assert old(Linked(r, k - 1));
      }
    }
  }

  /** Place i of the ring counted from the one before; the place before the head is the last. */
  function Before<T>(r: seq<T>, i: nat): nat
    requires i < |r|
  {
    if i > 0 then i - 1 else |r| - 1
  }

  /** rt_list_insert_before; before the head means at the end of the list. */
  method InsertBefore(l: Node, n: Node, ghost r: seq<Node>, ghost i: nat)
    requires Circle(r) && i < |r| && r[i] == l && n !in r
    modifies r, n
    ensures Circle(PutAfter(r, Before(r, i), n))
    ensures i == 0 ==> PutAfter(r, Before(r, i), n) == r + [n]
  {
    assert Linked(r, i) && Linked(r, Before(r, i));
    InsertDistinct(r, Before(r, i), n);
    l.prev.next := n;
    n.prev := l.prev;
    l.prev := n;
    n.next := l;
    ghost var j, r' := Before(r, i), PutAfter(r, Before(r, i), n);
    forall k | 0 <= k < |r'|
      ensures Linked(r', k)
    {
      if k <= j {
        assert old(Linked(r, k));
      } else if k > j + 1 {
        assert old(Linked(r, k - 1));
      }
    }
  }

  /** rt_list_remove: the node is left alone, the others close up. */
  method Remove(n: Node, ghost r: seq<Node>, ghost i: nat)
    requires Circle(r) && i < |r| && r[i] == n
    modifies r
    ensures Circle([n]) && (|r| > 1 ==> Circle(Cut(r, i)))
  {
    assert Linked(r, i) && Linked(r, Before(r, i)) && Linked(r, if i + 1 < |r| then i + 1 else 0);
    CutDistinct(r, i);
    n.next.prev := n.prev;
    n.prev.next := n.next;
    n.prev := n;
    n.next := n;
    if |r| > 1 {
      ghost var r' := Cut(r, i);
      forall k | 0 <= k < |r'|
        ensures Linked(r', k)
      {
        assert old(Linked(r, if k < i then k else k + 1));
      }
    }
  }

  /** rt_list_isempty */
  method IsEmpty(l: Node, ghost r: seq<Node>) returns (empty: bool)
    requires Circle(r) && r[0] == l
    ensures empty <==> r == [l]
  {
    assert Linked(r, 0);
    empty := l.next == l;
  }

  /** rt_list_len: the nodes besides the head. */
  method Len(l: Node, ghost r: seq<Node>) returns (len: nat)
    requires Circle(r) && r[0] == l
    ensures len == |r| - 1
  {
    len := 0;
    var p := l;
    assert Linked(r, 0);
    while p.next != l
      invariant len < |r| && p == r[len]
      decreases |r| - len
    {
      assert Linked(r, len);
      p := p.next;
      len := len + 1;
      assert Linked(r, len);
    }
    assert Linked(r, len);
  }

  /** Removing a node undoes its insertion. */
  lemma InsertThenRemove<T>(r: seq<T>, i: nat, n: T)
    requires i < |r|
    ensures Cut(PutAfter(r, i, n), i + 1) == r
  {
  }
}
