/** The sentinel doubly-linked list under every queue of the kernel:
    include/kernel/list.h. */
module Lists {
  import opened Common

  class Node {
    var prev: Node?
    var next: Node?

    constructor ()
      ensures prev == null && next == null
    {
      prev, next := null, null;
    }
  }

  ghost predicate LinkAt(c: seq<Node>, i: int)
    requires 0 <= i < |c| - 1
    reads c
  {
    c[i].next == c[i + 1] && c[i + 1].prev == c[i]
  }

  /** The nodes of `c` point at each other in this order. */
  ghost predicate Links(c: seq<Node>)
    reads c
  {
    Distinct(c) && forall i :: 0 <= i < |c| - 1 ==> LinkAt(c, i)
  }

  function Insert(c: seq<Node>, i: nat, n: Node): seq<Node>
    requires i <= |c|
  {
    c[..i] + [n] + c[i..]
  }

  function Remove(c: seq<Node>, i: nat): seq<Node>
    requires i < |c|
  {
    c[..i] + c[i + 1..]
  }

  /** list_linked_after */
  method LinkAfter(ghost c: seq<Node>, ghost i: nat, at: Node, n: Node)
    requires Links(c) && i + 1 < |c| && c[i] == at && n !in c
    modifies n, c
    ensures Links(Insert(c, i + 1, n))
    ensures forall x :: x in c && x != c[i] && x != c[i + 1] ==> x.next == old(x.next) && x.prev == old(x.prev)
  {
    assert LinkAt(c, i);
    ghost var d := Insert(c, i + 1, n);
    assert forall k :: 0 <= k < |d| ==> d[k] == if k <= i then c[k] else if k == i + 1 then n else c[k - 1];
    n.prev := at;
    n.next := at.next;
    at.next.prev := n;
    at.next := n;
    forall k | 0 <= k < |d| - 1 ensures LinkAt(d, k) {
      assert k < i ==> old(LinkAt(c, k));
      assert k > i + 1 ==> old(LinkAt(c, k - 1));
    }
  }

  /** list_unlinked */
  method Unlink(ghost c: seq<Node>, ghost i: nat, n: Node)
    requires Links(c) && 0 < i < |c| - 1 && c[i] == n
    modifies c
    ensures Links(Remove(c, i)) && n.prev == null && n.next == null
  {
    assert LinkAt(c, i - 1) && LinkAt(c, i);
    ghost var d := Remove(c, i);
    assert forall k :: 0 <= k < |d| ==> d[k] == if k < i then c[k] else c[k + 1];
    n.prev.next := n.next;
    n.next.prev := n.prev;
    n.next := null;
    n.prev := null;
    forall k | 0 <= k < |d| - 1 ensures LinkAt(d, k) {
      assert k < i - 1 ==> old(LinkAt(c, k));
      assert k >= i ==> old(LinkAt(c, k + 1));
    }
  }

  class List {
    const head: Node
    const tail: Node
    ghost var items: seq<Node>

    ghost function Chain(): seq<Node>
      reads this
    {
      [head] + items + [tail]
    }

    ghost predicate Valid()
      reads this, Chain()
    {
      Links(Chain())
    }

    /** list_init */
    constructor ()
      ensures Valid() && items == [] && fresh(head) && fresh(tail)
    {
      var h := new Node();
      var t := new Node();
      h.next := t;
      t.prev := h;
      head, tail, items := h, t, [];
      new;
      assert Chain() == [head, tail];
    }

    /** list_empty */
    method Empty() returns (b: bool)
      requires Valid()
      ensures b <==> items == []
    {
      assert LinkAt(Chain(), 0) && Chain()[|items| + 1] == tail;
      b := head.next == tail;
      assert Chain()[1] == if items == [] then tail else items[0];
    }

    /** list_offer: at the head. */
    method Offer(n: Node)
      requires Valid() && n !in Chain()
      modifies this, Chain(), n
      ensures Valid() && items == [n] + old(items)
    {
      ghost var c := Chain();
      LinkAfter(c, 0, head, n);
      items := [n] + items;
      assert Chain() == Insert(c, 1, n);
    }

    /** list_poll: from the tail, so that the list is a queue. */
    method Poll() returns (n: Node)
      requires Valid() && items != []
      modifies this, Chain()
      ensures Valid() && old(items) == items + [n] && n.prev == null && n.next == null
    {
      ghost var c := Chain();
      assert c[|items|] == items[|items| - 1] && c[|items| + 1] == tail;
      assert LinkAt(c, |items|);
      n := tail.prev;
      Unlink(c, |items|, n);
      items := items[..|items| - 1];
      assert Chain() == Remove(c, |items| + 1);
    }

    /** list_find */
    method Find(target: Node) returns (found: bool)
      requires Valid()
      ensures found <==> target in items
    {
      ghost var c := Chain();
      assert forall k :: 0 <= k < |items| ==> c[k + 1] == items[k];
      assert LinkAt(c, 0) && c[|items| + 1] == tail;
      var n := head.next;
      ghost var i := 0;
      assert c[1] == if items == [] then tail else items[0];
      while n != tail
        invariant 0 <= i <= |items| && n == c[i + 1] && forall j :: 0 <= j < i ==> items[j] != target
        decreases |items| - i
      {
        assert n == items[i];
        if n == target {
          return true;
        }
        assert LinkAt(c, i + 1);
        n, i := n.next, i + 1;
      }
      found := false;
    }

    /** list_size */
    method Size() returns (size: nat)
      requires Valid()
      ensures size == |items|
    {
      ghost var c := Chain();
      assert LinkAt(c, 0) && c[|items| + 1] == tail;
      size := 0;
      var n := head.next;
      while n != tail
        invariant 0 <= size <= |items| && n == c[size + 1]
        decreases |items| - size
      {
        assert LinkAt(c, size + 1);
        n, size := n.next, size + 1;
      }
    }
  }
}
