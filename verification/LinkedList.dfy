// list.c: an intrusive doubly linked list that counts its nodes.
module LinkedList {

  class Node {
    var next: Node?
    var prev: Node?
    var list: List?
    var priority: int

    constructor ()
      ensures next == null && prev == null && list == null && priority == 0
    {
      next, prev, list, priority := null, null, null, 0;
    }
  }

  function Without(s: seq<Node>, i: nat): seq<Node>
    requires i < |s|
  {
    s[..i] + s[i + 1..]
  }

  // The node at position i, null before the first and behind the last.
  ghost function NodeAt(s: seq<Node>, i: int): Node? {
    if 0 <= i < |s| then s[i] else null
  }

  lemma WithoutAt(s: seq<Node>, k: nat)
    requires k < |s| && (forall i, j :: 0 <= i < j < |s| ==> s[i] != s[j])
    ensures var t := Without(s, k);
            && |t| == |s| - 1
            && (forall i :: 0 <= i < k ==> t[i] == s[i]) && (forall i :: k <= i < |t| ==> t[i] == s[i + 1])
            && (forall i, j :: 0 <= i < j < |t| ==> t[i] != t[j])
  {
  }

  class List {
    var head: Node?
    var tail: Node?
    var size: int
    ghost var nodes: seq<Node>

    ghost predicate LinkedAt(i: int)
      reads this, nodes
    {
      0 <= i < |nodes| ==>
        nodes[i].next == NodeAt(nodes, i + 1) && nodes[i].prev == NodeAt(nodes, i - 1) && nodes[i].list == this
    }

    // Head, tail and the links spell out the sequence, both ways round.
    ghost predicate Links()
      reads this, nodes
    {
      && (forall i, j :: 0 <= i < j < |nodes| ==> nodes[i] != nodes[j])
      && (forall i :: LinkedAt(i)) && head == NodeAt(nodes, 0) && tail == NodeAt(nodes, |nodes| - 1)
    }

    // Every operation but an interior removal keeps the count right as well.
    ghost predicate Valid()
      reads this, nodes
    {
      Links() && size == |nodes|
    }

    constructor ()
      ensures Valid() && nodes == []
    {
      head, tail, size, nodes := null, null, 0, [];
    }

    // list_push_head
    method PushHead(node: Node)
      requires Links() && node !in nodes
      modifies this, node, nodes
      ensures Links() && nodes == [node] + old(nodes) && size == old(size) + 1 && node.priority == 0
    {
      node.next := head;
      node.prev := null;
      node.priority := 0;
      if head != null {
        assert LinkedAt(0);
        head.prev := node;
      }
      head := node;
      if tail == null {
        tail := node;
      }
      node.list := this;
      size := size + 1;
      nodes := [node] + nodes;
      forall i ensures LinkedAt(i) {
        assert old(LinkedAt(i - 1));
      }
    }

    // list_push_tail
    method PushTail(node: Node)
      requires Links() && node !in nodes
      modifies this, node, nodes
      ensures Links() && nodes == old(nodes) + [node] && size == old(size) + 1 && node.priority == 0
    {
      node.prev := tail;
      node.next := null;
      node.priority := 0;
      if tail != null {
        tail.next := node;
      }
      tail := node;
      if head == null {
        head := node;
      }
      node.list := this;
      size := size + 1;
      nodes := nodes + [node];
      forall i ensures LinkedAt(i) {
        assert old(LinkedAt(i));
      }
    }

    // list_pop_head
    method PopHead() returns (result: Node?)
      requires Links()
      modifies this, nodes
      ensures Links() && result == old(head) && (result == null <==> old(nodes) == [])
      ensures result == null ==> nodes == [] && size == old(size)
      ensures result != null ==>
                && old(nodes) == [result] + nodes && size == old(size) - 1
                && result.next == null && result.prev == null && result.list == null
    {
      result := head;
      if head != null {
        assert LinkedAt(0) && LinkedAt(1);
        head := head.next;
        if head != null {
          head.prev := null;
        }
        if head == null {
          tail := null;
        }
        result.next, result.prev := null, null;
        result.list := null;
        size := size - 1;
        nodes := nodes[1..];
        forall i ensures LinkedAt(i) {
          assert old(LinkedAt(i + 1));
        }
      }
    }

    // list_pop_tail
    method PopTail() returns (result: Node?)
      requires Links()
      modifies this, nodes
      ensures Links() && result == old(tail) && (result == null <==> old(nodes) == [])
      ensures result == null ==> nodes == [] && size == old(size)
      ensures result != null ==>
                && old(nodes) == nodes + [result] && size == old(size) - 1
                && result.next == null && result.prev == null && result.list == null
    {
      result := tail;
      if tail != null {
        assert LinkedAt(|nodes| - 1) && LinkedAt(|nodes| - 2);
        tail := tail.prev;
        if tail != null {
          tail.next := null;
        }
        if tail == null {
          head := null;
        }
        result.next, result.prev := null, null;
        result.list := null;
        size := size - 1;
        nodes := nodes[..|nodes| - 1];
        forall i ensures LinkedAt(i) {
          assert old(LinkedAt(i));
        }
      }
    }

    // list_size
    method Size() returns (n: int)
      requires Valid()
      ensures n == |nodes|
    {
      n := size;
    }

    // list_remove, for a node that is in this list or in none. The interior
    // case clears node->list before it decrements node->list->size, so the
    // count of this list is not touched.
    method Remove(node: Node)
      requires Links() && (node.list == this || node.list == null) && (node.list == this <==> node in nodes)
      modifies this, nodes
      ensures Links()
      ensures old(node.list) == null ==> nodes == old(nodes)
      ensures size == old(size) - if old(node.list != null && (node == head || node == tail)) then 1 else 0
      ensures old(node.list) != null ==>
                && (exists i: nat :: i < |old(nodes)| && old(nodes)[i] == node && nodes == Without(old(nodes), i))
                && node.next == null && node.prev == null && node.list == null
      ensures old(Valid()) ==> (Valid() <==> old(node.list == null || node == head || node == tail))
    {
      if node.list == null {
        return;
      }
      if head == node {
        var r := PopHead();
        assert nodes == Without(old(nodes), 0);
        return;
      }
      if tail == node {
        var r := PopTail();
        assert nodes == Without(old(nodes), |old(nodes)| - 1);
        return;
      }
      RemoveInterior(node);
    }

    method RemoveInterior(node: Node)
      requires Links() && node in nodes && node != head && node != tail
      modifies this, nodes
      ensures Links() && size == old(size)
      ensures exists i: nat :: i < |old(nodes)| && old(nodes)[i] == node && nodes == Without(old(nodes), i)
      ensures node.next == null && node.prev == null && node.list == null
    {
      hide Without;
      ghost var k: nat :| k < |nodes| && nodes[k] == node;
      assert LinkedAt(k) && LinkedAt(k - 1) && LinkedAt(k + 1);
      ghost var before, left, right := nodes, nodes[k - 1], nodes[k + 1];
      WithoutAt(before, k);
      node.next.prev := node.prev;
      node.prev.next := node.next;
      node.next, node.prev := null, null;
      node.list := null;
      nodes := Without(before, k);
      assert left.next == right && right.prev == left;
      forall i ensures LinkedAt(i) {
        if i < k {
          assert old(LinkedAt(i));
          assert 0 <= i ==> nodes[i] == before[i] != node && (i != k - 1 ==> before[i] != left) && before[i] != right;
        } else if i < |nodes| {
          assert old(LinkedAt(i + 1));
          assert nodes[i] == before[i + 1] != node && before[i + 1] != left && (i != k ==> before[i + 1] != right);
        }
      }
    }
  }

  // Three nodes, the middle one removed: the links are right, the count is not.
  method StaleCount() returns (l: List)
    ensures fresh(l) && l.Links() && |l.nodes| == 2 && l.size == 3
  {
    hide List.LinkedAt;
    l := new List();
    var a := new Node();
    var b := new Node();
    var c := new Node();
    l.PushTail(a);
    l.PushTail(b);
    l.PushTail(c);
    assert l.nodes == [a, b, c];
    InTheMiddle(l);
    l.Remove(b);
  }

  lemma InTheMiddle(l: List)
    requires l.Links() && |l.nodes| == 3
    ensures l.nodes[1].list == l && l.head != l.nodes[1] && l.tail != l.nodes[1]
  {
    assert l.LinkedAt(1);
  }
}
