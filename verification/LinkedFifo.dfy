/** The head/tail/size singly linked list that both the shard queues of the worker pool and
    the lanes of the outgoing queue are made of. */
module LinkedFifo {

  class Node<T> {
    var next: Node?<T>
    const item: T

    constructor (item: T)
      ensures this.item == item && next == null
    {
      this.item := item;
      next := null;
    }
  }

  ghost function Items<T>(nodes: seq<Node<T>>): (s: seq<T>)
    ensures |s| == |nodes|
  {
    seq(|nodes|, i requires 0 <= i < |nodes| => nodes[i].item)
  }

  class Fifo<T> {
    var head: Node?<T>
    var tail: Node?<T>
    var size: nat
    ghost var nodes: seq<Node<T>>
    ghost var repr: set<Node<T>>

    ghost predicate Valid()
      reads this, repr
    {
      && size == |nodes| && (forall i :: 0 <= i < |nodes| ==> nodes[i] in repr)
      && (nodes == [] ==> head == null && tail == null)
      && (nodes != [] ==> head == nodes[0] && tail == nodes[|nodes| - 1] && nodes[|nodes| - 1].next == null)
      && (forall i :: 0 <= i < |nodes| - 1 ==> nodes[i].next == nodes[i + 1])
      && (forall i, j :: 0 <= i < j < |nodes| ==> nodes[i] != nodes[j])
    }

    ghost function Contents(): (s: seq<T>)
      reads this
      ensures |s| == |nodes|
    {
      Items(nodes)
    }

    constructor ()
      ensures Valid() && Contents() == [] && repr == {}
    {
      head, tail, size, nodes, repr := null, null, 0, [], {};
    }

    /** Link a new node after the tail. */
    method Append(item: T)
      requires Valid()
      modifies this, repr
      ensures Valid() && Contents() == old(Contents()) + [item]
      ensures fresh(repr - old(repr))
    {
      var n := new Node(item);
      if tail == null {
        head, tail := n, n;
      } else {
        tail.next := n;
        tail := n;
      }
      size := size + 1;
      nodes, repr := nodes + [n], repr + {n};
    }

    /** Unlink the head; the tail goes too when it was the only node. */
    method RemoveHead() returns (item: T)
      requires Valid() && Contents() != []
      modifies this
      ensures Valid() && item == old(Contents())[0] && Contents() == old(Contents())[1..]
      ensures repr == old(repr)
    {
      item := head.item;
      head := head.next;
      if head == null { tail := null; }
      size := size - 1;
      nodes := nodes[1..];
    }
  }
}
