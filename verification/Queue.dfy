/** The linked FIFO of util/queue.c and util/list.c, proved to be a sequence. */
module Queues {
  import opened VmTypes

  class Node<T> {
    var data: T
    var next: Node?<T>

    constructor (data: T)
      ensures this.data == data && next == null
    {
      this.data := data;
      next := null;
    }
  }

  class Queue<T> {
    var head: Node?<T>
    var tail: Node?<T>
    var size: int

    /** The nodes in order, and what they hold. */
    ghost var nodes: seq<Node<T>>
    ghost var Contents: seq<T>
    ghost var Repr: set<object>

    ghost predicate Valid()
      reads this, Repr
      ensures Valid() ==> this in Repr
    {
      && this in Repr
      && size == |nodes| == |Contents|
      && (forall i :: 0 <= i < |nodes| ==> nodes[i] in Repr && nodes[i] != this as object)
      && (forall i, j :: 0 <= i < j < |nodes| ==> nodes[i] != nodes[j])
      && (forall i :: 0 <= i < |nodes| ==> nodes[i].data == Contents[i])
      && (forall i, j :: 0 <= i < j < |nodes| && j == i + 1 ==> nodes[i].next == nodes[j])
      && (nodes != [] ==> nodes[|nodes| - 1].next == null)
      && head == (if nodes == [] then null else nodes[0])
      && tail == (if nodes == [] then null else nodes[|nodes| - 1])
    }

    constructor ()
      ensures Valid() && fresh(Repr)
      ensures Contents == []
    {
      head, tail, size := null, null, 0;
      nodes, Contents, Repr := [], [], {this};
    }

    method Push(item: T)
      requires Valid()
      modifies Repr
      ensures Valid() && fresh(Repr - old(Repr))
      ensures Contents == old(Contents) + [item]
    {
      var toPush := new Node(item);
      if tail == null {
        head := toPush;
      } else {
        tail.next := toPush;
      }
      tail := toPush;
      size := size + 1;
      nodes, Contents, Repr := nodes + [toPush], Contents + [item], Repr + {toPush};
    }

    /** The oldest item; None, as the source's NULL, when the queue is empty. */
    method Pop() returns (item: Option<T>)
      requires Valid()
      modifies Repr
      ensures Valid() && Repr == old(Repr)
      ensures old(Contents) == [] ==> item == None && Contents == []
      ensures old(Contents) != [] ==> item == Some(old(Contents)[0]) && Contents == old(Contents)[1..]
    {
      item := None;
      if size > 0 {
        var toPop := head;
        if toPop == tail {
          tail := null;
        }
        head := head.next;
        item := Some(toPop.data);
        size := size - 1;
        nodes, Contents := nodes[1..], Contents[1..];
      }
    }
  }
}
