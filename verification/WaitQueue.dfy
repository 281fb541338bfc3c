/**
 The queue of a condition variable: a linked list of nodes that live on the stacks of the waiting threads, and
 the signalling loops over it.  The caller holds the queue lock; `CondVar` has the interleavings.
 */
module WaitQueue {
  import opened Seqs

  class Node {
    const notification: nat
    var next: Node?

    constructor (notification: nat)
      ensures this.notification == notification
    {
      this.notification := notification;
    }
  }

  /** The notifications signalled so far, in order. */
  class Kernel {
    var signalled: seq<nat>

    method Signal(notification: nat)
      modifies this
      ensures signalled == old(signalled) + [notification]
    {
      signalled := signalled + [notification];
    }
  }

  function Notifications(nodes: seq<Node>): (r: seq<nat>)
    ensures |r| == |nodes|
  {
    if nodes == [] then [] else [nodes[0].notification] + Notifications(nodes[1..])
  }

  class Queue {
    var queueHead: Node?
    var queueTail: Node?
    ghost var nodes: seq<Node>

    /** The list from the head is `nodes`, and the tail is its last node. */
    ghost predicate Valid()
      reads this, nodes
    {
      && queueHead == (if nodes == [] then null else nodes[0])
      && queueTail == (if nodes == [] then null else nodes[|nodes| - 1])
      && (forall i, j | 0 <= i < j < |nodes| :: nodes[i] != nodes[j])
      && (forall i | 0 <= i < |nodes| - 1 :: nodes[i].next == nodes[i + 1])
      && (nodes != [] ==> nodes[|nodes| - 1].next == null)
    }

    constructor ()
      ensures Valid() && nodes == []
    {
      queueHead, queueTail, nodes := null, null, [];
    }

    /** `condition_waiters_enqueue` */
    method Enqueue(node: Node)
      requires Valid() && node !in nodes
      modifies this, nodes, node
      ensures Valid() && nodes == old(nodes) + [node]
    {
      if queueHead == null {
        queueHead := node;
      } else {
        queueTail.next := node;
      }
      queueTail := node;
      node.next := null;
      nodes := nodes + [node];
    }

    /** `condition_waiters_dequeue` */
    method Dequeue() returns (node: Node?)
      requires Valid()
      modifies this, nodes
      ensures Valid() && nodes == if old(nodes) == [] then [] else old(nodes)[1..]
      ensures node == if old(nodes) == [] then null else old(nodes)[0]
      ensures node != null ==> node.next == null
    {
      if queueHead == null { return null; }
      ghost var was := nodes;
      assert |was| > 1 ==> was[0].next == was[1];
      node := queueHead;
      queueHead := queueHead.next;
      node.next := null;
      nodes := was[1..];
      assert forall i | 0 <= i < |nodes| :: nodes[i] == was[i + 1] && nodes[i] != was[0];
      if queueHead == null {
        queueTail := null;
      }
    }

    /** `signal_once`: wakes the longest waiter, if there is one. */
    method SignalOnce(kernel: Kernel) returns (sent: bool)
      requires Valid()
      modifies this, nodes, kernel
      ensures Valid() && sent == (old(nodes) != [])
      ensures nodes == if sent then old(nodes)[1..] else []
      ensures kernel.signalled == old(kernel.signalled) + if sent then [old(nodes)[0].notification] else []
    {
      var node := Dequeue();
      if node != null {
        kernel.Signal(node.notification);
        return true;
      }
      return false;
    }

    /** The loop of `cond_broadcast`: wakes everyone, longest waiter first, and leaves the queue empty. */
    method SignalAll(kernel: Kernel)
      requires Valid()
      modifies this, nodes, kernel
      ensures Valid() && nodes == []
      ensures kernel.signalled == old(kernel.signalled) + old(Notifications(nodes))
    {
      ghost var all, before := nodes, kernel.signalled;
      var more := true;
      ghost var k := 0;
      while more
        invariant Valid() && k <= |all| && nodes == all[k..] && (!more ==> nodes == [])
        invariant kernel.signalled + Notifications(nodes) == before + Notifications(all)
        decreases |nodes|, more
      {
        ghost var was := nodes;
        more := SignalOnce(kernel);
        if more {
          Assoc(kernel.signalled[..|kernel.signalled| - 1], [was[0].notification], Notifications(was[1..]));
          k := k + 1;
        }
      }
    }
  }
}
