/** The linked lists of libprocess, which are grown and shrunk at their head by two macros. */
module Lists {
  class Node<T> {
    const value: T
    var next: Node?<T>

    constructor (value: T)
      ensures this.value == value
    {
      this.value := value;
    }
  }

  function ValuesOf<T>(nodes: seq<Node<T>>): (r: seq<T>)
    ensures |r| == |nodes|
    ensures forall i | 0 <= i < |nodes| :: r[i] == nodes[i].value
  {
    seq(|nodes|, i requires 0 <= i < |nodes| => nodes[i].value)
  }

  class List<T> {
    var head: Node?<T>
    ghost var nodes: seq<Node<T>>

    /** Following `next` from the head gives `nodes`. */
    ghost predicate Valid()
      reads this, nodes
    {
      && head == (if nodes == [] then null else nodes[0])
      && (forall i, j | 0 <= i < j < |nodes| :: nodes[i] != nodes[j])
      && (forall i | 0 <= i < |nodes| - 1 :: nodes[i].next == nodes[i + 1])
      && (nodes != [] ==> nodes[|nodes| - 1].next == null)
    }

    /** What the list holds, most recent first. */
    ghost function Values(): (r: seq<T>)
      reads this
      ensures |r| == |nodes|
    {
      ValuesOf(nodes)
    }

    constructor ()
      ensures Valid() && nodes == [] && Values() == []
    {
      head, nodes := null, [];
    }

    /** `LINKED_LIST_PREPEND` */
    method Prepend(node: Node<T>)
      requires Valid() && node !in nodes
      modifies this, node
      ensures Valid() && nodes == [node] + old(nodes) && Values() == [node.value] + old(Values())
    {
      node.next := head;
      head := node;
      nodes := [node] + nodes;
    }

    /** `LINKED_LIST_POP` */
    method Pop() returns (node: Node<T>)
      requires Valid() && nodes != []
      modifies this
      ensures Valid() && node == old(nodes)[0] && nodes == old(nodes)[1..] && node.value == old(Values())[0]
      ensures Values() == old(Values())[1..]
    {
      ghost var was := nodes;
      assert |was| > 1 ==> was[0].next == was[1];
      node := head;
      head := node.next;
      nodes := was[1..];
      assert forall i | 0 <= i < |nodes| :: nodes[i] == was[i + 1];
    }
  }
}
