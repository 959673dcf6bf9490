/**
 The singly linked list of the hash-table buckets.
 */
module LinkedLists {
  import opened Sequences

  class Node<T> {
    var data: T
    var next: Node?<T>
    /** The list that made the node; nodes of different lists are different. */
    ghost const home: LinkedList<T>

    constructor (data: T, ghost home: LinkedList<T>)
      ensures this.data == data && next == null && this.home == home
    {
      this.data, next, this.home := data, null, home;
    }
  }

  class LinkedList<T> {
    var head: Node?<T>
    var tail: Node?<T>
    var size: nat
    ghost var nodes: seq<Node<T>>
    ghost var Contents: seq<T>
    /** The bucket number of the list in its hash table. */
    ghost const slot: nat

    ghost function NodeAt(i: nat): Node?<T>
      reads this
    {
      if i < |nodes| then nodes[i] else null
    }

    ghost predicate Valid()
      reads this, nodes
    {
      && |nodes| == |Contents| == size
      && head == NodeAt(0) && tail == (if size == 0 then null else nodes[size - 1])
      && (forall i :: 0 <= i < size ==> nodes[i].home == this && nodes[i].data == Contents[i])
      && (forall i {:trigger nodes[i].next} :: 0 <= i < size ==> nodes[i].next == NodeAt(i + 1))
      && (forall i, j :: 0 <= i < j < size ==> nodes[i] != nodes[j])
    }

    constructor (ghost slot: nat)
      ensures Valid() && Contents == [] && nodes == [] && this.slot == slot
    {
      head, tail, size := null, null, 0;
      nodes, Contents, this.slot := [], [], slot;
    }

    method InsertNth(n: nat, data: T) returns (node: Node<T>)
      requires Valid()
      modifies this, nodes
      ensures Valid() && fresh(node)
      ensures var k := if n > |old(nodes)| then |old(nodes)| else n;
              nodes == Inserted(old(nodes), k, node) && Contents == Inserted(old(Contents), k, data)
    {
      var n := if n > size then size else n;
      node := new Node(data, this);
      if n == 0 {
        LinkFirst(node);
      } else if n == size {
        LinkLast(node);
      } else {
        LinkAfter(node, n);
      }
    }

    method LinkFirst(node: Node<T>)
      requires Valid() && node !in nodes && node.home == this
      modifies this, node
      ensures Valid() && node.data == old(node.data)
      ensures nodes == Inserted(old(nodes), 0, node) && Contents == Inserted(old(Contents), 0, node.data)
    {
      node.next := head;
      head := node;
      if size == 0 {
        tail := node;
      }
      size := size + 1;
      nodes, Contents := Inserted(nodes, 0, node), Inserted(Contents, 0, node.data);
    }

    method LinkLast(node: Node<T>)
      requires Valid() && size > 0 && node !in nodes && node.home == this && node.next == null
      modifies this, tail
      ensures Valid()
      ensures nodes == Inserted(old(nodes), |old(nodes)|, node)
      ensures Contents == Inserted(old(Contents), |old(nodes)|, node.data)
    {
      tail.next := node;
      tail := node;
      nodes, Contents := Inserted(nodes, size, node), Inserted(Contents, size, node.data);
      size := size + 1;
    }

    method LinkAfter(node: Node<T>, n: nat)
      requires Valid() && 0 < n < size && node !in nodes && node.home == this
      modifies this, nodes[n - 1], node
      ensures Valid() && node.data == old(node.data)
      ensures nodes == Inserted(old(nodes), n, node) && Contents == Inserted(old(Contents), n, node.data)
    {
      var before := Walk(n - 1);
      node.next := before.next;
      before.next := node;
      size := size + 1;
      InsertedElements(nodes, n, node);
      InsertedElements(Contents, n, node.data);
      hide Inserted;
      nodes, Contents := Inserted(nodes, n, node), Inserted(Contents, n, node.data);
    }

    method Walk(n: nat) returns (node: Node<T>)
      requires Valid() && n < size
      ensures node == nodes[n]
    {
      node := head;
      for i := 0 to n
        invariant node == nodes[i]
      {
        node := node.next;
      }
    }

    method RemoveNth(n: nat) returns (removed: Node<T>)
      requires Valid() && size > 0
      modifies this, nodes
      ensures Valid()
      ensures var k := if n >= |old(nodes)| then |old(nodes)| - 1 else n;
              && removed == old(nodes)[k] && removed.data == old(Contents)[k]
              && nodes == Erased(old(nodes), k) && Contents == Erased(old(Contents), k)
    {
      var n := if n >= size then size - 1 else n;
      if n == 0 {
        removed := UnlinkFirst();
      } else {
        removed := UnlinkAfter(n);
      }
    }

    method UnlinkFirst() returns (removed: Node<T>)
      requires Valid() && size > 0
      modifies this
      ensures Valid() && removed == old(nodes)[0]
      ensures nodes == Erased(old(nodes), 0) && Contents == Erased(old(Contents), 0)
    {
      size := size - 1;
      removed := head;
      head := head.next;
      if size == 0 {
        tail := null;
      }
      nodes, Contents := Erased(nodes, 0), Erased(Contents, 0);
    }

    method UnlinkAfter(n: nat) returns (removed: Node<T>)
      requires Valid() && 0 < n < size
      modifies this, nodes[n - 1]
      ensures Valid() && removed == old(nodes)[n]
      ensures nodes == Erased(old(nodes), n) && Contents == Erased(old(Contents), n)
    {
      var before := Walk(n - 1);
      removed := before.next;
      before.next := removed.next;
      if n == size - 1 {
        tail := before;
      }
      size := size - 1;
      ErasedElements(nodes, n);
      ErasedElements(Contents, n);
      hide Erased;
      nodes, Contents := Erased(nodes, n), Erased(Contents, n);
    }
  }
}
