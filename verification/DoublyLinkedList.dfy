/**
 The doubly linked list that keeps the cache entries in the order of their last use.
 */
module DoublyLinkedLists {
  import opened Sequences

  class DNode<T> {
    var data: T
    var prev: DNode?<T>
    var next: DNode?<T>
    /** The list that made the node. */
    ghost const home: DList<T>

    constructor (data: T, ghost home: DList<T>)
      ensures this.data == data && this.home == home
    {
      this.data, prev, next, this.home := data, null, null, home;
    }
  }

  class DList<T> {
    var head: DNode?<T>
    var tail: DNode?<T>
    var size: nat
    ghost var nodes: seq<DNode<T>>
    ghost var Contents: seq<T>

    ghost function NodeAt(i: int): DNode?<T>
      reads this
    {
      if 0 <= i < |nodes| then nodes[i] else null
    }

    /** The links run through the nodes in order, forwards and backwards, and no node occurs twice. */
    ghost predicate Valid()
      reads this, nodes
    {
      && |nodes| == |Contents| == size
      && head == NodeAt(0) && tail == NodeAt(size - 1)
      && (forall i :: 0 <= i < size ==> nodes[i].home == this && nodes[i].data == Contents[i])
      && (forall i {:trigger nodes[i].next} :: 0 <= i < size - 1 ==> nodes[i].next == nodes[i + 1])
      && (forall i {:trigger nodes[i].prev} :: 1 <= i < size ==> nodes[i].prev == nodes[i - 1])
      && (size > 0 ==> nodes[0].prev == null && nodes[size - 1].next == null)
      && (forall i, j :: 0 <= i < j < size ==> nodes[i] != nodes[j])
    }

    lemma NodesAre()
      requires Valid()
      ensures |nodes| == |Contents| == size
      ensures forall i :: 0 <= i < size ==> nodes[i].home == this && nodes[i].data == Contents[i]
      ensures forall i, j :: 0 <= i < j < size ==> nodes[i] != nodes[j]
      ensures size > 0 ==> tail == nodes[size - 1]
    {
    }

    constructor ()
      ensures Valid() && nodes == [] && Contents == []
    {
      head, tail, size := null, null, 0;
      nodes, Contents := [], [];
    }

    method InsertNth(n: nat, node: DNode<T>)
      requires Valid() && node !in nodes && node.home == this
      modifies this, nodes, node
      ensures Valid() && node.data == old(node.data)
      ensures var k := if n > |old(nodes)| then |old(nodes)| else n;
              nodes == Inserted(old(nodes), k, node) && Contents == Inserted(old(Contents), k, node.data)
    {
      var n := if n > size then size else n;
      if n == 0 {
        LinkFirst(node);
      } else {
        LinkAfter(node, n);
      }
    }

    method LinkFirst(node: DNode<T>)
      requires Valid() && node !in nodes && node.home == this
      modifies this, nodes, node
      ensures Valid() && node.data == old(node.data)
      ensures nodes == Inserted(old(nodes), 0, node) && Contents == Inserted(old(Contents), 0, node.data)
    {
      InsertedElements(nodes, 0, node);
      InsertedElements(Contents, 0, node.data);
      hide Inserted;
      node.next := head;
      node.prev := null;
      if head != null {
        head.prev := node;
      }
      head := node;
      if size == 0 {
        tail := node;
      }
      size := size + 1;
      nodes, Contents := Inserted(nodes, 0, node), Inserted(Contents, 0, node.data);
    }

    method LinkAfter(node: DNode<T>, n: nat)
      requires Valid() && 0 < n <= size && node !in nodes && node.home == this
      modifies this, nodes, node
      ensures Valid() && node.data == old(node.data)
      ensures nodes == Inserted(old(nodes), n, node) && Contents == Inserted(old(Contents), n, node.data)
    {
      var before := Walk(n - 1);
      node.next := before.next;
      node.prev := before;
      if before.next != null {
        LinkBetween(node, n, before);
      } else {
        LinkLast(node, before);
      }
    }

    method LinkBetween(node: DNode<T>, ghost n: nat, before: DNode<T>)
      requires Valid() && 0 < n < size && before == nodes[n - 1] && node !in nodes && node.home == this
      requires node.next == before.next && node.prev == before
      modifies this, before, nodes[n], node
      ensures Valid() && node.data == old(node.data)
      ensures nodes == Inserted(old(nodes), n, node) && Contents == Inserted(old(Contents), n, node.data)
    {
      InsertedElements(nodes, n, node);
      InsertedElements(Contents, n, node.data);
      hide Inserted;
      before.next.prev := node;
      before.next := node;
      size := size + 1;
      nodes, Contents := Inserted(nodes, n, node), Inserted(Contents, n, node.data);
    }

    method LinkLast(node: DNode<T>, before: DNode<T>)
      requires Valid() && 0 < size && before == nodes[size - 1] && node !in nodes && node.home == this
      requires node.next == before.next && node.prev == before
      modifies this, before, node
      ensures Valid() && node.data == old(node.data)
      ensures nodes == Inserted(old(nodes), |old(nodes)|, node)
      ensures Contents == Inserted(old(Contents), |old(nodes)|, node.data)
    {
      tail := node;
      before.next := node;
      nodes, Contents := Inserted(nodes, size, node), Inserted(Contents, size, node.data);
      size := size + 1;
    }

    method Walk(n: nat) returns (node: DNode<T>)
      requires Valid() && n < size
      ensures node == nodes[n]
    {
      node := head;
      for i := 0 to n
        invariant node == nodes[i]
      {
        node := node.next;
      }
    }

    method InsertNthNode(n: nat, data: T) returns (node: DNode<T>)
      requires Valid()
      modifies this, nodes
      ensures Valid() && fresh(node)
      ensures var k := if n > |old(nodes)| then |old(nodes)| else n;
              nodes == Inserted(old(nodes), k, node) && Contents == Inserted(old(Contents), k, data)
    {
      node := new DNode(data, this);
      InsertNth(n, node);
    }

    method SetData(node: DNode<T>, ghost k: nat, data: T)
      requires Valid() && k < |nodes| && nodes[k] == node
      modifies this`Contents, node`data
      ensures Valid() && Contents == old(Contents)[k := data]
    {
      node.data := data;
      Contents := Contents[k := data];
    }

    /** Unlinks a node in constant time; k is the position it had. */
    method RemoveNode(node: DNode<T>, ghost k: nat)
      requires Valid() && k < |nodes| && nodes[k] == node
      modifies this, nodes
      ensures Valid() && node.data == old(node.data)
      ensures nodes == Erased(old(nodes), k) && Contents == Erased(old(Contents), k)
    {
      ErasedElements(nodes, k);
      ErasedElements(Contents, k);
      hide Erased;
      var prev, next := node.prev, node.next;
      if prev != null {
        prev.next := next;
      } else {
        head := next;
      }
      if next != null {
        next.prev := prev;
      } else {
        tail := prev;
      }
      size := size - 1;
      nodes, Contents := Erased(nodes, k), Erased(Contents, k);
    }

    /** The remove-and-insert pair by which the cache marks an entry as just used. */
    method MoveToFront(node: DNode<T>, ghost k: nat)
      requires Valid() && k < |nodes| && nodes[k] == node
      modifies this, nodes
      ensures Valid() && nodes == ToFront(old(nodes), k) && Contents == ToFront(old(Contents), k)
    {
      ErasedElements(nodes, k);
      RemoveNode(node, k);
      hide Erased;
      InsertNth(0, node);
    }
  }
}
