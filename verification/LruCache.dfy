/**
 The least-recently-used cache: a doubly linked list in the order of last use, and a hash table from
 keys to the nodes of the list.
 */
module LruCaches {
  import opened Hashing
  import opened Wrappers
  import opened Sequences
  import opened CacheModel
  import opened DoublyLinkedLists
  import HashMaps

  type SlotNode = DNode<Slot>

  /** The table has exactly the keys of the entries, and sends each to the node of its entry. */
  ghost predicate Indexes(m: map<CString, SlotNode>, nodes: seq<SlotNode>, c: Slots) {
    && |nodes| == |c|
    && (forall j :: 0 <= j < |c| ==> c[j].key in m && m[c[j].key] == nodes[j])
    && (forall k :: k in m ==> Holds(c, k))
  }

  lemma IndexedKeysAreDistinct(m: map<CString, SlotNode>, nodes: seq<SlotNode>, c: Slots)
    requires Indexes(m, nodes, c) && Distinct(nodes)
    ensures DistinctKeys(c)
  {
  }

  lemma IndexesErased(m: map<CString, SlotNode>, nodes: seq<SlotNode>, c: Slots, k: nat)
    requires Indexes(m, nodes, c) && Distinct(nodes) && k < |c|
    ensures Indexes(m - {c[k].key}, Erased(nodes, k), Erased(c, k))
  {
    IndexedKeysAreDistinct(m, nodes, c);
    ErasedElements(nodes, k);
    ErasedElements(c, k);
    hide Erased;
    forall key | key in m && key != c[k].key
      ensures Holds(Erased(c, k), key)
    {
      var j := IndexOf(c, key);
      assert Erased(c, k)[if j < k then j else j - 1].key == key;
    }
  }

  lemma ErasedIsWithout(m: map<CString, SlotNode>, nodes: seq<SlotNode>, c: Slots, k: nat)
    requires Indexes(m, nodes, c) && Distinct(nodes) && k < |c|
    ensures Erased(c, k) == Erased(c, k) == Without(c, {c[k].key})
  {
    IndexedKeysAreDistinct(m, nodes, c);
    WithoutOne(c, k);
  }

  lemma IndexesPushed(m: map<CString, SlotNode>, nodes: seq<SlotNode>, c: Slots, node: SlotNode, s: Slot)
    requires Indexes(m, nodes, c) && !Holds(c, s.key)
    ensures Indexes(m[s.key := node], Inserted(nodes, 0, node), Inserted(c, 0, s))
    ensures Inserted(c, 0, s) == [s] + c
  {
    var after := Inserted(c, 0, s);
    forall key | key in m[s.key := node]
      ensures Holds(after, key)
    {
      if key == s.key {
        assert after[0].key == key;
      } else {
        var j := IndexOf(c, key);
        assert after[j + 1].key == key;
      }
    }
  }

  lemma IndexesMoved(m: map<CString, SlotNode>, nodes: seq<SlotNode>, c: Slots, k: nat)
    requires Indexes(m, nodes, c) && Distinct(nodes) && k < |c|
    ensures Indexes(m, ToFront(nodes, k), ToFront(c, k))
    ensures ToFront(c, k) == [c[k]] + Erased(c, k)
  {
    IndexesErased(m, nodes, c, k);
    IndexedKeysAreDistinct(m, nodes, c);
    var rest := m - {c[k].key};
    assert rest[c[k].key := nodes[k]] == m;
    IndexesPushed(rest, Erased(nodes, k), Erased(c, k), nodes[k], c[k]);
  }

  lemma IndexesUpdated(m: map<CString, SlotNode>, nodes: seq<SlotNode>, c: Slots, k: nat, val: CString)
    requires Indexes(m, nodes, c) && Distinct(nodes) && k < |c|
    ensures Indexes(m, nodes, c[k := Slot(c[k].key, val)])
  {
  }

  class LruCache {
    const dll: DList<Slot>
    const map_: HashMaps.HashMap<SlotNode>
    const cap: nat
    ghost var Repr: set<object>

    ghost predicate Valid()
      reads this, Repr
    {
      && this in Repr && dll in Repr && map_ in Repr && map_.Repr <= Repr
      && this !in map_.Repr && dll !in map_.Repr
      && (forall i :: 0 <= i < |dll.nodes| ==> dll.nodes[i] in Repr && dll.nodes[i] !in map_.Repr)
      && map_.Valid() && dll.Valid()
      && |dll.Contents| <= cap
      && Indexes(map_.M, dll.nodes, dll.Contents)
    }

    /** The entries, most recently used first. */
    ghost function Slots(): Slots
      reads dll
    {
      dll.Contents
    }

    constructor (cap: nat)
      ensures Valid() && fresh(Repr) && Slots() == [] && this.cap == cap
    {
      var list := new DList<Slot>();
      var table := new HashMaps.HashMap<SlotNode>(HashMaps.HASHMAP_SIZE);
      dll, map_, this.cap := list, table, cap;
      Repr := {this, list} + table.Repr;
    }

    predicate IsFull()
      requires Valid()
      reads this, Repr
    {
      dll.size == cap
    }

    method Remove(key: CString)
      requires Valid()
      modifies Repr
      ensures Valid() && Repr == old(Repr)
      ensures Slots() == Without(old(Slots()), {key})
    {
      hide HashMaps.HashMap.Valid, DList.Valid;
      ghost var m, nodes, c := map_.M, dll.nodes, dll.Contents;
      dll.NodesAre();
      var info, _ := map_.Remove(key);
      if info.None? {
        assert map_.M == m;
        WithoutAbsent(c, {key});
      } else {
        ghost var k := IndexOf(c, key);
        IndexesErased(m, nodes, c, k);
        ErasedIsWithout(m, nodes, c, k);
        ErasedElements(nodes, k);
        assert nodes[k] == info.value.val;
        hide Erased, Indexes;
        dll.RemoveNode(info.value.val, k);
      }
    }

    method MoveToFront(node: SlotNode, ghost k: nat)
      requires Valid() && k < |dll.nodes| && dll.nodes[k] == node
      modifies Repr
      ensures Valid() && Repr == old(Repr)
      ensures var c := old(Slots()); Slots() == [c[k]] + Erased(c, k)
    {
      hide HashMaps.HashMap.Valid, DList.Valid;
      ghost var nodes, c := dll.nodes, dll.Contents;
      dll.NodesAre();
      IndexesMoved(map_.M, nodes, c, k);
      ToFrontElements(nodes, k);
      hide Indexes, ToFront, Distinct;
      dll.MoveToFront(node, k);
    }

    /** A hit moves the entry to the front. */
    method Get(key: CString) returns (val: Option<CString>)
      requires Valid()
      modifies Repr
      ensures Valid() && Repr == old(Repr)
      ensures Slots() == Touch(old(Slots()), key)
      ensures val == if Holds(old(Slots()), key) then Some(old(Slots())[IndexOf(old(Slots()), key)].val) else None
    {
      hide HashMaps.HashMap.Valid, DList.Valid;
      dll.NodesAre();
      var node := map_.Get(key);
      if node.None? {
        return None;
      }
      ghost var k := IndexOf(dll.Contents, key);
      val := Some(node.value.data.val);
      MoveToFront(node.value, k);
    }

    method SetValue(node: SlotNode, ghost k: nat, val: CString)
      requires Valid() && k < |dll.nodes| && dll.nodes[k] == node
      modifies Repr
      ensures Valid() && Repr == old(Repr)
      ensures var c := old(Slots()); Slots() == c[k := Slot(c[k].key, val)]
      ensures dll.nodes == old(dll.nodes)
    {
      hide HashMaps.HashMap.Valid, DList.Valid;
      dll.NodesAre();
      IndexesUpdated(map_.M, dll.nodes, dll.Contents, k, val);
      hide Indexes;
      dll.SetData(node, k, Slot(node.data.key, val));
    }

    /** Pushes a new key in front; there is room for it. */
    method Push(key: CString, val: CString)
      requires Valid() && !Holds(Slots(), key) && |Slots()| < cap
      modifies Repr
      ensures Valid() && old(Repr) <= Repr && fresh(Repr - old(Repr))
      ensures Slots() == [Slot(key, val)] + old(Slots())
    {
      hide HashMaps.HashMap.Valid, DList.Valid;
      ghost var nodes, c := dll.nodes, dll.Contents;
      dll.NodesAre();
      var node := dll.InsertNthNode(0, Slot(key, val));
      IndexesPushed(map_.M, nodes, c, node, Slot(key, val));
      InsertedElements(nodes, 0, node);
      hide Indexes, Inserted;
      map_.Set(key, node);
      Repr := Repr + {node} + map_.Repr;
    }

    /** Returns true when the key existed, against what the header of the function says. */
    method Put(key: CString, val: CString) returns (existed: bool, evicted: Option<CString>)
      requires Valid() && cap > 0
      modifies Repr
      ensures Valid() && old(Repr) <= Repr && fresh(Repr - old(Repr))
      ensures PutResult(Slots(), evicted) == CacheModel.Put(old(Slots()), cap, key, val)
      ensures existed <==> Holds(old(Slots()), key)
    {
      hide HashMaps.HashMap.Valid, DList.Valid;
      dll.NodesAre();
      evicted := None;
      var node := map_.Get(key);
      if node.None? {
        if IsFull() {
          evicted := Some(dll.tail.data.key);
          EvictLast();
        }
        Push(key, val);
        existed := false;
      } else {
        ghost var k := IndexOf(dll.Contents, key);
        SetValue(node.value, k, val);
        MoveToFront(node.value, k);
        existed := true;
      }
    }

    /** Makes room by removing the least recently used entry. */
    method EvictLast()
      requires Valid() && |Slots()| > 0
      modifies Repr
      ensures Valid() && Repr == old(Repr)
      ensures Slots() == old(Slots())[..|old(Slots())| - 1]
      ensures forall key :: !Holds(old(Slots()), key) ==> !Holds(Slots(), key)
    {
      ghost var c := dll.Contents;
      IndexedKeysAreDistinct(map_.M, dll.nodes, c);
      WithoutOne(c, |c| - 1);
      Remove(dll.tail.data.key);
    }
  }
}
