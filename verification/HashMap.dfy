/**
 The chained hash table: an array of buckets, each a linked list of entries.
 */
module HashMaps {
  import opened Hashing
  import opened Wrappers
  import opened Sequences
  import opened LinkedLists

  const HASHMAP_SIZE := 0x26f5

  datatype Entry<V> = Entry(key: CString, val: V)

  /** The bucket of a key. */
  function Bucket(key: CString, hmax: nat): (i: nat)
    requires hmax > 0
    ensures i < hmax
  {
    HashString(key) % hmax
  }

  ghost predicate HasKey<V>(chain: seq<Entry<V>>, key: CString) {
    exists j :: 0 <= j < |chain| && chain[j].key == key
  }

  /** A chain holds exactly the entries of m that fall into bucket i, each key once. */
  ghost predicate Holds<V>(chain: seq<Entry<V>>, i: nat, hmax: nat, m: map<CString, V>)
    requires hmax > 0
  {
    && (forall j :: 0 <= j < |chain| ==>
          Bucket(chain[j].key, hmax) == i && chain[j].key in m && m[chain[j].key] == chain[j].val)
    && (forall j, j' :: 0 <= j < j' < |chain| ==> chain[j].key != chain[j'].key)
    && (forall k :: k in m && Bucket(k, hmax) == i ==> HasKey(chain, k))
  }

  lemma HoldsAppended<V>(chain: seq<Entry<V>>, i: nat, hmax: nat, m: map<CString, V>, key: CString, val: V)
    requires hmax > 0 && Holds(chain, i, hmax, m) && Bucket(key, hmax) == i && key !in m
    ensures Holds(Inserted(chain, |chain|, Entry(key, val)), i, hmax, m[key := val])
  {
    hide Bucket;
    var after := Inserted(chain, |chain|, Entry(key, val));
    forall k | k in m[key := val] && Bucket(k, hmax) == i
      ensures HasKey(after, k)
    {
      if k == key {
        assert after[|chain|].key == k;
      } else {
        var j :| 0 <= j < |chain| && chain[j].key == k;
        assert after[j].key == k;
      }
    }
  }

  lemma HoldsUpdated<V>(chain: seq<Entry<V>>, i: nat, hmax: nat, m: map<CString, V>, j: nat, val: V)
    requires hmax > 0 && Holds(chain, i, hmax, m) && j < |chain|
    ensures Holds(chain[j := Entry(chain[j].key, val)], i, hmax, m[chain[j].key := val])
  {
    hide Bucket;
    var after := chain[j := Entry(chain[j].key, val)];
    forall k | k in m && Bucket(k, hmax) == i
      ensures HasKey(after, k)
    {
      var j' :| 0 <= j' < |chain| && chain[j'].key == k;
      assert after[j'].key == k;
    }
  }

  lemma HoldsErased<V>(chain: seq<Entry<V>>, i: nat, hmax: nat, m: map<CString, V>, j: nat)
    requires hmax > 0 && Holds(chain, i, hmax, m) && j < |chain|
    ensures Holds(Erased(chain, j), i, hmax, m - {chain[j].key})
  {
    hide Bucket;
    var after := Erased(chain, j);
    forall k | k in m && k != chain[j].key && Bucket(k, hmax) == i
      ensures HasKey(after, k)
    {
      var j' :| 0 <= j' < |chain| && chain[j'].key == k;
      assert after[if j' < j then j' else j' - 1].key == k;
    }
  }

  class HashMap<V> {
    const buckets: seq<LinkedList<Entry<V>>>
    /** The finite map the table stands for. */
    ghost var M: map<CString, V>
    /** The entries of every bucket, and the nodes that hold them. */
    ghost var Chains: seq<seq<Entry<V>>>
    ghost var Layout: seq<seq<Node<Entry<V>>>>
    ghost var Repr: set<object>

    ghost predicate ListValid(i: nat)
      requires i < |buckets| == |Chains| == |Layout|
      reads this`Repr, this`Chains, this`Layout, Repr - {this}
    {
      && buckets[i] in Repr && buckets[i].slot == i
      && (forall x :: x in buckets[i].nodes ==> x in Repr)
      && buckets[i].Valid() && Chains[i] == buckets[i].Contents && Layout[i] == buckets[i].nodes
    }

    /** The lists of the buckets are well-formed and share no nodes. */
    ghost predicate ListsValid()
      reads this`Repr, this`Chains, this`Layout, Repr - {this}
    {
      && this in Repr && |buckets| > 0 && |Chains| == |Layout| == |buckets|
      && forall i {:trigger buckets[i]} :: 0 <= i < |buckets| ==> ListValid(i)
    }

    ghost predicate Valid()
      reads this, Repr
    {
      && ListsValid()
      && forall i {:trigger Chains[i]} :: 0 <= i < |buckets| ==> Holds(Chains[i], i, |buckets|, M)
    }

    constructor (hmax: nat)
      requires hmax > 0
      ensures Valid() && M == map[] && fresh(Repr) && |buckets| == hmax
    {
      var lists: seq<LinkedList<Entry<V>>> := [];
      for i := 0 to hmax
        invariant |lists| == i
        invariant forall j :: 0 <= j < i ==>
          && fresh(lists[j]) && lists[j].Valid() && lists[j].slot == j && lists[j].nodes == [] && lists[j].Contents == []
      {
        var list := new LinkedList<Entry<V>>(i);
        lists := lists + [list];
      }
      buckets := lists;
      M, Chains, Layout := map[], seq(hmax, _ => []), seq(hmax, _ => []);
      Repr := {this} + set j | 0 <= j < hmax :: lists[j];
      new;
      forall i | 0 <= i < |buckets|
        ensures ListValid(i) && Holds(Chains[i], i, |buckets|, M)
      {
      }
    }

    ghost function NodeIn(i: nat, j: nat): Node?<Entry<V>>
      requires i < |Layout|
      reads this`Layout
    {
      if j < |Layout[i]| then Layout[i][j] else null
    }

    method Head(i: nat) returns (node: Node?<Entry<V>>)
      requires ListsValid() && i < |buckets|
      ensures node == NodeIn(i, 0)
    {
      assert ListValid(i);
      node := buckets[i].head;
    }

    method Visit(i: nat, ghost j: nat, node: Node<Entry<V>>) returns (e: Entry<V>, next: Node?<Entry<V>>)
      requires ListsValid() && i < |buckets| && j < |Layout[i]| && node == Layout[i][j]
      ensures |Layout[i]| == |Chains[i]| && e == Chains[i][j] && next == NodeIn(i, j + 1)
    {
      assert ListValid(i);
      assert node == buckets[i].nodes[j];
      e, next := node.data, node.next;
    }

    lemma ChainsHold(i: nat)
      requires Valid() && i < |buckets|
      ensures |Layout[i]| == |Chains[i]| && Holds(Chains[i], i, |buckets|, M)
    {
      assert ListValid(i);
    }

    method FindNode(key: CString) returns (node: Node?<Entry<V>>, index: nat)
      requires Valid()
      ensures node == null ==> key !in M
      ensures node != null ==>
                var b := Bucket(key, |buckets|);
                && key in M && index < |Layout[b]| == |Chains[b]| && node == Layout[b][index]
                && node.data == Chains[b][index] == Entry(key, M[key])
    {
      var b := Bucket(key, |buckets|);
      ChainsHold(b);
      index := 0;
      node := Head(b);
      while node != null
        invariant 0 <= index <= |Chains[b]| && node == NodeIn(b, index)
        invariant forall j :: 0 <= j < index ==> Chains[b][j].key != key
        decreases |Chains[b]| - index
      {
        assert ListValid(b);
        if node.data.key == key {
          return;
        }
        node := node.next;
        index := index + 1;
      }
    }

    method Get(key: CString) returns (v: Option<V>)
      requires Valid()
      ensures v == if key in M then Some(M[key]) else None
    {
      var node, index := FindNode(key);
      v := if node != null then Some(node.data.val) else None;
    }

    method Set(key: CString, val: V)
      requires Valid()
      modifies Repr
      ensures Valid() && old(Repr) <= Repr && fresh(Repr - old(Repr))
      ensures M == old(M)[key := val]
    {
      var node, index := FindNode(key);
      if node != null {
        SetExisting(node, index, key, val);
      } else {
        SetNew(key, val);
      }
    }

    method SetExisting(node: Node<Entry<V>>, ghost index: nat, key: CString, val: V)
      requires Valid() && key in M
      requires var b := Bucket(key, |buckets|);
               index < |Layout[b]| == |Chains[b]| && node == Layout[b][index] && Chains[b][index].key == key
      modifies Repr
      ensures Valid() && Repr == old(Repr) && M == old(M)[key := val]
    {
      var b := Bucket(key, |buckets|);
      HoldsUpdated(Chains[b], b, |buckets|, M, index, val);
      assert ListValid(b);
      hide ListValid, Bucket, Holds;
      ReplaceInList(b, node, index, Entry(key, val));
      ghost var before := M;
      M := M[key := val];
      OthersHold(b, key, before);
    }

    method SetNew(key: CString, val: V)
      requires Valid() && key !in M
      modifies Repr
      ensures Valid() && old(Repr) <= Repr && fresh(Repr - old(Repr)) && M == old(M)[key := val]
    {
      var b := Bucket(key, |buckets|);
      HoldsAppended(Chains[b], b, |buckets|, M, key, val);
      assert ListValid(b);
      hide ListValid, Bucket, Holds;
      AppendToList(b, Entry(key, val));
      ghost var before := M;
      M := M[key := val];
      OthersHold(b, key, before);
    }

    /** The entry at position k of the key's bucket, with that key, is gone; nothing else has moved. */
    twostate predicate LostEntry(key: CString, k: nat)
      reads this`Chains, this`Layout
    {
      && |buckets| > 0
      && var b, chains, layout := Bucket(key, |buckets|), old(Chains), old(Layout);
         && b < |chains| == |layout| && k < |chains[b]| == |layout[b]| && chains[b][k].key == key
         && Chains == chains[b := Erased(chains[b], k)] && Layout == layout[b := Erased(layout[b], k)]
    }

    /** Takes a key out; k is the position its entry had in its bucket. */
    method Remove(key: CString) returns (removed: Option<Entry<V>>, ghost k: nat)
      requires Valid()
      modifies Repr
      ensures Valid() && Repr == old(Repr)
      ensures M == old(M) - {key}
      ensures removed == if key in old(M) then Some(Entry(key, old(M)[key])) else None
      ensures key in old(M) ==> LostEntry(key, k)
    {
      var node, index := FindNode(key);
      k := index;
      if node == null {
        assert M == M - {key};
        return None, k;
      }
      removed := Some(node.data);
      RemoveExisting(index, key);
    }

    method RemoveExisting(index: nat, key: CString)
      requires Valid() && key in M
      requires var b := Bucket(key, |buckets|);
               index < |Layout[b]| == |Chains[b]| && Chains[b][index].key == key
      modifies Repr
      ensures Valid() && Repr == old(Repr) && M == old(M) - {key} && LostEntry(key, index)
    {
      hide HashString;
      var b := Bucket(key, |buckets|);
      ghost var before := M;
      HoldsErased(Chains[b], b, |buckets|, before, index);
      assert ListValid(b);
      hide ListValid, Bucket, Holds, Erased;
      EraseFromList(b, index);
      M := before - {key};
      OthersHold(b, key, before);
    }

    /** A change under one key, in its bucket, is a change of the whole table. */
    lemma OthersHold(b: nat, key: CString, before: map<CString, V>)
      requires ListsValid() && b < |buckets| && Bucket(key, |buckets|) == b
      requires forall i :: 0 <= i < |buckets| && i != b ==> Holds(Chains[i], i, |buckets|, before)
      requires Holds(Chains[b], b, |buckets|, M)
      requires forall k :: k != key ==> (k in before <==> k in M) && (k in M ==> M[k] == before[k])
      ensures Valid()
    {
    }

    method ReplaceInList(b: nat, node: Node<Entry<V>>, ghost index: nat, e: Entry<V>)
      requires ListsValid() && b < |buckets| && index < |Layout[b]| == |Chains[b]| && node == Layout[b][index]
      modifies this`Chains, buckets[b], node
      ensures ListsValid()
      ensures Chains == old(Chains)[b := old(Chains)[b][index := e]]
    {
      ghost var list := buckets[b];
      assert ListValid(b);
      node.data := e;
      list.Contents := list.Contents[index := e];
      Chains := Chains[b := list.Contents];
      assert ListValid(b);
      forall i | 0 <= i < |buckets| && i != b
        ensures ListValid(i)
      {
        assert old(ListValid(i));
      }
    }

    method AppendToList(b: nat, e: Entry<V>)
      requires ListsValid() && b < |buckets|
      modifies this`Repr, this`Chains, this`Layout, buckets[b], buckets[b].nodes
      ensures ListsValid() && old(Repr) <= Repr && fresh(Repr - old(Repr))
      ensures Chains == old(Chains)[b := Inserted(old(Chains)[b], |old(Chains)[b]|, e)]
    {
      var list := buckets[b];
      assert ListValid(b);
      var node := list.InsertNth(list.size, e);
      Repr := Repr + {node};
      Chains, Layout := Chains[b := list.Contents], Layout[b := list.nodes];
      assert ListValid(b);
      forall i | 0 <= i < |buckets| && i != b
        ensures ListValid(i)
      {
        assert old(ListValid(i));
      }
    }

    method EraseFromList(b: nat, index: nat)
      requires ListsValid() && b < |buckets| && index < |Chains[b]|
      modifies this`Chains, this`Layout, buckets[b], buckets[b].nodes
      ensures ListsValid() && index < |old(Layout)[b]|
      ensures Chains == old(Chains)[b := Erased(old(Chains)[b], index)]
      ensures Layout == old(Layout)[b := Erased(old(Layout)[b], index)]
    {
      var list := buckets[b];
      assert ListValid(b);
      var _ := list.RemoveNth(index);
      Chains, Layout := Chains[b := list.Contents], Layout[b := list.nodes];
      assert ListValid(b);
      forall i | 0 <= i < |buckets| && i != b
        ensures ListValid(i)
      {
        assert old(ListValid(i));
      }
    }
  }
}
