/**
 The value a least-recently-used cache stands for: its entries, most recently used first.
 */
module CacheModel {
  import opened Hashing
  import opened Wrappers
  import opened Sequences

  datatype Slot = Slot(key: CString, val: CString)

  type Slots = seq<Slot>

  predicate Holds(c: Slots, key: CString) {
    exists i :: 0 <= i < |c| && c[i].key == key
  }

  ghost predicate DistinctKeys(c: Slots) {
    forall i, j :: 0 <= i < j < |c| ==> c[i].key != c[j].key
  }

  /** Position of a cached key. */
  function IndexOf(c: Slots, key: CString): (k: nat)
    requires Holds(c, key)
    ensures k < |c| && c[k].key == key
  {
    if c[0].key == key then 0 else 1 + IndexOf(c[1..], key)
  }

  /** A hit moves the entry to the front; a miss changes nothing. */
  function Touch(c: Slots, key: CString): Slots {
    if Holds(c, key) then [c[IndexOf(c, key)]] + Erased(c, IndexOf(c, key)) else c
  }

  /** The entries whose keys are not in the given set, in order. */
  function Without(c: Slots, keys: set<CString>): Slots {
    if c == [] then []
    else if c[0].key in keys then Without(c[1..], keys)
    else [c[0]] + Without(c[1..], keys)
  }

  datatype PutResult = PutResult(slots: Slots, evicted: Option<CString>)

  /** Storing a pair puts it in front. Only a new key can push out the last entry, when the cache is full. */
  function Put(c: Slots, cap: nat, key: CString, val: CString): PutResult
    requires cap > 0
  {
    if Holds(c, key) then PutResult([Slot(key, val)] + Erased(c, IndexOf(c, key)), None)
    else if |c| == cap then PutResult([Slot(key, val)] + c[..|c| - 1], Some(c[|c| - 1].key))
    else PutResult([Slot(key, val)] + c, None)
  }

  lemma {:induction false} WithoutMembers(c: Slots, keys: set<CString>, s: Slot)
    ensures s in Without(c, keys) <==> s in c && s.key !in keys
  {
    if c != [] {
      WithoutMembers(c[1..], keys, s);
      assert c == [c[0]] + c[1..];
    }
  }

  lemma {:induction false} WithoutKeepsBounded(c: Slots, cap: nat, keys: set<CString>)
    requires Bounded(c, cap)
    ensures Bounded(Without(c, keys), cap)
  {
    if c != [] {
      var rest := Without(c[1..], keys);
      WithoutKeepsBounded(c[1..], cap - 1, keys);
      forall i | 0 <= i < |rest|
        ensures rest[i].key != c[0].key
      {
        WithoutMembers(c[1..], keys, rest[i]);
        var j :| 0 <= j < |c[1..]| && c[1..][j] == rest[i];
        assert c[j + 1] == rest[i];
      }
    }
  }

  /** Dropping one key of a cache with distinct keys cuts out one position. */
  lemma {:induction false} WithoutOne(c: Slots, k: nat)
    requires DistinctKeys(c) && k < |c|
    ensures Without(c, {c[k].key}) == Erased(c, k)
  {
    var tail := c[1..];
    if k == 0 {
      WithoutAbsent(tail, {c[0].key});
    } else {
      WithoutOne(tail, k - 1);
      assert Erased(c, k) == [c[0]] + Erased(tail, k - 1);
    }
  }

  lemma {:induction false} WithoutAbsent(c: Slots, keys: set<CString>)
    requires forall i :: 0 <= i < |c| ==> c[i].key !in keys
    ensures Without(c, keys) == c
  {
    if c != [] {
      WithoutAbsent(c[1..], keys);
    }
  }

  /** Dropping keys one after the other is dropping them together. */
  lemma {:induction false} WithoutTwice(c: Slots, some: set<CString>, more: set<CString>)
    ensures Without(Without(c, some), more) == Without(c, some + more)
  {
    if c != [] {
      WithoutTwice(c[1..], some, more);
      var rest := Without(c[1..], some);
      if c[0].key !in some {
        assert Without(c, some)[1..] == rest;
      } else {
        assert Without(c, some) == rest;
      }
    }
  }

  lemma {:induction false} WithoutConcat(a: Slots, b: Slots, keys: set<CString>)
    ensures Without(a + b, keys) == Without(a, keys) + Without(b, keys)
  {
    if a == [] {
      assert a + b == b;
    } else {
      assert (a + b)[1..] == a[1..] + b;
      WithoutConcat(a[1..], b, keys);
    }
  }

  /** The invariant every cache operation keeps. */
  ghost predicate Bounded(c: Slots, cap: nat) {
    DistinctKeys(c) && |c| <= cap
  }

  lemma TouchKeepsBounded(c: Slots, cap: nat, key: CString)
    requires Bounded(c, cap)
    ensures Bounded(Touch(c, key), cap)
    ensures forall s :: s in Touch(c, key) <==> s in c
  {
    if Holds(c, key) {
      ErasedMembers(c, IndexOf(c, key));
    }
  }

  lemma ErasedMembers(c: Slots, k: nat)
    requires DistinctKeys(c) && k < |c|
    ensures forall s :: s in Erased(c, k) <==> s in c && s != c[k]
    ensures forall s :: s in Erased(c, k) ==> s.key != c[k].key
    ensures DistinctKeys(Erased(c, k))
  {
    assert c == c[..k] + [c[k]] + c[k + 1..];
    forall s | s in c && s != c[k]
      ensures s in Erased(c, k)
    {
    }
  }

  /** After a put the pair is in front, every other surviving entry was there before with the same value,
      and the only key that can be lost is the least recently used one, reported as evicted. */
  lemma PutKeepsBounded(c: Slots, cap: nat, key: CString, val: CString)
    requires cap > 0 && Bounded(c, cap)
    ensures var r := Put(c, cap, key, val);
            && Bounded(r.slots, cap)
            && r.slots != [] && r.slots[0] == Slot(key, val)
            && (forall s :: s in r.slots ==> s == Slot(key, val) || (s in c && s.key != key))
            && (forall s :: s in c && s.key != key ==> s in r.slots || r.evicted == Some(s.key))
            && (r.evicted.Some? <==> !Holds(c, key) && |c| == cap)
            && (r.evicted.Some? ==> r.evicted.value == c[|c| - 1].key)
  {
    if Holds(c, key) {
      ErasedMembers(c, IndexOf(c, key));
      assert forall s :: s in c && s.key != key ==> s in Erased(c, IndexOf(c, key));
    } else if |c| == cap {
      ErasedMembers(c, |c| - 1);
      assert Erased(c, |c| - 1) == c[..|c| - 1];
    }
  }

  /** The evicted key is the one that was held before a put and is not held afterwards. */
  lemma EvictedIsLost(c: Slots, cap: nat, key: CString, val: CString, v: CString)
    requires cap > 0 && Bounded(c, cap)
    ensures Put(c, cap, key, val).evicted == Some(v) <==> Holds(c, v) && !Holds(Put(c, cap, key, val).slots, v)
  {
    PutKeepsBounded(c, cap, key, val);
    var r := Put(c, cap, key, val);
    hide Put;
    if Holds(c, v) && v != key {
      assert c[IndexOf(c, v)] in r.slots || r.evicted == Some(v);
    }
    if r.evicted == Some(v) {
      assert c[|c| - 1].key == v;
    }
  }

  lemma ErasedPrefix(small: Slots, large: Slots, k: nat)
    requires small <= large && k < |large|
    ensures if k < |small| then Erased(small, k) <= Erased(large, k) else small <= Erased(large, k)
  {
    assert large == small + large[|small|..];
    if k < |small| {
      assert Erased(large, k) == Erased(small, k) + large[|small|..];
    } else {
      assert Erased(large, k)[..|small|] == small;
    }
  }

  lemma {:induction false} PrefixIndex(small: Slots, large: Slots, key: CString)
    requires small <= large && Holds(large, key) && DistinctKeys(large)
    ensures var k := IndexOf(large, key);
            && (Holds(small, key) <==> k < |small|)
            && (Holds(small, key) ==> IndexOf(small, key) == k)
            && (if k < |small| then Erased(small, k) <= Erased(large, k) else small <= Erased(large, k))
  {
    var k := IndexOf(large, key);
    ErasedPrefix(small, large, k);
    hide Erased;
    if k < |small| {
      assert small[k] == large[k] && Holds(small, key);
    }
    if Holds(small, key) {
      assert large[IndexOf(small, key)] == small[IndexOf(small, key)];
    }
  }

  /** Stack property: what a smaller cache holds stays a prefix of what a larger one holds. */
  lemma TouchKeepsPrefix(small: Slots, large: Slots, key: CString)
    requires DistinctKeys(large) && small <= large
    requires Holds(large, key) ==> Holds(small, key)
    ensures Touch(small, key) <= Touch(large, key)
  {
    if Holds(large, key) {
      PrefixIndex(small, large, key);
    }
  }

  lemma PutKeepsPrefix(small: Slots, large: Slots, cap: nat, cap': nat, key: CString, val: CString)
    requires 0 < cap <= cap' && Bounded(small, cap) && Bounded(large, cap') && small <= large
    ensures Put(small, cap, key, val).slots <= Put(large, cap', key, val).slots
  {
    if Holds(large, key) {
      PrefixIndex(small, large, key);
    }
  }

  /** A lookup just before a put of the same key leaves no trace. */
  lemma PutAfterTouch(c: Slots, cap: nat, key: CString, val: CString)
    requires cap > 0 && DistinctKeys(c)
    ensures Put(Touch(c, key), cap, key, val) == Put(c, cap, key, val)
  {
    if Holds(c, key) {
      var t := Touch(c, key);
      assert t[0].key == key;
      assert Erased(t, 0) == Erased(c, IndexOf(c, key));
    }
  }

  /** A hit on a cached pair has the effect of storing that pair again. */
  lemma TouchIsPut(c: Slots, cap: nat, key: CString)
    requires cap > 0 && Holds(c, key)
    ensures Touch(c, key) == Put(c, cap, key, c[IndexOf(c, key)].val).slots
  {
  }

  lemma {:induction false} WithoutKeepsPrefix(small: Slots, large: Slots, keys: set<CString>)
    requires small <= large
    ensures Without(small, keys) <= Without(large, keys)
  {
    assert large == small + large[|small|..];
    WithoutConcat(small, large[|small|..], keys);
  }
}
