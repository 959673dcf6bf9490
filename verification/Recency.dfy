/**
 Which documents a cache holds, told from the history of its uses alone.
 */
module Recency {
  import opened Hashing
  import opened Sequences
  import opened CacheModel

  datatype Event = Use(name: CString) | Gone(names: set<CString>)

  type History = seq<Event>

  function Before(h: History): History
    requires h != []
  {
    h[..|h| - 1]
  }

  function Latest(h: History): Event
    requires h != []
  {
    h[|h| - 1]
  }

  /** The other names used since the last use of a name, and not given away since. */
  function Ahead(h: History, name: CString): set<CString> {
    if h == [] then {}
    else
      match Latest(h)
      case Use(n) => if n == name then {} else Ahead(Before(h), name) + {n}
      case Gone(names) => Ahead(Before(h), name) - names
  }

  /** A name is cached if, ever since its last use, it was not given away and fewer than cap others have got
      ahead of it. */
  predicate Resident(h: History, cap: nat, name: CString) {
    h != [] &&
    match Latest(h)
    case Use(n) => n == name || (Resident(Before(h), cap, name) && |Ahead(h, name)| < cap)
    case Gone(names) => name !in names && Resident(Before(h), cap, name)
  }

  function Keys(c: Slots): set<CString> {
    set s | s in c :: s.key
  }

  /** The cache holds the resident names, each behind those that are ahead of it. */
  ghost predicate Follows(c: Slots, h: History, cap: nat) {
    && Bounded(c, cap)
    && (forall n :: Holds(c, n) <==> Resident(h, cap, n))
    && (forall i :: 0 <= i < |c| ==> Ahead(h, c[i].key) == Keys(c[..i]))
  }

  lemma {:induction false} CountKeys(c: Slots)
    requires DistinctKeys(c)
    ensures |Keys(c)| == |c|
  {
    if c != [] {
      var init, last := c[..|c| - 1], c[|c| - 1];
      CountKeys(init);
      assert c == init + [last];
      assert Keys(c) == Keys(init) + {last.key};
      assert last.key !in Keys(init);
    }
  }

  lemma NothingCached(cap: nat)
    ensures Follows([], [], cap)
  {
  }

  lemma HeldKeys(c: Slots, key: CString)
    ensures Holds(c, key) <==> key in Keys(c)
  {
    if Holds(c, key) {
      var i :| 0 <= i < |c| && c[i].key == key;
      assert c[i] in c;
    }
  }

  lemma AddedLast(h: History, e: Event)
    ensures Before(h + [e]) == h && Latest(h + [e]) == e
  {
  }

  /** The history alone determines the keys of the cache and their order. */
  lemma FollowsIsUnique(c: Slots, c': Slots, h: History, cap: nat)
    requires Follows(c, h, cap) && Follows(c', h, cap)
    ensures |c| == |c'| && forall i :: 0 <= i < |c| ==> c[i].key == c'[i].key
  {
    hide Follows;
    if |c| < |c'| {
      SamePlace(c', c, h, cap, |c|);
    } else if |c'| < |c| {
      SamePlace(c, c', h, cap, |c'|);
    }
    forall i | 0 <= i < |c|
      ensures c[i].key == c'[i].key
    {
      SamePlace(c, c', h, cap, i);
    }
  }

  lemma SamePlace(c: Slots, c': Slots, h: History, cap: nat, i: nat)
    requires Follows(c, h, cap) && Follows(c', h, cap) && i < |c|
    ensures i < |c'| && c[i].key == c'[i].key
  {
    assert Holds(c, c[i].key);
    var j :| 0 <= j < |c'| && c'[j].key == c[i].key;
    CountKeys(c[..i]);
    CountKeys(c'[..j]);
  }

  // A put of a name makes it the latest use.

  lemma NewUse(c: Slots, h: History, cap: nat, key: CString, val: CString)
    requires Follows(c, h, cap) && !Holds(c, key) && |c| < cap
    ensures Follows([Slot(key, val)] + c, h + [Use(key)], cap)
  {
    AddedLast(h, Use(key));
    var h', c' := h + [Use(key)], [Slot(key, val)] + c;
    forall i | 0 <= i < |c'|
      ensures Ahead(h', c'[i].key) == Keys(c'[..i])
    {
      if i > 0 {
        assert c'[..i] == [Slot(key, val)] + c[..i - 1];
        KeysOfCons(Slot(key, val), c[..i - 1]);
      }
    }
    forall n
      ensures Holds(c', n) <==> Resident(h', cap, n)
    {
      HoldsCons(Slot(key, val), c, n);
      if Holds(c, n) {
        FewAhead(c, h, cap, n);
      }
    }
  }

  lemma KeysOfCons(s: Slot, c: Slots)
    ensures Keys([s] + c) == {s.key} + Keys(c)
  {
  }

  lemma HoldsCons(s: Slot, c: Slots, n: CString)
    ensures Holds([s] + c, n) <==> n == s.key || Holds(c, n)
  {
    HeldKeys([s] + c, n);
    HeldKeys(c, n);
    KeysOfCons(s, c);
  }

  lemma FewAhead(c: Slots, h: History, cap: nat, n: CString)
    requires Follows(c, h, cap) && Holds(c, n)
    ensures |Ahead(h, n)| < |c|
  {
    var i :| 0 <= i < |c| && c[i].key == n;
    CountKeys(c[..i]);
  }

  lemma AheadOfNone(c: Slots, key: CString, i: nat)
    requires !Holds(c, key) && i <= |c|
    ensures key !in Keys(c[..i])
  {
    HeldKeys(c[..i], key);
    assert forall j :: 0 <= j < i ==> c[..i][j] == c[j];
  }

  lemma OneMoreAhead(c: Slots, h: History, cap: nat, key: CString, n: CString)
    requires Follows(c, h, cap) && !Holds(c, key) && Holds(c, n) && |c| == cap && cap > 0
    ensures |Ahead(h, n) + {key}| < cap <==> Holds(c[..cap - 1], n)
  {
    var i := PlaceOf(c, h, cap, n);
    hide Follows, Ahead, Keys;
    AheadOfNone(c, key, i);
    OnlyPlace(c, i);
  }

  lemma NewUseWhenFull(c: Slots, h: History, cap: nat, key: CString, val: CString)
    requires Follows(c, h, cap) && !Holds(c, key) && |c| == cap && cap > 0
    ensures Follows([Slot(key, val)] + c[..cap - 1], h + [Use(key)], cap)
  {
    AddedLast(h, Use(key));
    var h', kept := h + [Use(key)], c[..cap - 1];
    var c' := [Slot(key, val)] + kept;
    forall i | 0 <= i < |c'|
      ensures Ahead(h', c'[i].key) == Keys(c'[..i])
    {
      if i > 0 {
        assert c'[..i] == [Slot(key, val)] + c[..i - 1];
        KeysOfCons(Slot(key, val), c[..i - 1]);
      }
    }
    forall n
      ensures Holds(c', n) <==> Resident(h', cap, n)
    {
      HoldsCons(Slot(key, val), kept, n);
      if Holds(c, n) {
        OneMoreAhead(c, h, cap, key, n);
      } else {
        assert !Holds(kept, n) by { assert forall i :: 0 <= i < cap - 1 ==> kept[i] == c[i]; }
      }
    }
  }

  lemma OnlyPlace(c: Slots, i: nat)
    requires DistinctKeys(c) && i < |c|
    ensures Holds(c[..|c| - 1], c[i].key) <==> i < |c| - 1
  {
    if i < |c| - 1 {
      assert c[..|c| - 1][i] == c[i];
    }
  }

  lemma UseAgain(c: Slots, h: History, cap: nat, k: nat, val: CString)
    requires Follows(c, h, cap) && k < |c|
    ensures Follows([Slot(c[k].key, val)] + Erased(c, k), h + [Use(c[k].key)], cap)
  {
    var key := c[k].key;
    AddedLast(h, Use(key));
    var h', rest := h + [Use(key)], Erased(c, k);
    var c' := [Slot(key, val)] + rest;
    ErasedElements(c, k);
    ErasedMembers(c, k);
    forall i | 0 <= i < |c'|
      ensures Ahead(h', c'[i].key) == Keys(c'[..i])
    {
      if i > 0 {
        assert c'[..i] == [Slot(key, val)] + rest[..i - 1];
        KeysOfCons(Slot(key, val), rest[..i - 1]);
        KeysOfErased(c, k, i - 1);
      }
    }
    forall n
      ensures Holds(c', n) <==> Resident(h', cap, n)
    {
      HoldsCons(Slot(key, val), rest, n);
      HeldErased(c, k, n);
      if Holds(c, n) && n != key {
        FewAheadAgain(c, h, cap, k, n);
      }
    }
  }

  lemma KeysOfErased(c: Slots, k: nat, i: nat)
    requires DistinctKeys(c) && k < |c| && i < |c| - 1
    ensures Erased(c, k)[i] == c[if i < k then i else i + 1]
    ensures {c[k].key} + Keys(Erased(c, k)[..i]) == {c[k].key} + Keys(c[..if i < k then i else i + 1])
  {
    ErasedElements(c, k);
    if i < k {
      assert Erased(c, k)[..i] == c[..i];
    } else {
      assert Erased(c, k)[..i] == c[..k] + c[k + 1..i + 1];
      assert c[..i + 1] == c[..k] + [c[k]] + c[k + 1..i + 1];
    }
  }

  lemma HeldErased(c: Slots, k: nat, n: CString)
    requires DistinctKeys(c) && k < |c|
    ensures Holds(Erased(c, k), n) <==> Holds(c, n) && n != c[k].key
  {
    ErasedMembers(c, k);
    HeldKeys(Erased(c, k), n);
    HeldKeys(c, n);
  }

  lemma FewAheadAgain(c: Slots, h: History, cap: nat, k: nat, n: CString)
    requires Follows(c, h, cap) && k < |c| && Holds(c, n) && n != c[k].key
    ensures |Ahead(h, n) + {c[k].key}| < |c|
  {
    var i := PlaceOf(c, h, cap, n);
    hide Follows, Ahead;
    OneMoreKey(c, i, k, Ahead(h, n));
  }

  lemma OneMoreKey(c: Slots, i: nat, k: nat, a: set<CString>)
    requires i < |c| && k < |c| && i != k && a == Keys(c[..i]) && |a| == i
    ensures |a + {c[k].key}| < |c|
  {
    OneMore(a, c[k].key);
    if k < i {
      assert c[..i][k] in c[..i];
    }
  }

  lemma OneMore(s: set<CString>, x: CString)
    ensures |s + {x}| == if x in s then |s| else |s| + 1
  {
    if x in s {
      assert s + {x} == s;
    }
  }

  /** The place of a cached name is the number of names ahead of it. */
  lemma PlaceOf(c: Slots, h: History, cap: nat, n: CString) returns (i: nat)
    requires Follows(c, h, cap) && Holds(c, n)
    ensures i < |c| && c[i].key == n && Ahead(h, n) == Keys(c[..i]) && |Ahead(h, n)| == i
    ensures DistinctKeys(c)
  {
    i :| 0 <= i < |c| && c[i].key == n;
    CountKeys(c[..i]);
  }

  /** Storing a pair in the cache is a use of its name. */
  lemma PutFollows(c: Slots, h: History, cap: nat, key: CString, val: CString)
    requires Follows(c, h, cap) && cap > 0
    ensures Follows(Put(c, cap, key, val).slots, h + [Use(key)], cap)
  {
    hide Follows, Resident;
    if Holds(c, key) {
      UseAgain(c, h, cap, IndexOf(c, key), val);
    } else if |c| == cap {
      NewUseWhenFull(c, h, cap, key, val);
    } else {
      assert |c| < cap by { FollowsBounded(c, h, cap); }
      NewUse(c, h, cap, key, val);
    }
  }

  lemma FollowsBounded(c: Slots, h: History, cap: nat)
    requires Follows(c, h, cap)
    ensures Bounded(c, cap)
  {
  }

  /** So is a hit. */
  lemma TouchFollows(c: Slots, h: History, cap: nat, key: CString)
    requires Follows(c, h, cap) && Holds(c, key)
    ensures Follows(Touch(c, key), h + [Use(key)], cap)
  {
    hide Follows, Resident;
    UseAgain(c, h, cap, IndexOf(c, key), c[IndexOf(c, key)].val);
  }

  // Names that are given away leave, and the others close up.

  lemma {:induction false} WithoutPlace(c: Slots, names: set<CString>, i: nat)
    requires i < |c| && c[i].key !in names
    ensures var j := |Without(c[..i], names)|;
            && j < |Without(c, names)| && Without(c, names)[j] == c[i]
            && Without(c, names)[..j] == Without(c[..i], names)
  {
    assert c == c[..i] + c[i..];
    WithoutConcat(c[..i], c[i..], names);
    assert Without(c[i..], names)[0] == c[i];
  }

  lemma {:induction false} PlaceBefore(c: Slots, names: set<CString>, j: nat) returns (i: nat)
    requires j < |Without(c, names)|
    ensures i < |c| && c[i].key !in names && |Without(c[..i], names)| == j
  {
    if c[0].key in names {
      i := PlaceBefore(c[1..], names, j);
      i := i + 1;
      assert c[..i] == [c[0]] + c[1..][..i - 1];
    } else if j == 0 {
      i := 0;
    } else {
      i := PlaceBefore(c[1..], names, j - 1);
      i := i + 1;
      assert c[..i] == [c[0]] + c[1..][..i - 1];
    }
  }

  lemma WithoutKeys(c: Slots, names: set<CString>)
    ensures Keys(Without(c, names)) == Keys(c) - names
  {
    forall s
      ensures s in Without(c, names) <==> s in c && s.key !in names
    {
      WithoutMembers(c, names, s);
    }
  }

  lemma WithoutFollows(c: Slots, h: History, cap: nat, names: set<CString>)
    requires Follows(c, h, cap)
    ensures Follows(Without(c, names), h + [Gone(names)], cap)
  {
    AddedLast(h, Gone(names));
    var h', c' := h + [Gone(names)], Without(c, names);
    WithoutKeepsBounded(c, cap, names);
    forall j | 0 <= j < |c'|
      ensures Ahead(h', c'[j].key) == Keys(c'[..j])
    {
      var i := PlaceBefore(c, names, j);
      WithoutPlace(c, names, i);
      WithoutKeys(c[..i], names);
    }
    forall n
      ensures Holds(c', n) <==> Resident(h', cap, n)
    {
      WithoutKeys(c, names);
      HeldKeys(c', n);
      HeldKeys(c, n);
    }
  }
}
