/**
 The resizable array that holds the labels of the ring, ordered by a comparison its callers pass in.
 */
module ArrayLists {
  import opened Wrappers
  import opened Sequences

  predicate PowerOfTwo(n: nat) {
    n == 1 || (n > 1 && n % 2 == 0 && PowerOfTwo(n / 2))
  }

  /** What al_get and al_erase make of an index: past the end means the last element. */
  function Clamp(index: nat, size: nat): nat
    requires size > 0
  {
    if index >= size then size - 1 else index
  }

  /** The comparison never falls along the sequence. */
  ghost predicate Ascending<T, U>(s: seq<T>, target: U, compare: (T, U) -> int) {
    forall i, j :: 0 <= i < j < |s| && compare(s[i], target) >= 0 ==> compare(s[j], target) >= 0
  }

  class ArrayList<T> {
    var data: array<Option<T>>
    var size: nat
    var capacity: nat
    ghost var Contents: seq<T>

    /** The capacity is a power of two, and at least half of it is in use. */
    ghost predicate Valid()
      reads this, data
    {
      && data.Length == capacity && PowerOfTwo(capacity)
      && capacity / 2 <= size <= capacity && size == |Contents|
      && forall i :: 0 <= i < size ==> data[i] == Some(Contents[i])
    }

    constructor ()
      ensures Valid() && Contents == [] && fresh(data)
    {
      data := new Option<T>[1](_ => None);
      size, capacity := 0, 1;
      Contents := [];
    }

    method Resize(newCap: nat)
      requires data.Length == capacity && size == |Contents| <= newCap && size <= capacity
      requires forall i :: 0 <= i < size ==> data[i] == Some(Contents[i])
      modifies this`data, this`capacity
      ensures fresh(data) && data.Length == capacity == newCap
      ensures forall i :: 0 <= i < size ==> data[i] == Some(Contents[i])
    {
      var old_ := data;
      var kept := if capacity < newCap then capacity else newCap;
      data := new Option<T>[newCap](i reads old_ => if 0 <= i < kept <= old_.Length then old_[i] else None);
      capacity := newCap;
    }

    function Get(index: nat): (x: T)
      requires Valid() && size > 0
      reads this, data
      ensures x == Contents[Clamp(index, size)]
    {
      data[if index >= size then size - 1 else index].value
    }

    /** Binary search for the first element that is not before the target; the first of all if there is none. */
    method GetOrdered<U>(target: U, compare: (T, U) -> int) returns (x: T, ghost k: nat)
      requires Valid() && size > 0 && Ascending(Contents, target, compare)
      ensures x in Contents && (compare(x, target) >= 0 || forall y :: y in Contents ==> compare(y, target) < 0)
      ensures k < |Contents| && x == Contents[k]
      ensures forall i :: 0 <= i < k ==> compare(Contents[i], target) < 0
      ensures compare(x, target) < 0 ==>
                k == 0 && x == Contents[0] && forall i :: 0 <= i < |Contents| ==> compare(Contents[i], target) < 0
    {
      var left, right, ans := 0, size - 1, 0;
      while left <= right
        invariant 0 <= left <= right + 1 <= size
        invariant if right + 1 == size then ans == 0 else ans == right + 1
        invariant forall i :: 0 <= i < left ==> compare(Contents[i], target) < 0
        invariant forall i :: right < i < size ==> compare(Contents[i], target) >= 0
      {
        var mid := (left + right) / 2;
        if compare(Get(mid), target) >= 0 {
          ans := mid;
          right := mid - 1;
        } else {
          left := 1 + mid;
        }
      }
      k := ans;
      x := Get(ans);
    }

    /** The search that runs the wrong way. It ends at an exact match or at 0; as the key is unique, the scan
        from there still finds the target exactly when it is present, in whatever order the elements are. */
    method FindBy<U, V>(bsKey: U, target: V, bsCompare: (T, U) -> int, compare: (T, V) -> int) returns (r: int)
      requires Valid()
      requires forall x :: x in Contents && compare(x, target) == 0 ==> bsCompare(x, bsKey) == 0
      requires forall i, j :: 0 <= i < j < |Contents| && bsCompare(Contents[i], bsKey) == 0
                              ==> bsCompare(Contents[j], bsKey) != 0
      ensures -1 <= r < |Contents|
      ensures r >= 0 ==> compare(Contents[r], target) == 0
      ensures r == -1 <==> forall x :: x in Contents ==> compare(x, target) != 0
    {
      var left, right, ans := 0, size - 1, 0;
      while left <= right
        invariant 0 <= left <= right + 1 <= size
        invariant ans == 0 || (0 < ans < size && bsCompare(Contents[ans], bsKey) == 0)
      {
        var mid := (left + right) / 2;
        var c := bsCompare(Get(mid), bsKey);
        if c < 0 {
          right := -1 + mid;
        } else if c > 0 {
          left := 1 + mid;
        } else {
          ans := mid;
          left := 1 + mid;
        }
      }
      for i := ans to size
        invariant 0 <= i && forall j :: 0 <= j < i <= size ==> compare(Contents[j], target) != 0
      {
        if compare(Get(i), target) == 0 {
          return i;
        }
      }
      return -1;
    }

    method Erase(index: nat)
      requires Valid() && size > 0
      modifies this, data
      ensures Valid() && (data == old(data) || fresh(data))
      ensures Contents == Erased(old(Contents), Clamp(index, |old(Contents)|))
    {
      var index := if index >= size then size - 1 else index;
      var i := index;
      while i < size - 1
        modifies data
        invariant index <= i <= size - 1
        invariant forall j :: 0 <= j < index ==> data[j] == Some(Contents[j])
        invariant forall j :: index <= j < i ==> data[j] == Some(Contents[j + 1])
        invariant forall j :: i <= j < size ==> data[j] == Some(Contents[j])
      {
        data[i] := data[i + 1];
        i := i + 1;
      }
      size := size - 1;
      Contents := Erased(Contents, index);
      if size < capacity / 2 {
        Resize(capacity / 2);
      }
    }

    /** Opens a gap at the index: everything from there on moves one slot up. */
    method ShiftUp(index: nat)
      requires data.Length == capacity && index <= size == |Contents| < capacity
      requires forall i :: 0 <= i < size ==> data[i] == Some(Contents[i])
      modifies data
      ensures forall i :: 0 <= i < index ==> data[i] == Some(Contents[i])
      ensures forall i :: index < i <= size ==> data[i] == Some(Contents[i - 1])
    {
      var i := size;
      while i > index
        invariant index <= i <= size
        invariant forall j :: 0 <= j < i ==> data[j] == Some(Contents[j])
        invariant forall j :: i < j <= size ==> data[j] == Some(Contents[j - 1])
      {
        data[i] := data[i - 1];
        i := i - 1;
      }
    }

    method Insert(index: nat, x: T)
      requires Valid() && index <= size
      modifies this, data
      ensures Valid() && (data == old(data) || fresh(data))
      ensures Contents == Inserted(old(Contents), index, x)
    {
      if size == capacity {
        Resize(2 * capacity);
      }
      assert PowerOfTwo(capacity);
      hide PowerOfTwo;
      ShiftUp(index);
      data[index] := Some(x);
      size := size + 1;
      Contents := Inserted(Contents, index, x);
    }

    /** Inserts before the first greater element. */
    method InsertOrdered(x: T, compare: (T, T) -> int) returns (ans: nat)
      requires Valid()
      requires forall i, j :: 0 <= i < j < |Contents| && compare(Contents[i], x) > 0 ==> compare(Contents[j], x) > 0
      modifies this, data
      ensures Valid() && (data == old(data) || fresh(data))
      ensures ans <= |old(Contents)| && Contents == Inserted(old(Contents), ans, x)
      ensures forall i :: 0 <= i < ans ==> compare(old(Contents)[i], x) <= 0
      ensures forall i :: ans <= i < |old(Contents)| ==> compare(old(Contents)[i], x) > 0
    {
      if size == 0 {
        Insert(0, x);
        return 0;
      }
      var left, right := 0, size - 1;
      ans := size;
      while left <= right
        invariant 0 <= left <= right + 1 == ans <= size
        invariant forall i :: 0 <= i < left ==> compare(Contents[i], x) <= 0
        invariant forall i :: ans <= i < size ==> compare(Contents[i], x) > 0
      {
        var mid := (left + right) / 2;
        if compare(Get(mid), x) > 0 {
          ans := mid;
          right := mid - 1;
        } else {
          left := mid + 1;
        }
      }
      Insert(ans, x);
    }
  }
}
