module Sequences {
  /** No element occurs twice. */
  ghost predicate Distinct<T>(s: seq<T>) {
    forall i, j :: 0 <= i < j < |s| ==> s[i] != s[j]
  }

  /** Inserting at a position. */
  function Inserted<T>(s: seq<T>, k: nat, x: T): seq<T>
    requires k <= |s|
  {
    s[..k] + [x] + s[k..]
  }

  /** Erasing at a position. */
  function Erased<T>(s: seq<T>, k: nat): seq<T>
    requires k < |s|
  {
    s[..k] + s[k + 1..]
  }

  lemma InsertedElements<T>(s: seq<T>, k: nat, x: T)
    requires k <= |s|
    ensures |Inserted(s, k, x)| == |s| + 1
    ensures forall i {:trigger Inserted(s, k, x)[i]} :: 0 <= i <= |s| ==>
              Inserted(s, k, x)[i] == if i < k then s[i] else if i == k then x else s[i - 1]
  {
  }

  lemma ErasedElements<T>(s: seq<T>, k: nat)
    requires k < |s|
    ensures |Erased(s, k)| == |s| - 1
    ensures forall i {:trigger Erased(s, k)[i]} :: 0 <= i < |s| - 1 ==>
              Erased(s, k)[i] == if i < k then s[i] else s[i + 1]
  {
  }

  /** Moving an element to the front. */
  function ToFront<T>(s: seq<T>, k: nat): seq<T>
    requires k < |s|
  {
    Inserted(Erased(s, k), 0, s[k])
  }

  lemma ToFrontElements<T>(s: seq<T>, k: nat)
    requires k < |s|
    ensures |ToFront(s, k)| == |s|
    ensures forall i {:trigger ToFront(s, k)[i]} :: 0 <= i < |s| ==>
              ToFront(s, k)[i] == if i == 0 then s[k] else if i <= k then s[i - 1] else s[i]
  {
  }
}
