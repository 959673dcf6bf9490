/**
 The two hash functions of the program and the machine types they work on.
 */
module Hashing {
  /** `unsigned int` of the C program. */
  type UInt32 = x: int | 0 <= x < 0x1_0000_0000

  /** A C string without its terminator: a sequence of non-zero bytes. */
  type NonZeroByte = c: int | 1 <= c < 256 witness 1
  type CString = seq<NonZeroByte>

  function MulWrapping(a: UInt32, b: UInt32): UInt32 {
    a * b % 0x1_0000_0000
  }

  function AddWrapping(a: UInt32, b: UInt32): UInt32 {
    (a + b) % 0x1_0000_0000
  }

  /** Exclusive or of two natural numbers, bit by bit. */
  function Xor(a: nat, b: nat): nat {
    if a == 0 && b == 0 then 0 else 2 * Xor(a / 2, b / 2) + if a % 2 == b % 2 then 0 else 1
  }

  /** Xor-ing twice with the same number gives back what was there. */
  lemma {:induction false} XorCancels(a: nat, b: nat)
    ensures Xor(a, Xor(a, b)) == b
  {
    if a != 0 || b != 0 {
      XorCancels(a / 2, b / 2);
      var x := Xor(a, b);
      assert x / 2 == Xor(a / 2, b / 2) && (x % 2 == 0 <==> a % 2 == b % 2);
    }
  }

  function Power2(n: nat): nat {
    if n == 0 then 1 else 2 * Power2(n - 1)
  }

  lemma {:induction false} XorBounded(a: nat, b: nat, bits: nat)
    requires a < Power2(bits) && b < Power2(bits)
    ensures Xor(a, b) < Power2(bits)
  {
    if bits > 0 {
      XorBounded(a / 2, b / 2, bits - 1);
    }
  }

  lemma XorOfHalfWords(a: nat, b: nat)
    requires a < 0x1_0000 && b < 0x1_0000
    ensures Xor(a, b) < 0x1_0000
  {
    assert Power2(8) == 0x100;
    assert Power2(12) == 0x1000;
    assert Power2(16) == 0x1_0000;
    XorBounded(a, b, 16);
  }

  /** `(k >> 16) ^ k`: the high half is xor-ed onto the low half. */
  function XorShift(k: UInt32): UInt32 {
    var high, low := k / 0x1_0000, k % 0x1_0000;
    XorOfHalfWords(high, low);
    high * 0x1_0000 + Xor(high, low)
  }

  /** Position of a label on the ring. */
  function HashUint(key: UInt32): UInt32 {
    var k1 := MulWrapping(XorShift(key), 0x45d9f3b);
    var k2 := MulWrapping(XorShift(k1), 0x45d9f3b);
    XorShift(k2)
  }

  /** The label that hashes to a given position. */
  function UnhashUint(point: UInt32): UInt32 {
    var k2 := MulWrapping(XorShift(point), 0x119de1f3);
    var k1 := MulWrapping(XorShift(k2), 0x119de1f3);
    XorShift(k1)
  }

  lemma MultiplierHasInverse(k: UInt32)
    ensures MulWrapping(MulWrapping(k, 0x45d9f3b), 0x119de1f3) == k
  {
    var product: int := k * 0x45d9f3b;
    var q, r := product / 0x1_0000_0000, product % 0x1_0000_0000;
    assert r * 0x119de1f3 == (k * 0x4ce8d8 - q * 0x119de1f3) * 0x1_0000_0000 + k;
  }

  lemma {:induction false} InverseHasMultiplier(k: UInt32)
    ensures MulWrapping(MulWrapping(k, 0x119de1f3), 0x45d9f3b) == k
  {
    var product: int := k * 0x119de1f3;
    var q, r := product / 0x1_0000_0000, product % 0x1_0000_0000;
    assert r * 0x45d9f3b == (k * 0x4ce8d8 - q * 0x45d9f3b) * 0x1_0000_0000 + k;
  }

  lemma XorShiftIsInvolution(k: UInt32)
    ensures XorShift(XorShift(k)) == k
  {
    var high, low := k / 0x1_0000, k % 0x1_0000;
    XorOfHalfWords(high, low);
    XorCancels(high, low);
    var x := Xor(high, low);
    assert (high * 0x1_0000 + x) / 0x1_0000 == high && (high * 0x1_0000 + x) % 0x1_0000 == x;
  }

  /** `hash_uint` is a bijection on 32-bit values, with UnhashUint as its inverse. */
  lemma HashUintBijective(key: UInt32)
    ensures UnhashUint(HashUint(key)) == key
    ensures HashUint(UnhashUint(key)) == key
  {
    hide XorShift, MulWrapping;
    forall k: UInt32
      ensures XorShift(XorShift(k)) == k
      ensures MulWrapping(MulWrapping(k, 0x45d9f3b), 0x119de1f3) == k
      ensures MulWrapping(MulWrapping(k, 0x119de1f3), 0x45d9f3b) == k
    {
      XorShiftIsInvolution(k);
      MultiplierHasInverse(k);
      InverseHasMultiplier(k);
    }
  }

  /** Distinct labels never collide on the ring. */
  lemma HashUintInjective(a: UInt32, b: UInt32)
    ensures HashUint(a) == HashUint(b) ==> a == b
  {
    hide HashUint, UnhashUint;
    HashUintBijective(a);
    HashUintBijective(b);
  }

  /** djb2: the positional value of the bytes in base 33, reduced once at the end. */
  function Base33(s: CString): int {
    if |s| == 0 then 5381 else 33 * Base33(s[..|s| - 1]) + s[|s| - 1]
  }

  /** Position of a document name on the ring. */
  function HashString(s: CString): UInt32 {
    Base33(s) % 0x1_0000_0000
  }

  /** Reducing a summand first makes no difference. */
  lemma ReduceFirst(x: int, y: int)
    ensures (x % 0x1_0000_0000 + y) % 0x1_0000_0000 == (x + y) % 0x1_0000_0000
  {
  }

  lemma WrappingStep(value: int, c: NonZeroByte)
    ensures AddWrapping(AddWrapping(MulWrapping(value % 0x1_0000_0000, 32), value % 0x1_0000_0000), c)
         == (33 * value + c) % 0x1_0000_0000
  {
    var q, h := value / 0x1_0000_0000, value % 0x1_0000_0000;
    ReduceFirst(32 * h, h);
    ReduceFirst(33 * h, c);
    Unwrap(33 * q, 33 * h + c);
  }

  lemma Unwrap(q: int, x: int)
    ensures (q * 0x1_0000_0000 + x) % 0x1_0000_0000 == x % 0x1_0000_0000
  {
  }

  /** The loop wraps at every step; the result is the base-33 value reduced once. */
  method ComputeHashString(key: CString) returns (hash: UInt32)
    ensures hash == HashString(key)
  {
    hash := 5381;
    for i := 0 to |key|
      invariant hash == HashString(key[..i])
    {
      assert key[..i + 1][..i] == key[..i];
      WrappingStep(Base33(key[..i]), key[i]);
      hash := AddWrapping(AddWrapping(MulWrapping(hash, 32), hash), key[i]);
    }
    assert key[..|key|] == key;
  }

  // Every 32-bit value is the hash of some name.

  function Power33(k: nat): nat {
    if k == 0 then 1 else 33 * Power33(k - 1)
  }

  /** The least positional value of k bytes. */
  function Least(k: nat): nat {
    if k == 0 then 5381 else 33 * Least(k - 1) + 1
  }

  /** The name of k bytes that stands d above the least one. */
  function NameAbove(k: nat, d: nat): CString {
    if k == 0 then [] else NameAbove(k - 1, d / 33) + [d % 33 + 1]
  }

  lemma {:induction false} ValueOfNameAbove(k: nat, d: nat)
    requires d < Power33(k)
    ensures Base33(NameAbove(k, d)) == Least(k) + d
  {
    if k > 0 {
      ValueOfNameAbove(k - 1, d / 33);
      var s := NameAbove(k, d);
      assert s[..|s| - 1] == NameAbove(k - 1, d / 33);
    }
  }

  lemma HashStringOnto(v: UInt32)
    ensures exists s :: HashString(s) == v
  {
    var d := (v - Least(7)) % 0x1_0000_0000;
    assert Power33(7) == 42618442977;
    ValueOfNameAbove(7, d);
    assert HashString(NameAbove(7, d)) == v;
  }
}
