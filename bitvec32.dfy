/** `BitVec32` of src/day16a.rs and src/day16b.rs (the two files hold the same
    copy): a set of small indices packed into one `u32`.  The `u32` is modelled
    as its 32 bits, bit i standing for 2^i, and the bitwise operators act on
    them bit by bit.  The value is copied with its `State`, so `set` is
    modelled as a function returning the new value. */
module Bits32 {

  /** The 32 bits of a `u32`. */
  type Word = s: seq<bool> | |s| == 32 witness seq(32, i => false)

  /** The word 0. */
  function Zero(): Word
  {
    seq(32, i => false)
  }

  /** `1 << index`: only bit `index` set. */
  function Mask(index: nat): Word
    requires index < 32
  {
    seq(32, i => i == index)
  }

  /** `x | y`. */
  function Or(x: Word, y: Word): Word
  {
    seq(32, i requires 0 <= i < 32 => x[i] || y[i])
  }

  /** `x & y`. */
  function And(x: Word, y: Word): Word
  {
    seq(32, i requires 0 <= i < 32 => x[i] && y[i])
  }

  /** `!x`. */
  function Not(x: Word): Word
  {
    seq(32, i requires 0 <= i < 32 => !x[i])
  }

  /** `x ^ y`. */
  function Xor(x: Word, y: Word): Word
  {
    seq(32, i requires 0 <= i < 32 => x[i] != y[i])
  }

  /** A word is 0 exactly when none of its bits is set. */
  lemma ZeroMeansNoBit(x: Word)
    ensures x == Zero() <==> forall i :: 0 <= i < 32 ==> !x[i]
  {
    if forall i :: 0 <= i < 32 ==> !x[i] {
      assert x == Zero();
    }
  }

  datatype BitVec32 = BitVec32(bits: Word)

  /** `BitVec32::new`: no bit set. */
  function New(): (r: BitVec32)
    ensures forall i :: 0 <= i < 32 ==> !Get(r, i)
  {
    ZeroMeansNoBit(And(Zero(), Zero()));
    BitVec32(Zero())
  }

  /** `BitVec32::get`: bit `index` of the word.  The shift `1 << index`
      overflows a `u32` from 32 on, so the index must be below 32. */
  function Get(b: BitVec32, index: nat): bool
    requires index < 32
  {
    b.bits[index]
  }

  /** That bit is what the source's test `bits & (1 << index) != 0` reads. */
  lemma GetIsMaskTest(b: BitVec32, index: nat)
    requires index < 32
    ensures Get(b, index) == (And(b.bits, Mask(index)) != Zero())
  {
    var x := And(b.bits, Mask(index));
    ZeroMeansNoBit(x);
    assert x[index] == b.bits[index];
  }

  /** `BitVec32::set`: afterwards bit `index` reads `value` and no other bit changed. */
  function Set(b: BitVec32, index: nat, value: bool): (r: BitVec32)
    requires index < 32
    ensures Get(r, index) == value
    ensures forall j :: 0 <= j < 32 && j != index ==> Get(r, j) == Get(b, j)
  {
    BitVec32(b.bits[index := value])
  }

  /** And the new word is the source's `bits | (1 << index)` when setting and
      `bits & !(1 << index)` when clearing. */
  lemma SetIsMaskUpdate(b: BitVec32, index: nat, value: bool)
    requires index < 32
    ensures Set(b, index, value).bits ==
              if value then Or(b.bits, Mask(index)) else And(b.bits, Not(Mask(index)))
  {
  }

  /** The test `a.bits ^ b.bits == 0`. */
  predicate XorIsZero(a: BitVec32, b: BitVec32)
  {
    Xor(a.bits, b.bits) == Zero()
  }

  /** A zero xor means the two words are the same. */
  lemma XorIsZeroMeansSame(a: BitVec32, b: BitVec32)
    ensures XorIsZero(a, b) <==> a == b
  {
    var x := Xor(a.bits, b.bits);
    ZeroMeansNoBit(x);
    if XorIsZero(a, b) {
      forall i | 0 <= i < 32
        ensures a.bits[i] == b.bits[i]
      {
        assert !x[i];
      }
      assert a.bits == b.bits;
    }
  }

  /** Number of set bits among the indices below `n` (`u32::count_ones` for n = 32). */
  function CountOnesBelow(b: BitVec32, n: nat): (c: nat)
    requires n <= 32
    ensures c <= n
  {
    if n == 0 then 0 else CountOnesBelow(b, n - 1) + (if Get(b, n - 1) then 1 else 0)
  }

  function CountOnes(b: BitVec32): nat
  {
    CountOnesBelow(b, 32)
  }

  /** Every set bit lies in 1..k. */
  predicate BitsWithin(b: BitVec32, k: nat)
  {
    forall i :: 0 <= i < 32 && Get(b, i) ==> 1 <= i <= k
  }

  /** When the set bits lie in 1..k (k < 32), below n at most min(n-1, k) of them
      are set, and exactly that many iff all of 1..min(n-1, k) are set. */
  lemma {:induction false} CountOnesWithin(b: BitVec32, k: nat, n: nat)
    requires k < 32 && n <= 32 && BitsWithin(b, k)
    ensures var m := if n == 0 then 0 else if n - 1 < k then n - 1 else k;
            CountOnesBelow(b, n) <= m &&
            (CountOnesBelow(b, n) == m <==> forall i :: 1 <= i <= m ==> Get(b, i))
  {
    if n > 0 {
      CountOnesWithin(b, k, n - 1);
    }
  }

  /** With the set bits in 1..k, `count_ones() == k` holds exactly when every bit of 1..k is set. */
  lemma CountOnesIsFull(b: BitVec32, k: nat)
    requires k < 32 && BitsWithin(b, k)
    ensures CountOnes(b) == k <==> forall i :: 1 <= i <= k ==> Get(b, i)
  {
    CountOnesWithin(b, k, 32);
  }
}
