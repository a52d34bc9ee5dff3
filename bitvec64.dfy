/** `BitVec64` of src/day16.rs: a set of indices below 64 packed into one `u64`.
    The word is modelled as its low and high 32-bit halves (bit i of the word is
    bit i of `low` for i < 32 and bit i - 32 of `high` otherwise).  The value is
    copied with its `State`, so `set` is modelled as a function returning the new value. */
module Bits64 {
  import Bits32

  datatype BitVec64 = BitVec64(low: Bits32.BitVec32, high: Bits32.BitVec32)

  /** `BitVec64::new`: no bit set. */
  function New(): (r: BitVec64)
    ensures forall i :: 0 <= i < 64 ==> !Get(r, i)
  {
    BitVec64(Bits32.New(), Bits32.New())
  }

  /** `BitVec64::get`. The shift `1 << index` overflows a `u64` from 64 on,
      so the index must be below 64. */
  function Get(b: BitVec64, index: nat): bool
    requires index < 64
  {
    if index < 32 then Bits32.Get(b.low, index) else Bits32.Get(b.high, index - 32)
  }

  /** `BitVec64::set`: afterwards bit `index` reads `value` and no other bit changed. */
  function Set(b: BitVec64, index: nat, value: bool): (r: BitVec64)
    requires index < 64
    ensures Get(r, index) == value
    ensures forall j :: 0 <= j < 64 && j != index ==> Get(r, j) == Get(b, j)
  {
    if index < 32 then b.(low := Bits32.Set(b.low, index, value))
    else b.(high := Bits32.Set(b.high, index - 32, value))
  }

  /** The test `a.bits ^ b.bits == 0`, half by half. */
  predicate XorIsZero(a: BitVec64, b: BitVec64)
  {
    Bits32.XorIsZero(a.low, b.low) && Bits32.XorIsZero(a.high, b.high)
  }

  /** A zero xor means the two words are the same. */
  lemma XorIsZeroMeansSame(a: BitVec64, b: BitVec64)
    ensures XorIsZero(a, b) <==> a == b
  {
    Bits32.XorIsZeroMeansSame(a.low, b.low);
    Bits32.XorIsZeroMeansSame(a.high, b.high);
  }
}
