/** Integer facts shared by the grid and divisibility models. */
module Arith {
  lemma MulLeq(a: nat, b: nat, c: nat)
    requires a <= b
    ensures a * c <= b * c
  {
  }

  /** Quotient and remainder are the only such pair. */
  lemma DivModUnique(i: int, w: int, q: int, r: int)
    requires w > 0 && 0 <= r < w && i == q * w + r
    ensures i / w == q && i % w == r
  {
    var q', r' := i / w, i % w;
    assert (q' - q) * w == r - r';
    SmallMultiple(q' - q, w);
  }

  lemma SmallMultiple(a: int, w: int)
    requires w > 0 && -w < a * w < w
    ensures a == 0
  {
    if a >= 1 {
      MulLeq(1, a, w);
    }
  }

  /** Adding a multiple of w leaves the remainder modulo w alone. */
  lemma ModShift(v: int, w: int, j: int)
    requires w > 0
    ensures (v + w * j) % w == v % w
  {
    var q, r := v / w, v % w;
    assert v + w * j == (q + j) * w + r;
    DivModUnique(v + w * j, w, q + j, r);
  }
}
