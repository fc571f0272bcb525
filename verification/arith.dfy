/** Facts about integer multiplication and division that the frame and
    block computations rely on. */
module Arith {

  /** Multiplying by the same natural number keeps the order. */
  lemma MulLe(a: nat, b: nat, c: nat)
    requires a <= b
    ensures a * c <= b * c
  {
  }

  /** Integer division is determined by quotient and remainder. */
  lemma DivUnique(a: nat, r: nat, q: nat, m: nat)
    requires 0 < r && m < r && a == q * r + m
    ensures a / r == q
  {
    var q', m' := a / r, a % r;
    assert a == q' * r + m' && m' < r;
    assert (q' + 1) * r == q' * r + r && (q + 1) * r == q * r + r;
    if q' < q {
      MulLe(q' + 1, q, r);
      assert false;
    } else if q < q' {
      MulLe(q + 1, q', r);
      assert false;
    }
  }
}
