/** The few facts of nonlinear arithmetic the other modules need. */
module Arithmetic {

  lemma MulMonotone(a: int, b: int, c: nat)
    requires a <= b
    ensures a * c <= b * c
  {
  }

  /** The quotient and the remainder of a division are determined by their defining equation. */
  lemma DivUnique(n: int, base: nat, q: int, r: nat)
    requires n == q * base + r && r < base
    ensures n / base == q && n % base == r
  {
    var d := n / base;
    assert n == d * base + n % base;
    if d < q {
      MulMonotone(d + 1, q, base);
    } else if q < d {
      MulMonotone(q + 1, d, base);
    }
  }
}
