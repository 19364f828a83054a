/** Facts about multiples of a variable unit, kept apart because they are not linear. */
module Arith {

  /** Successive multiples are a unit apart. */
  lemma MulStep(unit: nat, k: nat, j: nat)
    requires k < j
    ensures k * unit + unit <= j * unit
  {
    assert j * unit == (k + 1) * unit + (j - k - 1) * unit;
    assert (j - k - 1) * unit >= 0;
  }

  lemma MulInjective(unit: nat, k: nat, j: nat)
    requires unit > 0 && k * unit == j * unit
    ensures k == j
  {
    if k < j { MulStep(unit, k, j); }
    if j < k { MulStep(unit, j, k); }
  }

  /** A multiple divides back. */
  lemma Quotient(d: nat, q: nat)
    requires d > 0
    ensures (q * d) / d == q && (q * d) % d == 0
  {
    var n := q * d;
    assert n == d * (n / d) + n % d;
    var e := q - n / d;
    assert d * e == n % d;
    if e > 0 { MulStep(d, 0, e); }
  }
}
