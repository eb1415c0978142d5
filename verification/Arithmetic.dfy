/** Facts about multiplication and division that the solver needs told. */
module Arithmetic {
  function Max(a: int, b: nat): (m: nat)
    ensures m >= a && m >= b && (m == a || m == b)
  {
    if a < b then b else a
  }

  lemma MulMonotone(p: int, q: int, d: nat)
    requires p <= q
    ensures p * d <= q * d
  {
  }

  lemma MulNext(p: int, d: int)
    ensures (p + 1) * d == p * d + d
  {
  }

  lemma MulDouble(p: int, d: int)
    ensures p * (2 * d) == (2 * p) * d
  {
  }

  lemma MulStep(p: int, q: int, d: nat)
    requires p < q
    ensures p * d + d <= q * d
  {
    MulMonotone(p + 1, q, d);
    assert (p + 1) * d == p * d + d;
  }

  lemma DivisionIsUnique(a: nat, b: nat, k: nat)
    requires k * b <= a < k * b + b
    ensures a / b == k
  {
    var q := a / b;
    assert q * b <= a < q * b + b;
    if q < k {
      MulStep(q, k, b);
    } else if q > k {
      MulStep(k, q, b);
    }
  }

  lemma DivisionIsAtLeast(a: nat, b: nat, k: nat)
    requires b > 0 && k * b <= a
    ensures a / b >= k
  {
    var q := a / b;
    assert a < q * b + b;
    if q < k {
      MulStep(q, k, b);
    }
  }
}
