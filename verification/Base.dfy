/**
  Types and arithmetic that several modules share.
 */
module Base {

  type Octet = x: int | 0 <= x < 256

  datatype Option<T> = None | Some(value: T)

  function Min(a: nat, b: nat): nat { if a < b then a else b }

  function Pow2(n: nat): (r: nat)
    ensures r > 0
  {
    if n == 0 then 1 else 2 * Pow2(n - 1)
  }

  // ---- Products and quotients ------------------------------------------------------------------------

  lemma MulMonotone(a: int, b: int, d: nat)
    requires a <= b
    ensures a * d <= b * d
  {}

  lemma MulOrder(a: nat, b: nat, d: nat)
    requires a < b
    ensures a * d + d <= b * d
  {
    MulMonotone(a + 1, b, d);
  }

  lemma DivMul(x: nat, d: nat)
    requires d > 0
    ensures x / d * d <= x < x / d * d + d && x % d == x - x / d * d
  {}

  lemma QuotientIs(v: nat, q: nat, r: nat, d: nat)
    requires r < d && v == r + q * d
    ensures v / d == q
  {
    DivMul(v, d);
    if v / d < q {
      MulOrder(v / d, q, d);
    } else if q < v / d {
      MulOrder(q, v / d, d);
    }
  }
}
