/** Rounded division, and the gas margins built on it. */
module Rounding {

  const TRANSFER_GAS: nat := 21000

  /** Rounds up: the floor of the negated numerator, negated. */
  function CeilDiv(numerator: nat, denominator: nat): (quotient: nat)
    requires denominator > 0
  {
    -(-(numerator as int) / denominator)
  }

  /** The quotient of a floor division lies in the only unit interval that holds it. */
  lemma FloorBounds(n: int, d: int)
    requires d > 0
    ensures (n / d) * d <= n < (n / d) * d + d
  {
  }

  lemma FloorIsLargest(n: int, d: int, q: int)
    requires d > 0
    ensures q * d <= n <==> q <= n / d
  {
    FloorBounds(n, d);
    if q <= n / d {
      assert q * d <= (n / d) * d by { MulLe(q, n / d, d); }
    } else {
      assert (n / d + 1) * d <= q * d by { MulLe(n / d + 1, q, d); }
      assert (n / d + 1) * d == (n / d) * d + d;
    }
  }

  lemma MulLe(a: int, b: int, c: int)
    requires a <= b && c >= 0
    ensures a * c <= b * c
  {
    assert (b - a) * c >= 0;
    assert (b - a) * c == b * c - a * c;
  }

  lemma FloorBetween(n: int, d: int, low: int, high: int)
    requires d > 0 && low * d <= n < high * d + d
    ensures low <= n / d <= high
  {
    FloorIsLargest(n, d, low);
    FloorIsLargest(n, d, high + 1);
    assert (high + 1) * d == high * d + d;
  }

  /** CeilDiv is the least quotient that is enough. */
  lemma CeilIsLeast(n: nat, d: nat, q: int)
    requires d > 0
    ensures n <= q * d <==> CeilDiv(n, d) <= q
    ensures n <= CeilDiv(n, d) * d < n + d
  {
    FloorIsLargest(-(n as int), d, -q);
    assert (-q) * d == -(q * d);
    FloorBounds(-(n as int), d);
    assert (-(n as int) / d) * d == -(CeilDiv(n, d) * d);
  }

  lemma FloorMonotone(a: int, b: int, d: int)
    requires a <= b && d > 0
    ensures a / d <= b / d
  {
    FloorBounds(a, d);
    FloorIsLargest(b, d, a / d);
  }

  function PlusAQuarter(amount: nat): (raised: nat) {
    -(-(amount as int) * 5 / 4)
  }

  function GasLimitFromEstimate(estimate: nat): (limit: nat) {
    if estimate <= TRANSFER_GAS then estimate else PlusAQuarter(estimate)
  }

  /** The margin is the least whole amount at least 25% above, so a replacement clears
      the 10% a node asks for. */
  lemma PlusAQuarterIsLeast(amount: nat, q: int)
    ensures 4 * q >= 5 * amount <==> q >= PlusAQuarter(amount)
    ensures 10 * PlusAQuarter(amount) >= 11 * amount
  {
  }

  /** The gas limit covers the estimate, is exact for a transfer and monotone. */
  lemma GasLimitCovers(estimate: nat, larger: nat)
    requires estimate <= larger
    ensures estimate <= GasLimitFromEstimate(estimate) <= GasLimitFromEstimate(larger)
    ensures estimate > TRANSFER_GAS ==> 5 * estimate <= 4 * GasLimitFromEstimate(estimate) < 5 * estimate + 4
    ensures GasLimitFromEstimate(TRANSFER_GAS) == TRANSFER_GAS
  {
  }
}
