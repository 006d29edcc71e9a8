/**
 The scaled-integer view of an exact decimal: a quantity is its raw number of 10^-18 units.
 Products of two raw values are divided by the scale and truncated toward zero, as
 pkg/decimal does; Decimal.dfy proves that the 128-bit limb code computes exactly these
 functions, so the order book and the ledger can work on raw integers.
 */
module FixedPoint {

  // 10^18, the number of raw units in 1.
  const SCALE: int := 1_000_000_000_000_000_000

  function Abs(x: int): nat {
    if x < 0 then -x else x
  }

  function Min(a: int, b: int): int {
    if a <= b then a else b
  }

  /** Quotient truncated toward zero (Dafny's own `/` is Euclidean). */
  function TruncDiv(n: int, d: int): int
    requires d != 0
  {
    if (n < 0) != (d < 0) then -(Abs(n) / Abs(d)) else Abs(n) / Abs(d)
  }

  /** The product of two raw values, rescaled and truncated toward zero. */
  function MulRaw(x: int, y: int): int {
    TruncDiv(x * y, SCALE)
  }

  /** The quotient of two raw values, rescaled and truncated toward zero. */
  function DivRaw(x: int, y: int): int
    requires y != 0
  {
    TruncDiv(x * SCALE, y)
  }

  lemma MulRawNonNeg(x: int, y: int)
    requires 0 <= x && 0 <= y
    ensures MulRaw(x, y) == x * y / SCALE
    ensures 0 <= MulRaw(x, y)
  {
    assert 0 <= x * y;
  }

  lemma DivMonotone(m: int, n: int)
    requires 0 <= m <= n
    ensures 0 <= m / SCALE <= n / SCALE
  {
  }

  lemma MulRawMonotone(x: int, x': int, y: int, y': int)
    requires 0 <= x <= x' && 0 <= y <= y'
    ensures 0 <= MulRaw(x, y) <= MulRaw(x', y')
  {
    MulRawNonNeg(x, y);
    MulRawNonNeg(x', y');
    assert x * y <= x' * y;
    assert x' * y <= x' * y';
    DivMonotone(x * y, x' * y');
  }

  /** The same for a lower price of either sign: truncation is toward zero. */
  lemma MulRawBelow(x: int, y: int, y': int)
    requires 0 <= x && y <= y' && 0 <= y'
    ensures MulRaw(x, y) <= MulRaw(x, y')
  {
    MulRawNonNeg(x, y');
    if y >= 0 {
      MulRawMonotone(x, x, y, y');
    } else {
      MulRawNegative(x, y);
    }
  }

  lemma MulRawNegative(x: int, y: int)
    requires 0 <= x && y <= 0
    ensures MulRaw(x, y) == -MulRaw(x, -y) <= 0
  {
    MulRawNonNeg(x, -y);
    assert x * -y == -(x * y);
    assert x * y <= 0;
  }

  /** Less of a quantity whose truncated cost is not negative costs not less than nothing either. */
  lemma PartNotNegative(x: int, x': int, y: int)
    requires x <= x' && 0 < x' && 0 <= MulRaw(x', y) && (x < 0 ==> y <= 0)
    ensures 0 <= x || 0 <= y ==> 0 <= MulRaw(x, y)
  {
    if 0 <= x && 0 <= y {
      MulRawNonNeg(x, y);
    } else if 0 <= x {
      MulRawNegative(x, y);
      MulRawNegative(x', y);
      MulRawMonotone(x, x', -y, -y);
    }
  }

  lemma FloorSplit(m: nat, n: nat)
    ensures (m + n) / SCALE == m / SCALE + n / SCALE + (m % SCALE + n % SCALE) / SCALE
    ensures 0 <= (m % SCALE + n % SCALE) / SCALE <= 1
  {
  }

  /** Truncation loses at most one raw unit when a product is split in two, and loses it
      exactly when the two fractional parts carry. */
  lemma MulRawSplit(q: int, r: int, price: int)
    requires 0 <= q && 0 <= r && 0 <= price
    ensures MulRaw(q + r, price) ==
            MulRaw(q, price) + MulRaw(r, price) + Carry(q, r, price)
    ensures 0 <= Carry(q, r, price) <= 1
  {
    MulRawNonNeg(q, price);
    MulRawNonNeg(r, price);
    MulRawNonNeg(q + r, price);
    assert (q + r) * price == q * price + r * price;
    FloorSplit(q * price, r * price);
  }

  /** One when the fractional parts of the two products add up to a whole raw unit. */
  function Carry(q: int, r: int, price: int): int {
    ((q * price) % SCALE + (r * price) % SCALE) / SCALE
  }
}
