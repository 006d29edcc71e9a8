/**
 Machine words as pkg/decimal uses them: 64-bit words and the carry operations of math/bits,
 written over mathematical integers.
 */
module Words {

  const B: int := 0x1_0000_0000_0000_0000

  type U64 = x: int | 0 <= x < 0x1_0000_0000_0000_0000
  type I64 = x: int | -0x8000_0000_0000_0000 <= x < 0x8000_0000_0000_0000

  const SIGN_BIT: int := 0x8000_0000_0000_0000

  /** bits.Add64 */
  function Add64(x: U64, y: U64, carry: U64): (r: (U64, U64))
    requires carry <= 1
    ensures r.0 + r.1 * B == x + y + carry && r.1 <= 1
  {
    ((x + y + carry) % B, (x + y + carry) / B)
  }

  /** bits.Sub64 */
  function Sub64(x: U64, y: U64, borrow: U64): (r: (U64, U64))
    requires borrow <= 1
    ensures r.0 - r.1 * B == x - y - borrow && r.1 <= 1
  {
    if x - y - borrow < 0 then (x - y - borrow + B, 1) else (x - y - borrow, 0)
  }

  lemma ProductBound(x: int, y: int, m: int, n: int)
    requires 0 <= x <= m && 0 <= y <= n
    ensures 0 <= x * y <= m * n
  {
    assert x * y <= m * y;
    assert m * y <= m * n;
  }

  /** bits.Mul64: high and low words of the product. */
  function Mul64(x: U64, y: U64): (r: (U64, U64))
    ensures r.0 * B + r.1 == x * y
    ensures r.0 <= B - 2
  {
    ProductBound(x, y, B - 1, B - 1);
    ((x * y) / B, (x * y) % B)
  }

  lemma QuotientFits(hi: int, lo: int, d: int)
    requires 0 <= hi < d && 0 <= lo < B
    ensures 0 <= (hi * B + lo) / d < B
  {
    var n := hi * B + lo;
    assert n < d * B;
    assert n / d * d <= n;
    BelowFactor(n / d, B, d);
  }

  lemma BelowFactor(q: int, b: int, d: int)
    requires 0 < d && q * d < b * d
    ensures q < b
  {
    assert (b - q) * d == b * d - q * d;
  }

  lemma EuclidUnique(n: int, d: int, q: int, r: int)
    requires 0 < d && n == q * d + r && 0 <= r < d
    ensures n / d == q && n % d == r
  {
    var q', r' := n / d, n % d;
    assert n == q' * d + r';
    assert (q - q') * d == r' - r;
    SmallMultiple(q - q', d);
  }

  lemma SmallMultiple(k: int, d: int)
    requires 0 < d && -d < k * d < d
    ensures k == 0
  {
    assert k >= 1 ==> (k - 1) * d >= 0;
    assert k <= -1 ==> (-1 - k) * d >= 0;
  }

  /** bits.Div64: quotient and remainder of hi:lo by d; the quotient must fit one word. */
  function Div64(hi: U64, lo: U64, d: U64): (r: (U64, U64))
    requires hi < d
    ensures r.0 * d + r.1 == hi * B + lo && r.1 < d
  {
    QuotientFits(hi, lo, d);
    ((hi * B + lo) / d, (hi * B + lo) % d)
  }

  /** An int64 sum that wraps around. */
  function WrapI64(x: int): (r: I64)
    ensures (r - x) % B == 0
  {
    var m := x % B;
    if m >= SIGN_BIT then m - B else m
  }

  /** uint64 of an int64, and back. */
  function AsU64(x: I64): (r: U64)
    ensures r == if x < 0 then x + B else x
  {
    if x < 0 then x + B else x
  }

  function AsI64(x: U64): (r: I64)
    ensures r == if x >= SIGN_BIT then x - B else x
  {
    if x >= SIGN_BIT then x - B else x
  }
}
