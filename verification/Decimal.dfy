/**
 pkg/decimal: exact base-ten numbers as 128-bit two's-complement pairs. Every operation is
 written on machine words, branch by branch, and specified against mathematical integers: it
 gives the exact (truncated) result, or it panics, exactly when that result does not fit.
 */
module Decimal {
  import opened FixedPoint
  import opened Words

  datatype Dec = Dec(hi: I64, lo: U64)

  datatype Outcome<T> = Ok(value: T) | Panic

  const TWO127: int := 0x8000_0000_0000_0000_0000_0000_0000_0000

  /** The scaled integer a pair stands for. */
  function Raw(d: Dec): (r: int)
    ensures InRange(r)
  {
    d.hi * B + d.lo
  }

  predicate InRange(x: int) {
    -TWO127 <= x < TWO127
  }

  /** Representations are unique: the pair is a canonical form. */
  lemma RawInjective(d: Dec, e: Dec)
    requires Raw(d) == Raw(e)
    ensures d == e
  {
  }

  // ----- addition and comparison ---------------------------------------------------------

  function Add(d: Dec, e: Dec): (r: Outcome<Dec>)
    ensures r.Ok? <==> InRange(Raw(d) + Raw(e))
    ensures r.Ok? ==> Raw(r.value) == Raw(d) + Raw(e)
  {
    var (lo, carry) := Add64(d.lo, e.lo, 0);
    var hi := WrapI64(d.hi + e.hi + carry);
    if (d.hi < 0) == (e.hi < 0) && (hi < 0) != (d.hi < 0) then Panic else Ok(Dec(hi, lo))
  }

  function Sub(d: Dec, e: Dec): (r: Outcome<Dec>)
    ensures r.Ok? <==> InRange(Raw(d) - Raw(e))
    ensures r.Ok? ==> Raw(r.value) == Raw(d) - Raw(e)
  {
    var (lo, borrow) := Sub64(d.lo, e.lo, 0);
    var hi := WrapI64(d.hi - e.hi - borrow);
    if (d.hi < 0) != (e.hi < 0) && (hi < 0) != (d.hi < 0) then Panic else Ok(Dec(hi, lo))
  }

  /** -1, 0 or 1: the order of the integers. */
  function Cmp(d: Dec, e: Dec): (r: int)
    ensures r == if Raw(d) < Raw(e) then -1 else if Raw(d) == Raw(e) then 0 else 1
  {
    if d.hi != e.hi then if d.hi < e.hi then -1 else 1
    else if d.lo != e.lo then if d.lo < e.lo then -1 else 1
    else 0
  }

  function Sign(d: Dec): (r: int)
    ensures r == if Raw(d) < 0 then -1 else if Raw(d) == 0 then 0 else 1
  {
    if d.hi < 0 then -1 else if d.hi == 0 && d.lo == 0 then 0 else 1
  }

  // ----- magnitudes ----------------------------------------------------------------------

  function AbsMag(d: Dec): (r: (U64, U64, bool))
    ensures r.0 * B + r.1 == Abs(Raw(d)) <= TWO127
    ensures r.2 <==> Raw(d) < 0
  {
    if d.hi < 0 then
      var (lo, borrow) := Sub64(0, d.lo, 0);
      var (hi, _) := Sub64(0, AsU64(d.hi), borrow);
      (hi, lo, true)
    else (AsU64(d.hi), d.lo, false)
  }

  function FromMag(mhi: U64, mlo: U64, neg: bool): (r: Outcome<Dec>)
    ensures var v := if neg then -(mhi * B + mlo) else mhi * B + mlo;
            (r.Ok? <==> InRange(v)) && (r.Ok? ==> Raw(r.value) == v)
  {
    if neg then
      if mhi > SIGN_BIT || (mhi == SIGN_BIT && mlo > 0) then Panic
      else
        var (lo, borrow) := Sub64(0, mlo, 0);
        var (hi, _) := Sub64(0, mhi, borrow);
        Ok(Dec(AsI64(hi), lo))
    else if mhi >= SIGN_BIT then Panic
    else Ok(Dec(AsI64(mhi), mlo))
  }

  // ----- multiplication ------------------------------------------------------------------

  /** Value of four limbs, least significant first. */
  function Value4(p0: int, p1: int, p2: int, p3: int): int {
    p0 + B * (p1 + B * (p2 + B * p3))
  }

  lemma ProductLimbs(ahi: U64, alo: U64, bhi: U64, blo: U64)
    ensures (ahi * B + alo) * (bhi * B + blo)
         == alo * blo + B * (alo * bhi) + B * (ahi * blo) + B * (B * (ahi * bhi))
    ensures 0 <= (ahi * B + alo) * (bhi * B + blo) < B * B * B * B
  {
    var a, b := ahi * B + alo, bhi * B + blo;
    Expand(ahi, alo, bhi, blo);
    ProductBound(a, b, B * B - 1, B * B - 1);
    assert (B * B - 1) * (B * B - 1) < B * B * B * B;
  }

  lemma Expand(ahi: int, alo: int, bhi: int, blo: int)
    ensures (ahi * B + alo) * (bhi * B + blo)
         == alo * blo + B * (alo * bhi) + B * (ahi * blo) + B * (B * (ahi * bhi))
  {
    var x, y := ahi * B, bhi * B;
    assert (x + alo) * (y + blo) == x * y + x * blo + alo * y + alo * blo;
    assert x * y == B * (B * (ahi * bhi));
    assert x * blo == B * (ahi * blo);
    assert alo * y == B * (alo * bhi);
  }

  /** The columns of the schoolbook product, with their carries. */
  function Columns(llHi: U64, llLo: U64, lhHi: U64, lhLo: U64, hlHi: U64, hlLo: U64, hhHi: U64,
      hhLo: U64): (p: (U64, U64, U64, U64))
    ensures var v := (llHi * B + llLo) + B * (lhHi * B + lhLo) + B * (hlHi * B + hlLo) + B * (B * (hhHi * B + hhLo));
            v < B * B * B * B ==> Value4(p.0, p.1, p.2, p.3) == v
  {
    var (s1, c1) := Add64(llHi, lhLo, 0);
    var (p1, c2) := Add64(s1, hlLo, 0);
    var carry1 := c1 + c2;
    var (s2, c3) := Add64(lhHi, hlHi, 0);
    var (s3, c4) := Add64(s2, hhLo, 0);
    var (p2, c5) := Add64(s3, carry1, 0);
    var carry2 := c3 + c4 + c5;
    LimbCarries(llHi, llLo, lhHi, lhLo, hlHi, hlLo, hhHi, hhLo, s1, c1, p1, c2, s2, c3, s3, c4, p2, c5);
    assert Value4(llLo, p1, p2, hhHi + carry2) < B * B * B * B ==> hhHi + carry2 < B;
    (llLo, p1, p2, (hhHi + carry2) % B)
  }

  /** The 256-bit product of two 128-bit magnitudes, schoolbook on 64-bit words. */
  function Mul128To256(ahi: U64, alo: U64, bhi: U64, blo: U64): (p: (U64, U64, U64, U64))
    ensures Value4(p.0, p.1, p.2, p.3) == (ahi * B + alo) * (bhi * B + blo)
  {
    var (llHi, llLo) := Mul64(alo, blo);
    var (lhHi, lhLo) := Mul64(alo, bhi);
    var (hlHi, hlLo) := Mul64(ahi, blo);
    var (hhHi, hhLo) := Mul64(ahi, bhi);
    ProductLimbs(ahi, alo, bhi, blo);
    Columns(llHi, llLo, lhHi, lhLo, hlHi, hlLo, hhHi, hhLo)
  }

  /** The carries of the schoolbook columns lose nothing. */
  lemma LimbCarries(llHi: int, llLo: int, lhHi: int, lhLo: int, hlHi: int, hlLo: int, hhHi: int, hhLo: int,
                    s1: int, c1: int, p1: int, c2: int, s2: int, c3: int, s3: int, c4: int, p2: int, c5: int)
    requires s1 + c1 * B == llHi + lhLo && p1 + c2 * B == s1 + hlLo
    requires s2 + c3 * B == lhHi + hlHi && s3 + c4 * B == s2 + hhLo && p2 + c5 * B == s3 + c1 + c2
    ensures Value4(llLo, p1, p2, hhHi + c3 + c4 + c5)
         == (llHi * B + llLo) + B * (lhHi * B + lhLo) + B * (hlHi * B + hlLo) + B * (B * (hhHi * B + hhLo))
  {
  }

  lemma ChainedDivision(n0: int, n1: int, n2: int, n3: int, d: int,
                        q0: int, q1: int, q2: int, q3: int, r0: int, r1: int, r2: int, r3: int)
    requires q3 * d + r3 == n3 && q2 * d + r2 == r3 * B + n2 && q1 * d + r1 == r2 * B + n1 && q0 * d + r0 == r1 * B + n0
    ensures Value4(n0, n1, n2, n3) == Value4(q0, q1, q2, q3) * d + r0
  {
    var v1 := q2 + B * q3;
    var v2 := q1 + B * v1;
    assert v1 * d == q2 * d + B * (q3 * d);
    assert v2 * d == q1 * d + B * (v1 * d);
    assert (q0 + B * v2) * d == q0 * d + B * (v2 * d);
  }

  /** Divide a 256-bit value by one word, a word at a time. */
  function Div256By64(n0: U64, n1: U64, n2: U64, n3: U64, d: U64): (q: (U64, U64, U64, U64))
    requires d > 0
    ensures Value4(q.0, q.1, q.2, q.3) == Value4(n0, n1, n2, n3) / d
  {
    var (q3, r3) := Div64(0, n3, d);
    var (q2, r2) := Div64(r3, n2, d);
    var (q1, r1) := Div64(r2, n1, d);
    var (q0, r0) := Div64(r1, n0, d);
    ChainedDivision(n0, n1, n2, n3, d, q0, q1, q2, q3, r0, r1, r2, r3);
    EuclidUnique(Value4(n0, n1, n2, n3), d, Value4(q0, q1, q2, q3), r0);
    (q0, q1, q2, q3)
  }

  lemma AbsProduct(x: int, y: int)
    ensures Abs(x * y) == Abs(x) * Abs(y)
    ensures x != 0 && y != 0 ==> x * y != 0 && (x * y < 0 <==> (x < 0) != (y < 0))
  {
    assert (-x) * y == -(x * y) && x * (-y) == -(x * y) && (-x) * (-y) == x * y;
    if x > 0 && y > 0 { assert x * y > 0; }
    if x < 0 && y > 0 { assert (-x) * y > 0; }
    if x > 0 && y < 0 { assert x * (-y) > 0; }
    if x < 0 && y < 0 { assert (-x) * (-y) > 0; }
  }

  /** A signed quotient truncated toward zero, from magnitudes and signs. */
  lemma SignedQuotient(n: int, d: int, mag: int, neg: bool)
    requires 0 < d && mag == Abs(n) / d && (n != 0 ==> (neg <==> n < 0))
    ensures TruncDiv(n, d) == if neg then -mag else mag
  {
  }

  function Mul(d: Dec, e: Dec): (r: Outcome<Dec>)
    ensures r.Ok? <==> InRange(MulRaw(Raw(d), Raw(e)))
    ensures r.Ok? ==> Raw(r.value) == MulRaw(Raw(d), Raw(e))
  {
    var (amhi, amlo, aneg) := AbsMag(d);
    var (bmhi, bmlo, bneg) := AbsMag(e);
    var (p0, p1, p2, p3) := Mul128To256(amhi, amlo, bmhi, bmlo);
    var (q0, q1, q2, q3) := Div256By64(p0, p1, p2, p3, SCALE);
    var result := if q2 != 0 || q3 != 0 then Panic else FromMag(q1, q0, aneg != bneg);
    MulIsExact(d, e, (amhi, amlo, aneg), (bmhi, bmlo, bneg), q0, q1, q2, q3);
    QuotientOutcome(MulRaw(Raw(d), Raw(e)), aneg != bneg, q0, q1, q2, q3);
    result
  }

  /** Packing a sign and a quotient magnitude back into a pair, or failing, is exact. */
  lemma QuotientOutcome(v: int, neg: bool, q0: U64, q1: U64, q2: U64, q3: U64)
    requires v == if neg then -Value4(q0, q1, q2, q3) else Value4(q0, q1, q2, q3)
    ensures var r := if q2 != 0 || q3 != 0 then Panic else FromMag(q1, q0, neg);
            (r.Ok? <==> InRange(v)) && (r.Ok? ==> Raw(r.value) == v)
  {
    HighLimbs(q0, q1, q2, q3);
  }

  lemma MulIsExact(d: Dec, e: Dec, a: (U64, U64, bool), b: (U64, U64, bool), q0: U64, q1: U64, q2: U64, q3: U64)
    requires a == AbsMag(d) && b == AbsMag(e)
    requires Value4(q0, q1, q2, q3) == (a.0 * B + a.1) * (b.0 * B + b.1) / SCALE
    ensures MulRaw(Raw(d), Raw(e)) == if a.2 != b.2 then -Value4(q0, q1, q2, q3) else Value4(q0, q1, q2, q3)
  {
    var x, y := Raw(d), Raw(e);
    AbsProduct(x, y);
    SignedQuotient(x * y, SCALE, Value4(q0, q1, q2, q3), a.2 != b.2);
  }

  lemma HighLimbs(q0: U64, q1: U64, q2: U64, q3: U64)
    ensures q2 == 0 && q3 == 0 <==> Value4(q0, q1, q2, q3) < B * B
    ensures q2 == 0 && q3 == 0 ==> Value4(q0, q1, q2, q3) == q1 * B + q0
  {
  }

  // ----- division ------------------------------------------------------------------------

  function Pow2(k: nat): (p: nat)
    ensures p >= 1
  {
    if k == 0 then 1 else 2 * Pow2(k - 1)
  }

  lemma {:induction false} Pow2Add(a: nat, b: nat)
    ensures Pow2(a + b) == Pow2(a) * Pow2(b)
  {
    if a > 0 {
      Pow2Add(a - 1, b);
      assert 2 * (Pow2(a - 1) * Pow2(b)) == (2 * Pow2(a - 1)) * Pow2(b);
    }
  }

  lemma Pow2Word()
    ensures Pow2(63) == SIGN_BIT && Pow2(64) == B
  {
    assert Pow2(8) == 256;
    Pow2Add(8, 8);
    Pow2Add(16, 16);
    Pow2Add(32, 31);
    Pow2Add(16, 15);
    Pow2Add(8, 7);
    assert Pow2(63) == SIGN_BIT;
  }

  lemma DivDiv(n: nat, a: nat, b: nat)
    requires a > 0 && b > 0
    ensures a * b > 0 && n / (a * b) == n / a / b
  {
    var q1 := n / a;
    var r1, q2, r2 := n % a, q1 / b, q1 % b;
    NestedRemainder(n, a, b, q1, r1, q2, r2);
    EuclidUnique(n, a * b, q2, r2 * a + r1);
  }

  lemma NestedRemainder(n: int, a: int, b: int, q1: int, r1: int, q2: int, r2: int)
    requires 0 <= r1 < a && 0 <= r2 < b && n == q1 * a + r1 && q1 == q2 * b + r2
    ensures 0 <= r2 * a + r1 < a * b && n == q2 * (a * b) + (r2 * a + r1)
  {
    assert (q2 * b + r2) * a == q2 * (a * b) + r2 * a;
    ProductBound(r2, a, b - 1, a);
    assert (b - 1) * a == a * b - a;
  }

  /** Adding a multiple of 2p changes no bit below, nor the parity of the quotient by p. */
  lemma EvenMultiple(low: nat, p: nat, k: nat)
    requires p > 0
    ensures (low + 2 * k * p) / p % 2 == low / p % 2
  {
    var q, r := low / p, low % p;
    assert low == q * p + r;
    assert (q + 2 * k) * p == q * p + 2 * k * p;
    EuclidUnique(low + 2 * k * p, p, q + 2 * k, r);
  }

  /** Bit `shift` of a number is that bit of its lowest word. */
  lemma BitOfWord(low: U64, high: nat, shift: nat)
    requires shift < 64
    ensures (low + B * high) / Pow2(shift) % 2 == low / Pow2(shift) % 2
  {
    var p, t := Pow2(shift), Pow2(63 - shift);
    Pow2Word();
    Pow2Add(shift, 63 - shift);
    EvenWord(high, p, t);
    EvenMultiple(low, p, t * high);
  }

  lemma EvenWord(high: nat, p: nat, t: nat)
    requires B == 2 * (p * t)
    ensures B * high == 2 * (t * high) * p
  {
    assert (p * t) * high == (t * high) * p;
  }

  /** Value of the words from index j on. */
  ghost function Tail(n: seq<U64>, j: nat): (v: nat)
    requires j <= |n|
    decreases |n| - j
  {
    if j == |n| then 0 else n[j] + B * Tail(n, j + 1)
  }

  lemma TailIsValue4(n: seq<U64>)
    requires |n| == 4
    ensures Tail(n, 0) == Value4(n[0], n[1], n[2], n[3])
  {
    assert Tail(n, 4) == 0;
    assert Tail(n, 3) == n[3];
    assert Tail(n, 2) == n[2] + B * n[3];
    assert Tail(n, 1) == n[1] + B * (n[2] + B * n[3]);
  }

  lemma {:induction false} ShiftWords(n: seq<U64>, j: nat)
    requires j <= |n|
    ensures Tail(n, 0) / Pow2(64 * j) == Tail(n, j)
  {
    if j > 0 {
      ShiftWords(n, j - 1);
      Pow2Word();
      Pow2Add(64 * (j - 1), 64);
      assert 64 * (j - 1) + 64 == 64 * j;
      DivDiv(Tail(n, 0), Pow2(64 * (j - 1)), B);
      EuclidUnique(Tail(n, j - 1), B, Tail(n, j), n[j - 1]);
    }
  }

  /** The bit the loop brings down is bit i of the numerator. */
  lemma NumeratorBit(n: seq<U64>, i: nat)
    requires |n| == 4 && i < 256
    ensures n[i / 64] / Pow2(i % 64) % 2 == Tail(n, 0) / Pow2(i) % 2
  {
    var j, s := i / 64, i % 64;
    ShiftWords(n, j);
    Pow2Add(64 * j, s);
    DivDiv(Tail(n, 0), Pow2(64 * j), Pow2(s));
    BitOfWord(n[j], Tail(n, j + 1), s);
  }

  lemma {:induction false} TailUpdate(q: seq<U64>, j: nat, v: nat, k: nat)
    requires k <= j < |q| && q[j] + v < B
    ensures Tail(q[j := q[j] + v], k) == Tail(q, k) + Pow2(64 * (j - k)) * v
    decreases j - k
  {
    var q' := q[j := q[j] + v];
    if k == j {
      TailSame(q, q', j + 1);
    } else {
      TailUpdate(q, j, v, k + 1);
      Pow2Word();
      Pow2Add(64, 64 * (j - k - 1));
      assert 64 + 64 * (j - k - 1) == 64 * (j - k);
      assert B * (Pow2(64 * (j - k - 1)) * v) == (B * Pow2(64 * (j - k - 1))) * v;
    }
  }

  lemma {:induction false} TailSame(q: seq<U64>, q': seq<U64>, k: nat)
    requires |q| == |q'| && k <= |q| && forall i :: k <= i < |q| ==> q[i] == q'[i]
    ensures Tail(q, k) == Tail(q', k)
    decreases |q| - k
  {
    if k < |q| { TailSame(q, q', k + 1); }
  }

  /** A word whose low bits are clear has room for one more. */
  lemma RoomForBit(word: int, m: int, t: int, p: int)
    requires 0 < p && word == m * (2 * p) && B == t * (2 * p) && word < B
    ensures word + p < B
  {
    BelowFactor(m, t, 2 * p);
    assert (t - m - 1) * (2 * p) >= 0;
    assert (t - m - 1) * (2 * p) == t * (2 * p) - m * (2 * p) - 2 * p;
  }

  /** The word that receives quotient bit i is still clear up to and including that bit. */
  lemma ClearBit(q: seq<U64>, i: nat, decided: nat)
    requires |q| == 4 && i < 256 && Tail(q, 0) == decided * (2 * Pow2(i))
    ensures q[i / 64] + Pow2(i % 64) < B
  {
    hide Tail, Pow2;
    var j, s := i / 64, i % 64;
    var p, t, high := Pow2(s), Pow2(63 - s), Tail(q, j + 1);
    Pow2Add(64 * j, s);
    ClearWord(Tail(q, 0), decided, Pow2(64 * j), p);
    ShiftWords(q, j);
    TailStep(q, j);
    Pow2Word();
    Pow2Add(s, 63 - s);
    Pow2Step(63);
    TwiceProduct(p, t);
    WordBelow(q[j], high, decided, t, p);
    RoomForBit(q[j], decided - t * high, t, p);
  }

  lemma Pow2Step(k: nat)
    ensures Pow2(k + 1) == 2 * Pow2(k)
  {
  }

  lemma TwiceProduct(p: int, t: int)
    ensures 2 * (p * t) == t * (2 * p)
  {
  }

  lemma TailStep(n: seq<U64>, j: nat)
    requires j < |n|
    ensures Tail(n, j) == n[j] + B * Tail(n, j + 1)
  {
  }

  lemma ClearWord(v: int, decided: int, low: int, p: int)
    requires low > 0 && v == decided * (2 * (low * p))
    ensures v / low == decided * (2 * p)
  {
    assert v == (decided * (2 * p)) * low;
    EuclidUnique(v, low, decided * (2 * p), 0);
  }

  lemma WordBelow(word: int, high: int, decided: int, t: int, p: int)
    requires word + B * high == decided * (2 * p) && B == t * (2 * p)
    ensures word == (decided - t * high) * (2 * p)
  {
    assert (decided - t * high) * (2 * p) == decided * (2 * p) - (t * high) * (2 * p);
    assert (t * high) * (2 * p) == (t * (2 * p)) * high;
  }

  /** Setting quotient bit i. */
  lemma SetBit(q: seq<U64>, i: nat, decided: nat)
    requires |q| == 4 && i < 256 && Tail(q, 0) == decided * (2 * Pow2(i)) && q[i / 64] + Pow2(i % 64) < B
    ensures Tail(q[i / 64 := q[i / 64] + Pow2(i % 64)], 0) == (2 * decided + 1) * Pow2(i)
  {
    hide Tail, Pow2;
    var j, s := i / 64, i % 64;
    Pow2Add(64 * j, s);
    TailUpdate(q, j, Pow2(s), 0);
    OddMultiple(decided, Pow2(i));
  }

  lemma OddMultiple(decided: int, p: int)
    ensures (2 * decided) * p == decided * (2 * p)
    ensures (2 * decided + 1) * p == decided * (2 * p) + p
  {
  }

  lemma Doubling(x: U64)
    ensures (2 * x) % B == 2 * x - x / SIGN_BIT * B && 0 <= x / SIGN_BIT <= 1
  {
  }

  /** Shift the remainder left by one and bring down a bit: the bit shifted out, and the pair. */
  function ShiftIn(rhi: U64, rlo: U64, bit: int): (r: (U64, U64, U64))
    requires 0 <= bit <= 1
    ensures r.0 <= 1 && r.0 * B * B + r.1 * B + r.2 == 2 * (rhi * B + rlo) + bit
  {
    Doubling(rhi);
    Doubling(rlo);
    (rhi / SIGN_BIT, (2 * rhi) % B + rlo / SIGN_BIT, (2 * rlo) % B + bit)
  }

  predicate Ge128(ahi: U64, alo: U64, bhi: U64, blo: U64)
    ensures Ge128(ahi, alo, bhi, blo) <==> ahi * B + alo >= bhi * B + blo
  {
    if ahi != bhi then ahi > bhi else alo >= blo
  }

  /** The 128-bit subtraction, which may wrap. */
  function SubWrap(ahi: U64, alo: U64, bhi: U64, blo: U64): (r: (U64, U64))
    ensures var x := (ahi * B + alo) - (bhi * B + blo);
            r.0 * B + r.1 == if x < 0 then x + B * B else x
  {
    var (lo, borrow) := Sub64(alo, blo, 0);
    var (hi, _) := Sub64(ahi, bhi, borrow);
    (hi, lo)
  }

  /** The wrapping subtraction is exact when the bit shifted out is set, because the borrow
      cancels it; and the divisor is subtracted exactly when it fits. */
  lemma SubtractExact(carry: int, low: int, r: int, d: int, bit: int)
    requires 0 <= r < d < B * B && 0 <= bit <= 1 && 0 <= low < B * B
    requires carry * (B * B) + low == 2 * r + bit && 0 <= carry <= 1
    ensures carry == 1 || low >= d <==> 2 * r + bit >= d
    ensures 2 * r + bit >= d ==> 0 <= 2 * r + bit - d < d
    ensures 2 * r + bit >= d ==> 2 * r + bit - d == if low - d < 0 then low - d + B * B else low - d
  {
  }

  /** The numerator's prefix gains one bit per step. */
  lemma PrefixGrows(n: nat, i: nat)
    ensures n / Pow2(i) == 2 * (n / Pow2(i + 1)) + n / Pow2(i) % 2
  {
    DivDiv(n, Pow2(i), 2);
  }

  lemma QuotientGrows(decided: int, d: int, r: int, prefix: int, bit: int)
    requires prefix == 2 * (decided * d + r) + bit
    ensures (2 * decided) * d + (2 * r + bit) == prefix
    ensures (2 * decided + 1) * d + (2 * r + bit - d) == prefix
  {
    OddMultiple(decided, d);
  }

  lemma WholeNumerator(n: nat)
    requires n < B * B * B * B
    ensures n / Pow2(256) == 0
  {
    Pow2Word();
    Pow2Add(64, 64);
    Pow2Add(128, 128);
    assert Pow2(256) == B * B * B * B by { assert Pow2(256) == (B * B) * (B * B); }
    EuclidUnique(n, Pow2(256), 0, n);
  }

  lemma Value4Bound(p0: U64, p1: U64, p2: U64, p3: U64)
    ensures 0 <= Value4(p0, p1, p2, p3) < B * B * B * B
  {
  }

  ghost predicate Division(q: seq<U64>, i: nat, decided: int, n: nat, d: int, r: int) {
    && |q| == 4 && decided >= 0 && Tail(q, 0) == decided * Pow2(i)
    && 0 <= r < d && decided * d + r == n / Pow2(i)
  }

  lemma StartDivision(n: nat, d: int)
    requires n < B * B * B * B && 0 < d
    ensures Division([0, 0, 0, 0], 256, 0, n, d, 0)
  {
    WholeNumerator(n);
    TailIsValue4([0, 0, 0, 0]);
  }

  /** One step of long division: the bit brought down, the comparison and the subtraction. */
  lemma DivisionStep(q: seq<U64>, i: nat, decided: int, n: nat, d: int, r: int, bit: int)
    requires i < 256 && Division(q, i + 1, decided, n, d, r) && bit == n / Pow2(i) % 2
    ensures 2 * r + bit < d ==> Division(q, i, 2 * decided, n, d, 2 * r + bit)
    ensures d <= 2 * r + bit < 2 * d ==>
              && q[i / 64] + Pow2(i % 64) < B
              && Division(q[i / 64 := q[i / 64] + Pow2(i % 64)], i, 2 * decided + 1, n, d, 2 * r + bit - d)
  {
    hide Tail, Pow2;
    PrefixGrows(n, i);
    QuotientGrows(decided, d, r, n / Pow2(i), bit);
    Pow2Step(i);
    OddMultiple(decided, Pow2(i));
    ClearBit(q, i, decided);
    SetBit(q, i, decided);
  }

  /** The same step as the limbs take it: `low` is the shifted remainder without its carry. */
  lemma LimbStep(q: seq<U64>, i: nat, decided: int, n: nat, d: int, r: int, bit: int, carry: int, low: int)
    requires i < 256 && Division(q, i + 1, decided, n, d, r) && bit == n / Pow2(i) % 2 && d < B * B
    requires carry * (B * B) + low == 2 * r + bit && 0 <= carry <= 1 && 0 <= low < B * B
    ensures carry != 1 && low < d ==> Division(q, i, 2 * decided, n, d, low)
    ensures carry == 1 || low >= d ==>
              && q[i / 64] + Pow2(i % 64) < B
              && Division(q[i / 64 := q[i / 64] + Pow2(i % 64)], i, 2 * decided + 1, n, d,
                          if low - d < 0 then low - d + B * B else low - d)
  {
    SubtractExact(carry, low, r, d, bit);
    hide Tail, Pow2;
    DivisionStep(q, i, decided, n, d, r, bit);
  }

  lemma FinishDivision(q: seq<U64>, decided: int, n: nat, d: int, r: int)
    requires Division(q, 0, decided, n, d, r)
    ensures Value4(q[0], q[1], q[2], q[3]) == n / d
  {
    TailIsValue4(q);
    EuclidUnique(n, d, decided, r);
  }

  /** Binary long division of four limbs by two. `ok` says whether the quotient fits two limbs.
      Setting a clear bit with the source's bitwise or is addition of that power of two. */
  method Div256By128(n0: U64, n1: U64, n2: U64, n3: U64, dhi: U64, dlo: U64) returns (qhi: U64, qlo: U64, ok: bool)
    requires dhi * B + dlo != 0
    ensures ok <==> Value4(n0, n1, n2, n3) / (dhi * B + dlo) < B * B
    ensures ok ==> qhi * B + qlo == Value4(n0, n1, n2, n3) / (dhi * B + dlo)
    ensures !ok ==> qhi == 0 && qlo == 0
  {
    hide Tail, Pow2, Division, Value4;
    var n: seq<U64> := [n0, n1, n2, n3];
    var q: seq<U64> := [0, 0, 0, 0];
    var rhi: U64, rlo: U64 := 0, 0;
    ghost var value, d, decided := Value4(n0, n1, n2, n3), dhi * B + dlo, 0;
    Value4Bound(n0, n1, n2, n3);
    TailIsValue4(n);
    StartDivision(value, d);
    var i := 256;
    while i > 0
      invariant 0 <= i <= 256 && |q| == 4
      invariant Division(q, i, decided, value, d, rhi * B + rlo)
    {
      i := i - 1;
      NumeratorBit(n, i);
      var bit := n[i / 64] / Pow2(i % 64) % 2;
      var (carry, shi, slo) := ShiftIn(rhi, rlo, bit);
      LimbStep(q, i, decided, value, d, rhi * B + rlo, bit, carry, shi * B + slo);
      if carry == 1 || Ge128(shi, slo, dhi, dlo) {
        var (hi, lo) := SubWrap(shi, slo, dhi, dlo);
        rhi, rlo, decided := hi, lo, 2 * decided + 1;
        q := q[i / 64 := q[i / 64] + Pow2(i % 64)];
      } else {
        rhi, rlo, decided := shi, slo, 2 * decided;
      }
    }
    FinishDivision(q, decided, value, d, rhi * B + rlo);
    HighLimbs(q[0], q[1], q[2], q[3]);
    if q[2] != 0 || q[3] != 0 {
      return 0, 0, false;
    }
    return q[1], q[0], true;
  }

  lemma ScaledSign(x: int, y: int)
    requires y != 0
    ensures Abs(x * SCALE) == Abs(x) * SCALE
    ensures DivRaw(x, y) == if (x < 0) != (y < 0) then -(Abs(x) * SCALE / Abs(y)) else Abs(x) * SCALE / Abs(y)
  {
  }

  /** Division truncates toward zero; it panics exactly on a zero divisor or an out-of-range quotient. */
  method Div(d: Dec, e: Dec) returns (r: Outcome<Dec>)
    ensures r.Ok? <==> Raw(e) != 0 && InRange(DivRaw(Raw(d), Raw(e)))
    ensures r.Ok? ==> Raw(r.value) == DivRaw(Raw(d), Raw(e))
  {
    if e.hi == 0 && e.lo == 0 {
      return Panic;
    }
    hide MulRaw, DivRaw, TruncDiv, Value4;
    var (nmhi, nmlo, nneg) := AbsMag(d);
    var (dmhi, dmlo, dneg) := AbsMag(e);
    var limbs := Mul128To256(nmhi, nmlo, 0, SCALE);
    var qhi, qlo, ok := Div256By128(limbs.0, limbs.1, limbs.2, limbs.3, dmhi, dmlo);
    ScaledSign(Raw(d), Raw(e));
    if !ok {
      return Panic;
    }
    r := FromMag(qhi, qlo, nneg != dneg);
  }
}
