/** Positional notation in any base: what a digit string is worth, and when two are the same. */
module Digits {
  import opened Words

  predicate InBase(digits: seq<int>, base: int) {
    forall i :: 0 <= i < |digits| ==> 0 <= digits[i] < base
  }

  /** Most significant digit first. */
  function Value(digits: seq<int>, base: int): int {
    if digits == [] then 0 else Value(digits[..|digits| - 1], base) * base + digits[|digits| - 1]
  }

  function Power(base: int, n: nat): int {
    if n == 0 then 1 else base * Power(base, n - 1)
  }

  lemma {:induction false} PowerPositive(base: int, n: nat)
    requires base > 0
    ensures Power(base, n) > 0
  {
    if n > 0 {
      PowerPositive(base, n - 1);
      assert base * Power(base, n - 1) > 0;
    }
  }

  lemma {:induction false} PowerSum(base: int, m: nat, n: nat)
    ensures Power(base, m + n) == Power(base, m) * Power(base, n)
  {
    if m > 0 {
      PowerSum(base, m - 1, n);
      assert base * (Power(base, m - 1) * Power(base, n)) == (base * Power(base, m - 1)) * Power(base, n);
    }
  }

  lemma ValueStep(digits: seq<int>, base: int, d: int)
    ensures Value(digits + [d], base) == Value(digits, base) * base + d
  {
    assert (digits + [d])[..|digits|] == digits;
  }

  lemma {:induction false} ValueRange(digits: seq<int>, base: int)
    requires base > 0 && InBase(digits, base)
    ensures 0 <= Value(digits, base) < Power(base, |digits|)
  {
    if digits != [] {
      var n := |digits| - 1;
      ValueRange(digits[..n], base);
      RangeStep(Value(digits[..n], base), Power(base, n), base, digits[n]);
    }
  }

  lemma RangeStep(v: int, p: int, base: int, d: int)
    requires 0 <= v < p && 0 <= d < base
    ensures 0 <= v * base + d < base * p
  {
    assert v * base <= (p - 1) * base;
    assert (p - 1) * base == p * base - base;
  }

  lemma LastDigit(v: int, base: int, d: int, w: int, e: int)
    requires 0 <= d < base && 0 <= e < base && v * base + d == w * base + e
    ensures v == w && d == e
  {
    assert (v - w) * base == e - d;
    SmallMultiple(v - w, base);
  }

  /** Digit strings of the same length are the same when they are worth the same. */
  lemma {:induction false} DigitsUnique(a: seq<int>, b: seq<int>, base: int)
    requires base > 0 && InBase(a, base) && InBase(b, base) && |a| == |b| && Value(a, base) == Value(b, base)
    ensures a == b
    decreases |a|
  {
    if a != [] {
      var n := |a| - 1;
      LastDigit(Value(a[..n], base), base, a[n], Value(b[..n], base), b[n]);
      DigitsUnique(a[..n], b[..n], base);
      assert a == a[..n] + [a[n]] && b == b[..n] + [b[n]];
    }
  }
}
