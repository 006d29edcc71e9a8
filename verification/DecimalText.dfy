/**
 Reading and printing decimals. What a string means is fixed by a grammar and a reading of its
 parts; the scanning loop of Parse is proved to give exactly that, and printing is proved to be
 its right inverse up to the precision asked for.
 */
module DecimalText {
  import opened Decimal
  import opened FixedPoint
  import opened Numerals
  import opened Words

  const SCALE_DIGITS: nat := 18

  datatype Parsed = Number(value: Dec) | Malformed | Overflow

  // ----- what a decimal string means -----------------------------------------------------

  /** The string is an optional sign, digits, and optionally a point and further digits. */
  ghost predicate Spells(s: string, sign: string, integral: string, dot: bool, fraction: string) {
    && s == sign + integral + (if dot then "." + fraction else [])
    && sign in {"", "+", "-"}
    && integral != [] && AllDigits(integral) && AllDigits(fraction)
    && (!dot ==> fraction == [])
  }

  function Zeros(k: nat): (z: string)
    ensures |z| == k && forall i :: 0 <= i < k ==> z[i] == '0'
  {
    seq(k, _ => '0')
  }

  /** Eighteen fractional digits: further ones are dropped, missing ones are zeros. */
  ghost function Eighteen(fraction: string): (e: string)
    ensures |e| == SCALE_DIGITS
  {
    (fraction + Zeros(SCALE_DIGITS))[..SCALE_DIGITS]
  }

  ghost function Reading(negative: bool, integral: string, fraction: string): Parsed
    requires AllDigits(integral) && AllDigits(fraction)
  {
    Bounded(Signed(negative, Value(integral) * SCALE + Value(Eighteen(fraction))))
  }

  function Signed(negative: bool, magnitude: int): int {
    if negative then -magnitude else magnitude
  }

  /** The pair for a scaled integer, when it fits. */
  function Bounded(raw: int): (r: Parsed)
    ensures if InRange(raw) then r.Number? else r == Overflow
    ensures r.Number? ==> Raw(r.value) == raw
  {
    if InRange(raw) then
      assert -SIGN_BIT * B <= raw < SIGN_BIT * B;
      Number(Dec(raw / B, raw % B))
    else Overflow
  }

  /** The meaning of a string: every way to spell it has this reading, and it is malformed
      exactly when it cannot be spelled. */
  ghost predicate Reads(s: string, r: Parsed) {
    && (forall sign, integral, dot, fraction ::
          Spells(s, sign, integral, dot, fraction) ==> r == Reading(sign == "-", integral, fraction))
    && (r.Malformed? ==> forall sign, integral, dot, fraction :: !Spells(s, sign, integral, dot, fraction))
    && (!r.Malformed? ==> exists sign, integral, dot, fraction :: Spells(s, sign, integral, dot, fraction))
  }

  lemma MeaningUnique(s: string, r: Parsed, r': Parsed)
    requires Reads(s, r) && Reads(s, r')
    ensures r == r'
  {
  }

  /** A string has at most one spelling. */
  lemma SpellingUnique(s: string, sign: string, integral: string, dot: bool, fraction: string,
                       sign': string, integral': string, dot': bool, fraction': string)
    requires Spells(s, sign, integral, dot, fraction) && Spells(s, sign', integral', dot', fraction')
    ensures sign == sign' && integral == integral' && dot == dot' && fraction == fraction'
  {
    SignIsFirst(s, sign, integral, dot, fraction);
    SignIsFirst(s, sign', integral', dot', fraction');
    IntegralEnd(s, sign, integral, dot, fraction);
    IntegralEnd(s, sign', integral', dot', fraction');
    var e, e' := |sign| + |integral|, |sign'| + |integral'|;
    assert e == e';
    assert integral == s[|sign|..e] && integral' == s[|sign'|..e'];
    assert dot ==> fraction == s[e + 1..];
    assert dot' ==> fraction' == s[e' + 1..];
  }

  lemma SignIsFirst(s: string, sign: string, integral: string, dot: bool, fraction: string)
    requires Spells(s, sign, integral, dot, fraction)
    ensures |s| > 0 && s[0] == (sign + integral)[0]
    ensures sign == if s[0] == '+' then "+" else if s[0] == '-' then "-" else ""
    ensures |sign| < |s| && IsDigit(s[|sign|])
  {
    assert IsDigit(integral[0]);
    assert s[|sign|] == integral[0];
    if sign != "" { assert s[0] == sign[0]; }
  }

  /** The integral digits are the longest run after the sign, and a point follows if anything does. */
  lemma IntegralEnd(s: string, sign: string, integral: string, dot: bool, fraction: string)
    requires Spells(s, sign, integral, dot, fraction)
    ensures var e := |sign| + |integral|;
            && e <= |s| && (dot <==> e < |s|) && (dot ==> s[e] == '.' && |s| == e + 1 + |fraction|)
            && (forall i :: |sign| <= i < e ==> IsDigit(s[i]) && s[i] == integral[i - |sign|])
            && (forall i :: e < i < |s| ==> IsDigit(s[i]) && s[i] == fraction[i - e - 1])
  {
  }

  /** No string with such a character at such a place is a decimal. */
  lemma NotSpelledAt(s: string, i: nat, sign: string, integral: string, dot: bool, fraction: string)
    requires i < |s| && Spells(s, sign, integral, dot, fraction)
    ensures i == 0 ==> IsDigit(s[0]) || s[0] == '+' || s[0] == '-'
    ensures i > 0 ==> IsDigit(s[i]) || (s[i] == '.' && i > |sign|)
    ensures s[0] == '+' || s[0] == '-' ==> |s| > 1 && IsDigit(s[1])
    ensures forall j :: 0 <= j < |s| && j != i && s[i] == '.' ==> s[j] != '.'
  {
    SignIsFirst(s, sign, integral, dot, fraction);
    IntegralEnd(s, sign, integral, dot, fraction);
  }

  /** decimal_test.go: what Parse must refuse. */
  lemma KnownErrors(s: string)
    requires s in {"", "abc", "1.2.3", "+", "-", ".5", "1e3", " 1", "1 ", "+-1", "12x"}
    ensures Reads(s, Malformed)
  {
    forall sign, integral, dot, fraction ensures !Spells(s, sign, integral, dot, fraction) {
      if Spells(s, sign, integral, dot, fraction) {
        assert |s| == 5 ==> s[1] == '.' && s[3] == '.';
        SignIsFirst(s, sign, integral, dot, fraction);
        if |s| == 5 { NotSpelledAt(s, 1, sign, integral, dot, fraction); }
        NotSpelledAt(s, 0, sign, integral, dot, fraction);
        NotSpelledAt(s, |s| - 1, sign, integral, dot, fraction);
        NotSpelledAt(s, |s| / 2, sign, integral, dot, fraction);
        assert false;
      }
    }
  }

  lemma ReadsAs(s: string, sign: string, integral: string, dot: bool, fraction: string)
    requires Spells(s, sign, integral, dot, fraction)
    ensures Reads(s, Reading(sign == "-", integral, fraction))
  {
    forall sign', integral', dot', fraction' | Spells(s, sign', integral', dot', fraction')
      ensures Reading(sign' == "-", integral', fraction') == Reading(sign == "-", integral, fraction)
    {
      SpellingUnique(s, sign, integral, dot, fraction, sign', integral', dot', fraction');
    }
    hide Spells, Reading;
  }

  /** And what it must accept: either sign, a trailing point, more than eighteen digits. */
  lemma KnownReadings()
    ensures Reads("-42", Bounded(-42 * SCALE)) && Reads("+7", Bounded(7 * SCALE)) && Reads("1.", Bounded(SCALE))
  {
    assert Value("42") == 42 by { assert "42"[..1] == "4" && "4"[..0] == ""; }
    assert Value("7") == 7 by { assert "7"[..0] == ""; }
    assert Value("1") == 1 by { assert "1"[..0] == ""; }
    assert Eighteen("") == Zeros(SCALE_DIGITS);
    ZerosAreZero(SCALE_DIGITS);
    hide Value, Eighteen;
    assert "-42" == "-" + "42" + [] && "+7" == "+" + "7" + [] && "1." == "" + "1" + ("." + "");
    ReadsAs("-42", "-", "42", false, "");
    ReadsAs("+7", "+", "7", false, "");
    ReadsAs("1.", "", "1", true, "");
  }

  // ----- reading -------------------------------------------------------------------------

  lemma NextDigit(s: string, a: nat, i: nat)
    requires a <= i < |s| && AllDigits(s[a..i]) && IsDigit(s[i])
    ensures AllDigits(s[a..i + 1])
    ensures Value(s[a..i + 1]) == 10 * Value(s[a..i]) + DigitValue(s[i])
  {
    var t := s[a..i + 1];
    assert t[..|t| - 1] == s[a..i] && t[|t| - 1] == s[i];
    assert forall k :: 0 <= k < |t| ==> (k < i - a ==> t[k] == s[a..i][k]);
  }

  lemma {:induction false} ZerosAreZero(k: nat)
    ensures AllDigits(Zeros(k)) && Value(Zeros(k)) == 0
  {
    if k > 0 {
      ZerosAreZero(k - 1);
      assert Zeros(k)[..k - 1] == Zeros(k - 1);
    }
  }

  lemma ShortFraction(fraction: string)
    requires |fraction| <= SCALE_DIGITS
    ensures Eighteen(fraction) == fraction + Zeros(SCALE_DIGITS - |fraction|)
  {
  }

  lemma LongFraction(fraction: string)
    requires |fraction| >= SCALE_DIGITS
    ensures Eighteen(fraction) == fraction[..SCALE_DIGITS] == Eighteen(fraction[..SCALE_DIGITS])
  {
  }

  lemma DigitsPrefix(s: string, n: nat)
    requires AllDigits(s) && n <= |s|
    ensures AllDigits(s[..n])
  {
  }

  /** Digits beyond the eighteenth do not matter. */
  lemma EighteenOfKept(fraction: string)
    ensures Eighteen(fraction) == Eighteen(fraction[..Min(|fraction|, SCALE_DIGITS)])
  {
    if |fraction| <= SCALE_DIGITS {
      assert fraction[..|fraction|] == fraction;
    } else {
      LongFraction(fraction);
    }
  }

  /** Missing digits are zeros at the end. */
  lemma EighteenOfShort(fraction: string, k: nat)
    requires AllDigits(fraction) && |fraction| + k == SCALE_DIGITS
    ensures AllDigits(Eighteen(fraction)) && Value(Eighteen(fraction)) == Value(fraction) * Pow10(k)
  {
    hide Value, Pow10, Eighteen, Zeros, AllDigits;
    ZerosAreZero(k);
    ValueConcat(fraction, Zeros(k));
    ShortFraction(fraction);
  }

  lemma EighteenDigits(fraction: string)
    requires AllDigits(fraction)
    ensures AllDigits(Eighteen(fraction))
    ensures |fraction| <= SCALE_DIGITS ==>
              Value(Eighteen(fraction)) == Value(fraction) * Pow10(SCALE_DIGITS - |fraction|)
    ensures Eighteen(fraction) == Eighteen(fraction[..Min(|fraction|, SCALE_DIGITS)])
  {
    DigitsPrefix(fraction, Min(|fraction|, SCALE_DIGITS));
    hide Value, Pow10, Eighteen, Zeros, AllDigits;
    EighteenOfKept(fraction);
    if |fraction| <= SCALE_DIGITS {
      EighteenOfShort(fraction, SCALE_DIGITS - |fraction|);
    } else {
      LongFraction(fraction);
    }
  }

  lemma NoFraction()
    ensures AllDigits(Eighteen([])) && Value(Eighteen([])) == 0
  {
    EighteenDigits([]);
  }

  lemma NotSpelled(s: string, sign: string, e: nat)
    requires |sign| <= e <= |s| && sign == (if |s| > 0 && s[0] in {'+', '-'} then s[..1] else [])
    requires forall i :: |sign| <= i < e ==> IsDigit(s[i])
    requires e < |s| ==> !IsDigit(s[e])
    requires e == |sign| || (e < |s| && s[e] != '.')
    ensures Reads(s, Malformed)
  {
    forall sign', integral, dot, fraction ensures !Spells(s, sign', integral, dot, fraction) {
      if Spells(s, sign', integral, dot, fraction) {
        SignIsFirst(s, sign', integral, dot, fraction);
        IntegralEnd(s, sign', integral, dot, fraction);
        assert false;
      }
    }
  }

  lemma TrailingJunk(s: string, sign: string, e: nat, k: nat)
    requires |sign| < e < k < |s| && sign == (if s[0] in {'+', '-'} then s[..1] else [])
    requires forall i :: |sign| <= i < e ==> IsDigit(s[i])
    requires s[e] == '.' && !IsDigit(s[k])
    ensures Reads(s, Malformed)
  {
    forall sign', integral, dot, fraction ensures !Spells(s, sign', integral, dot, fraction) {
      if Spells(s, sign', integral, dot, fraction) {
        SignIsFirst(s, sign', integral, dot, fraction);
        IntegralEnd(s, sign', integral, dot, fraction);
        assert false;
      }
    }
  }

  lemma Spelled(s: string, sign: string, integral: string, dot: bool, fraction: string, r: Parsed)
    requires Spells(s, sign, integral, dot, fraction) && r == Reading(sign == "-", integral, fraction)
    ensures Reads(s, r)
  {
    forall sign', integral', dot', fraction' | Spells(s, sign', integral', dot', fraction')
      ensures r == Reading(sign' == "-", integral', fraction')
    {
      SpellingUnique(s, sign, integral, dot, fraction, sign', integral', dot', fraction');
    }
  }

  lemma DigitsAt(s: string, a: nat, b: nat)
    requires a <= b <= |s| && AllDigits(s[a..b])
    ensures forall k :: a <= k < b ==> IsDigit(s[k])
  {
    assert forall k :: a <= k < b ==> s[k] == s[a..b][k - a];
  }

  /** The run of digits from index `from`, and its value. */
  method ReadIntegral(s: string, from: nat) returns (i: nat, integral: nat)
    requires from < |s| && IsDigit(s[from])
    ensures from < i <= |s| && AllDigits(s[from..i]) && (i < |s| ==> !IsDigit(s[i]))
    ensures integral == Value(s[from..i])
  {
    i, integral := from, 0;
    while i < |s| && IsDigit(s[i])
      invariant from <= i <= |s| && AllDigits(s[from..i]) && integral == Value(s[from..i])
    {
      NextDigit(s, from, i);
      integral := integral * 10;
      integral := integral + DigitValue(s[i]);
      i := i + 1;
    }
  }

  /** Read a decimal string: exactly its meaning. */
  method Parse(s: string) returns (r: Parsed)
    ensures Reads(s, r)
  {
    hide Reads, Spells, Value, Eighteen, Bounded, Pow10;
    if s == "" {
      NotSpelled(s, [], 0);
      return Malformed;
    }
    var neg, i := false, 0;
    if s[0] == '+' || s[0] == '-' {
      neg := s[0] == '-';
      i := i + 1;
    }
    ghost var start, sign := i, s[..i];
    assert sign == if i == 0 then "" else [s[0]];
    assert sign in {"", "+", "-"} && (neg <==> sign == "-");
    if i >= |s| || !IsDigit(s[i]) {
      NotSpelled(s, sign, start);
      return Malformed;
    }
    var integral: nat;
    i, integral := ReadIntegral(s, i);
    ghost var end, whole := i, s[start..i];
    DigitsAt(s, start, end);
    var fractional := 0;
    if i < |s| {
      if s[i] != '.' {
        NotSpelled(s, sign, end);
        return Malformed;
      }
      i := i + 1;
      i, fractional := ReadFraction(s, i);
      EighteenDigits(s[end + 1..i]);
    }
    if i != |s| {
      TrailingJunk(s, sign, end, i);
      return Malformed;
    }
    NoFraction();
    assert end < |s| ==> s[end + 1..] == s[end + 1..i];
    WholeString(s, start, end, if end < |s| then s[end + 1..] else [], integral, fractional);
    return Bounded(Signed(neg, integral * SCALE + fractional));
  }

  /** What the loops have computed is the reading of the parts they have passed. */
  lemma WholeString(s: string, start: nat, end: nat, fraction: string, integral: nat, fractional: nat)
    requires start < end <= |s| && AllDigits(s[start..end]) && s[..start] in {"", "+", "-"}
    requires fraction == if end < |s| then s[end + 1..] else []
    requires end < |s| ==> s[end] == '.'
    requires AllDigits(fraction) && AllDigits(Eighteen(fraction))
    requires integral == Value(s[start..end]) && fractional == Value(Eighteen(fraction))
    ensures Reads(s, Bounded(Signed(s[..start] == "-", integral * SCALE + fractional)))
  {
    hide Reads, Spells, Value, Eighteen, Bounded;
    PartsSpell(s, start, end);
    Spelled(s, s[..start], s[start..end], end < |s|, fraction,
            Reading(s[..start] == "-", s[start..end], fraction));
  }

  lemma PartsSpell(s: string, start: nat, end: nat)
    requires start < end <= |s| && AllDigits(s[start..end])
    requires s[..start] in {"", "+", "-"}
    requires end < |s| ==> s[end] == '.' && AllDigits(s[end + 1..])
    ensures Spells(s, s[..start], s[start..end], end < |s|, if end < |s| then s[end + 1..] else [])
  {
    assert s[..start] + s[start..end] == s[..end];
    if end < |s| {
      assert s == s[..end] + ("." + s[end + 1..]);
    } else {
      assert s == s[..end] + [];
    }
  }

  /** The fractional digits from index `from`: keep eighteen, pad to eighteen. */
  method ReadFraction(s: string, from: nat) returns (i: nat, fractional: nat)
    requires from <= |s|
    ensures from <= i <= |s| && AllDigits(s[from..i]) && (i < |s| ==> !IsDigit(s[i]))
    ensures AllDigits(Eighteen(s[from..i])) && fractional == Value(Eighteen(s[from..i]))
  {
    hide Value, Eighteen, AllDigits;
    NoDigits(s, from);
    i, fractional := from, 0;
    var fracDigits := 0;
    while i < |s| && IsDigit(s[i])
      invariant from <= i <= |s| && AllDigits(s[from..i])
      invariant fracDigits == Min(i - from, SCALE_DIGITS)
      invariant AllDigits(s[from..from + fracDigits]) && fractional == Value(s[from..from + fracDigits])
    {
      NextDigit(s, from, i);
      if fracDigits < SCALE_DIGITS {
        fractional := fractional * 10;
        fractional := fractional + DigitValue(s[i]);
        fracDigits := fracDigits + 1;
      }
      i := i + 1;
    }
    ghost var kept, digits := s[from..from + fracDigits], fracDigits;
    while fracDigits < SCALE_DIGITS
      invariant digits <= fracDigits <= SCALE_DIGITS
      invariant fractional == Value(kept) * Pow10(fracDigits - digits)
    {
      MulSwap(Value(kept), Pow10(fracDigits - digits));
      fractional := fractional * 10;
      fracDigits := fracDigits + 1;
    }
    EighteenDigits(s[from..i]);
    EighteenDigits(kept);
    assert s[from..i][..digits] == kept;
  }

  lemma NoDigits(s: string, from: nat)
    requires from <= |s|
    ensures AllDigits(s[from..from]) && Value(s[from..from]) == 0
  {
  }

  // ----- printing ------------------------------------------------------------------------

  function Clamp(prec: int): (p: nat)
    ensures p <= SCALE_DIGITS
  {
    if prec < 0 then 0 else if prec > SCALE_DIGITS then SCALE_DIGITS else prec
  }

  function FractionDigits(fraction: nat): (t: string)
    requires fraction < SCALE
    ensures |t| == SCALE_DIGITS
  {
    ScaleIsPow10();
    RenderLength(fraction, SCALE_DIGITS);
    Zeros(SCALE_DIGITS - |Render(fraction)|) + Render(fraction)
  }

  /** Print with prec fractional digits, clamped to 0..18; excess digits are cut, not rounded. */
  function StringPrec(d: Dec, prec: int): string {
    var p := Clamp(prec);
    var abs := Abs(Raw(d));
    (if Sign(d) < 0 then "-" else "") + Render(abs / SCALE)
      + (if p > 0 then "." + FractionDigits(abs % SCALE)[..p] else [])
  }

  lemma ScaleIsPow10()
    ensures Pow10(SCALE_DIGITS) == SCALE
  {
    assert Pow10(9) == 1_000_000_000;
    assert Pow10(18) == 1_000_000_000 * Pow10(9) by { Pow10Add(9, 9); }
  }

  lemma {:induction false} Pow10Add(a: nat, b: nat)
    ensures Pow10(a + b) == Pow10(a) * Pow10(b)
  {
    if a > 0 {
      Pow10Add(a - 1, b);
      MulSwap(Pow10(b), Pow10(a - 1));
    }
  }

  lemma {:induction false} RenderLength(n: nat, k: nat)
    requires 0 < k && n < Pow10(k)
    ensures 1 <= |Render(n)| <= k
  {
    if n >= 10 { RenderLength(n / 10, k - 1); }
  }

  /** A magnitude cut to p fractional digits. */
  ghost function CutTo(magnitude: nat, p: nat): (c: int)
    requires p <= SCALE_DIGITS
  {
    magnitude / Pow10(SCALE_DIGITS - p) * Pow10(SCALE_DIGITS - p)
  }

  lemma CutBound(magnitude: nat, p: nat)
    requires p <= SCALE_DIGITS
    ensures 0 <= CutTo(magnitude, p) <= magnitude
  {
    DivisionBound(magnitude, Pow10(SCALE_DIGITS - p));
  }

  lemma DivisionBound(m: nat, u: nat)
    requires u > 0
    ensures 0 <= m / u * u <= m
  {
    assert m == m / u * u + m % u;
    ProductBound(m / u, u, m / u, u);
  }

  /** The decimal truncated toward zero to p fractional digits. */
  ghost function Truncated(d: Dec, p: nat): int
    requires p <= SCALE_DIGITS
  {
    if Raw(d) < 0 then -CutTo(Abs(Raw(d)), p) else CutTo(Abs(Raw(d)), p)
  }

  lemma FractionValue(fraction: nat)
    requires fraction < SCALE
    ensures AllDigits(FractionDigits(fraction)) && Value(FractionDigits(fraction)) == fraction
  {
    ScaleIsPow10();
    RenderLength(fraction, SCALE_DIGITS);
    ValueOfRender(fraction);
    var k := SCALE_DIGITS - |Render(fraction)|;
    ZerosAreZero(k);
    ValueConcat(Zeros(k), Render(fraction));
  }

  /** The first p of eighteen digits, read back, are the fraction with its last digits zeroed. */
  lemma CutDigits(digits: string, p: nat)
    requires AllDigits(digits) && |digits| == SCALE_DIGITS && p <= SCALE_DIGITS
    ensures AllDigits(digits[..p]) && AllDigits(Eighteen(digits[..p]))
    ensures Value(Eighteen(digits[..p])) == CutTo(Value(digits), p)
  {
    var high, low := digits[..p], digits[p..];
    assert digits == high + low;
    ValueConcat(high, low);
    ValueBound(low);
    EuclidUnique(Value(digits), Pow10(SCALE_DIGITS - p), Value(high), Value(low));
    EighteenDigits(high);
    assert Value(Eighteen(high)) == Value(high) * Pow10(SCALE_DIGITS - p);
  }

  /** Cutting digits of the fraction cuts the whole magnitude. */
  lemma CutWhole(magnitude: nat, p: nat)
    requires p <= SCALE_DIGITS
    ensures magnitude / SCALE * SCALE + CutTo(magnitude % SCALE, p) == CutTo(magnitude, p)
  {
    var low, high := Pow10(SCALE_DIGITS - p), Pow10(p);
    ScaleIsPow10();
    Pow10Add(p, SCALE_DIGITS - p);
    hide Pow10;
    CutParts(magnitude, SCALE, Pow10(p), Pow10(SCALE_DIGITS - p));
  }

  lemma CutParts(magnitude: nat, unit: nat, high: nat, low: nat)
    requires high > 0 && low > 0 && unit == high * low
    ensures unit > 0 && magnitude / unit * unit + magnitude % unit / low * low == magnitude / low * low
  {
    PositiveProduct(high, low);
    var whole, fraction := magnitude / unit, magnitude % unit;
    var q, r := fraction / low, fraction % low;
    assert magnitude == whole * unit + fraction && fraction == q * low + r;
    SplitWhole(magnitude, whole, high, low, q, r);
    EuclidUnique(magnitude, low, whole * high + q, r);
  }

  lemma PositiveProduct(x: int, y: int)
    requires x > 0 && y > 0
    ensures x * y > 0
  {
  }

  lemma SplitWhole(magnitude: int, whole: int, high: int, low: int, q: int, r: int)
    requires magnitude == whole * (high * low) + (q * low + r)
    ensures magnitude == (whole * high + q) * low + r
    ensures (whole * high + q) * low == whole * (high * low) + q * low
  {
    assert whole * (high * low) == (whole * high) * low;
    assert (whole * high + q) * low == (whole * high) * low + q * low;
  }

  /** Reading a p-digit rendering gives the value truncated toward zero to p digits, for every
      decimal and every precision. */
  lemma ReadsPrinted(d: Dec, prec: int)
    ensures InRange(Truncated(d, Clamp(prec)))
    ensures Reads(StringPrec(d, prec), Bounded(Truncated(d, Clamp(prec))))
  {
    var p, abs := Clamp(prec), Abs(Raw(d));
    var sign, integral := if Sign(d) < 0 then "-" else "", Render(abs / SCALE);
    var fraction := FractionDigits(abs % SCALE)[..p];
    ValueOfRender(abs / SCALE);
    FractionValue(abs % SCALE);
    CutDigits(FractionDigits(abs % SCALE), p);
    CutWhole(abs, p);
    CutBound(abs, p);
    Spelled(StringPrec(d, prec), sign, integral, p > 0, fraction, Bounded(Truncated(d, p)));
  }

  /** The text itself: a minus sign exactly for a negative value, the whole part without a leading zero,
      and behind a point exactly the asked digits of the fraction, up to eighteen. */
  lemma RenderingShape(d: Dec, prec: int) returns (sign: string, integral: string, fraction: string)
    ensures StringPrec(d, prec) == sign + integral + (if prec > 0 then "." + fraction else "")
    ensures sign == if Raw(d) < 0 then "-" else ""
    ensures AllDigits(integral) && Value(integral) == Abs(Raw(d)) / SCALE
    ensures |integral| > 0 && (integral[0] == '0' ==> integral == "0")
    ensures AllDigits(fraction) && |fraction| == if prec <= 0 then 0 else Min(prec, SCALE_DIGITS)
    ensures Value(fraction) == Abs(Raw(d)) % SCALE / Pow10(SCALE_DIGITS - |fraction|)
  {
    var p, abs := Clamp(prec), Abs(Raw(d));
    sign, integral, fraction := if Sign(d) < 0 then "-" else "", Render(abs / SCALE), FractionDigits(abs % SCALE)[..p];
    assert p <= 0 ==> fraction == "";
    ValueOfRender(abs / SCALE);
    FractionValue(abs % SCALE);
    CutDigits(FractionDigits(abs % SCALE), p);
    EighteenDigits(fraction);
    hide Render, FractionDigits, Eighteen, AllDigits, Value;
    SameMultiple(Value(fraction), abs % SCALE / Pow10(SCALE_DIGITS - p), Pow10(SCALE_DIGITS - p));
  }

  lemma SameMultiple(x: int, y: int, u: int)
    requires u > 0 && x * u == y * u
    ensures x == y
  {
    assert (x - y) * u == 0;
  }

  /** Full precision loses nothing: every decimal, -2^127 included, comes back unchanged. */
  lemma FullPrecisionRoundTrip(d: Dec, r: Parsed)
    requires Reads(StringPrec(d, SCALE_DIGITS), r)
    ensures r == Number(d)
  {
    ReadsPrinted(d, SCALE_DIGITS);
    assert Pow10(0) == 1;
    assert Truncated(d, SCALE_DIGITS) == Raw(d);
    RawInjective(Bounded(Raw(d)).value, d);
    MeaningUnique(StringPrec(d, SCALE_DIGITS), r, Number(d));
  }

  /** Two decimals print alike at full precision only when they are equal. */
  lemma PrintInjective(d: Dec, e: Dec)
    requires StringPrec(d, SCALE_DIGITS) == StringPrec(e, SCALE_DIGITS)
    ensures d == e
  {
    ReadsPrinted(d, SCALE_DIGITS);
    var r := Bounded(Truncated(d, SCALE_DIGITS));
    FullPrecisionRoundTrip(d, r);
    FullPrecisionRoundTrip(e, r);
  }

  /** A rendering shows a point exactly when it has fractional digits, and then it is never "0". It is
      never empty. */
  lemma RenderingHasPoint(d: Dec, prec: int)
    ensures '.' in StringPrec(d, prec) <==> prec > 0
    ensures prec > 0 ==> StringPrec(d, prec) != "0"
    ensures StringPrec(d, prec) != ""
  {
    var sign, integral := if Sign(d) < 0 then "-" else "", Render(Abs(Raw(d)) / SCALE);
    ValueOfRender(Abs(Raw(d)) / SCALE);
    if prec > 0 {
      assert StringPrec(d, prec)[|sign + integral|] == '.';
    } else {
      assert StringPrec(d, prec) == sign + integral;
      assert '.' !in integral;
    }
  }
}
