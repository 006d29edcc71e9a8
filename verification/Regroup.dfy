/**
 Regrouping of bits (bitcoin.go convertBits, bitcoin_send.go convertBits5to8). The accumulator is
 a 64-bit word that is never masked and simply overflows; the digits taken from it are right all
 the same, because only its low bits are ever read.
 */
module Regroup {
  import opened Common
  import opened Digits
  import opened Words

  /** Bits of a byte string as five-bit groups, zero-padded at the end: what BIP-173 asks for. */
  ghost predicate Groups(bytes: seq<int>, groups: seq<int>) {
    && InBase(bytes, 256) && InBase(groups, 32)
    && 0 <= 5 * |groups| - 8 * |bytes| < 5
    && Value(groups, 32) == Value(bytes, 256) * Power(2, 5 * |groups| - 8 * |bytes|)
  }

  lemma GroupsUnique(bytes: seq<int>, groups: seq<int>, groups': seq<int>)
    requires Groups(bytes, groups) && Groups(bytes, groups')
    ensures groups == groups'
  {
    DigitsUnique(groups, groups', 32);
  }

  lemma BytesUnique(bytes: seq<int>, bytes': seq<int>, groups: seq<int>)
    requires Groups(bytes, groups) && Groups(bytes', groups)
    ensures bytes == bytes'
  {
    var p := Power(2, 5 * |groups| - 8 * |bytes|);
    PowerPositive(2, 5 * |groups| - 8 * |bytes|);
    SameFactor(Value(bytes, 256), Value(bytes', 256), p);
    DigitsUnique(bytes, bytes', 256);
  }

  lemma SameFactor(x: int, y: int, p: int)
    requires p > 0 && x * p == y * p
    ensures x == y
  {
    assert (x - y) * p == 0;
  }

  /** The accumulator: the number read so far, overflowed to 64 bits. */
  ghost predicate Holds(acc: int, value: int) {
    (acc - value) % B == 0
  }

  /** (acc << n) | low, where low has at most n bits: the shifted word has n zero bits there. */
  function ShiftIn(acc: I64, factor: int, low: int): (r: I64)
    ensures (r - (acc * factor + low)) % B == 0
  {
    WrapI64(acc * factor + low)
  }

  lemma HoldsShifted(acc: I64, value: int, factor: int, low: int)
    requires Holds(acc, value)
    ensures Holds(ShiftIn(acc, factor, low), value * factor + low)
  {
    var k := (acc - value) / B;
    assert acc - value == k * B;
    var r := ShiftIn(acc, factor, low);
    var j := (r - (acc * factor + low)) / B;
    assert r - (acc * factor + low) == j * B;
    assert acc * factor == value * factor + (k * B) * factor;
    assert (k * B) * factor == (k * factor) * B;
    assert r - (value * factor + low) == (j + k * factor) * B;
    MultipleOfB(j + k * factor);
  }

  lemma MultipleOfB(k: int)
    ensures (k * B) % B == 0
  {
  }

  /** Bits `low` to `low + width` of the accumulator are those of the number read so far. */
  lemma FieldOf(acc: I64, value: int, low: int, width: int)
    requires Holds(acc, value) && low > 0 && width > 0 && B % (low * width) == 0
    ensures acc / low % width == value / low % width
  {
    var k := (acc - value) / B;
    var q := B / (low * width);
    assert acc == value + k * B && B == q * (low * width);
    FieldShift(value, k * q, low, width);
    assert k * (q * (low * width)) == (k * q) * (low * width);
  }

  lemma FieldShift(value: int, m: int, low: int, width: int)
    requires low > 0 && width > 0
    ensures (value + m * (low * width)) / low % width == value / low % width
  {
    var q, r := value / low, value % low;
    assert m * (low * width) == (m * width) * low;
    QuotientShift(value, m * width, low);
    RemainderShift(q, m, width);
  }

  lemma QuotientShift(value: int, m: int, low: int)
    requires low > 0
    ensures (value + m * low) / low == value / low + m
  {
    var q, r := value / low, value % low;
    assert (q + m) * low == q * low + m * low;
    EuclidUnique(value + m * low, low, q + m, r);
  }

  lemma RemainderShift(q: int, m: int, width: int)
    requires width > 0
    ensures (q + m * width) % width == q % width
  {
    var t, r := q / width, q % width;
    assert (t + m) * width == t * width + m * width;
    EuclidUnique(q + m * width, width, t + m, r);
  }

  /** Taking one more digit off the top. */
  lemma TakeDigit(value: int, taken: int, low: int, width: int)
    requires low > 0 && width > 0 && taken == value / (low * width)
    ensures low * width > 0 && taken * width + value / low % width == value / low
  {
    assert low * width > 0;
    var q := value / low;
    var t, r := q / width, q % width;
    NestedQuotient(value, low, width);
  }

  lemma NestedQuotient(value: int, low: int, width: int)
    requires low > 0 && width > 0
    ensures low * width > 0 && value / (low * width) == value / low / width
  {
    var q, r := value / low, value % low;
    var t, s := q / width, q % width;
    NestedParts(value, low, width, q, r, t, s);
    EuclidUnique(value, low * width, t, s * low + r);
  }

  lemma NestedParts(value: int, low: int, width: int, q: int, r: int, t: int, s: int)
    requires 0 <= r < low && 0 <= s < width && value == q * low + r && q == t * width + s
    ensures low * width > 0 && 0 <= s * low + r < low * width && value == t * (low * width) + (s * low + r)
  {
    assert (t * width + s) * low == t * (low * width) + s * low;
    ProductBound(s, low, width - 1, low);
    assert (width - 1) * low == low * width - low;
  }

  lemma SmallPowers(k: nat)
    requires k <= 12
    ensures Power(2, k) > 0 && B % Power(2, k) == 0
    ensures Power(2, 5) == 32 && Power(2, 8) == 256
    ensures k <= 7 ==> B % (Power(2, k) * 32) == 0
    ensures k <= 4 ==> B % (Power(2, k) * 256) == 0
    ensures k <= 8 ==> Power(2, 8 - k) > 0 && Power(2, k) * Power(2, 8 - k) == 256
    ensures k <= 5 ==> Power(2, 5 - k) > 0 && Power(2, k) * Power(2, 5 - k) == 32
  {
    PowersOfTwo();
  }

  lemma PowersOfTwo()
    ensures Power(2, 0) == 1 && Power(2, 1) == 2 && Power(2, 2) == 4 && Power(2, 3) == 8 && Power(2, 4) == 16
    ensures Power(2, 5) == 32 && Power(2, 6) == 64 && Power(2, 7) == 128 && Power(2, 8) == 256
    ensures Power(2, 9) == 512 && Power(2, 10) == 1024 && Power(2, 11) == 2048 && Power(2, 12) == 4096
  {
    assert Power(2, 4) == 16;
    assert Power(2, 8) == 256;
  }

  /** The number the accumulator stands for, of which all but the last `bits` bits are out. */
  ghost predicate Progress(acc: int, out: seq<int>, base: int, value: int, bits: nat) {
    && bits <= 12 && value >= 0 && Holds(acc, value) && InBase(out, base) && Power(2, bits) > 0
    && Value(out, base) == value / Power(2, bits)
  }

  /** Shift one input digit in. */
  lemma AbsorbDigit(acc: I64, out: seq<int>, base: int, value: int, bits: nat, width: nat, factor: int, d: int)
    requires Progress(acc, out, base, value, bits) && bits + width <= 12 && factor == Power(2, width) && 0 <= d < factor
    ensures Power(2, bits + width) > 0
    ensures Progress(ShiftIn(acc, factor, d), out, base, value * factor + d, bits + width)
  {
    hide Value, Power, Holds, InBase, ShiftIn;
    HoldsShifted(acc, value, factor, d);
    PowerSum(2, bits, width);
    PowerPositive(2, bits + width);
    AbsorbValue(value, factor, d, Power(2, bits));
  }

  lemma AbsorbValue(value: int, factor: int, d: int, low: int)
    requires value >= 0 && 0 <= d < factor && low > 0
    ensures low * factor > 0 && value * factor + d >= 0
    ensures (value * factor + d) / (low * factor) == value / low
  {
    NestedQuotient(value * factor + d, factor, low);
    assert low * factor == factor * low;
    EuclidUnique(value * factor + d, factor, value, d);
    ProductBound(value, factor, value, factor);
  }

  /** (acc >> n) masked: an arithmetic shift and a mask of a word are a floor quotient and a remainder. */
  function Take(acc: int, low: int, base: int): int
    requires low > 0 && base > 0
  {
    acc / low % base
  }

  /** Take one output digit. */
  lemma EmitDigit(acc: I64, out: seq<int>, base: int, value: int, bits: nat, width: nat)
    requires Progress(acc, out, base, value, bits) && width <= bits && base == Power(2, width)
    requires (width == 5 && bits - width <= 7) || (width == 8 && bits - width <= 4)
    ensures Power(2, bits - width) > 0 && base > 0
    ensures Progress(acc, out + [Take(acc, Power(2, bits - width), base)], base, value, bits - width)
  {
    hide Value, Power, Holds;
    var low := Power(2, bits - width);
    SmallPowers(bits - width);
    PowerPositive(2, width);
    PowerSum(2, bits - width, width);
    FieldOf(acc, value, low, base);
    TakeDigit(value, Value(out, base), low, base);
    ValueStep(out, base, acc / low % base);
  }

  /** The last group, filled up with zero bits. */
  lemma PadDigit(acc: I64, out: seq<int>, value: int, bits: nat)
    requires Progress(acc, out, 32, value, bits) && 0 < bits < 5
    ensures Power(2, 5 - bits) > 0
    ensures var d := ShiftIn(acc, Power(2, 5 - bits), 0) % 32;
            InBase(out + [d], 32) && Value(out + [d], 32) == value * Power(2, 5 - bits)
  {
    hide Value, Holds;
    var fill := Power(2, 5 - bits);
    SmallPowers(bits);
    hide Power;
    HoldsShifted(acc, value, fill, 0);
    var r := ShiftIn(acc, fill, 0);
    FieldOf(r, value * fill, 1, 32);
    WholeField(r);
    WholeField(value * fill);
    PadValue(value, Power(2, bits), fill);
    ValueStep(out, 32, r % 32);
  }

  lemma WholeField(x: int)
    ensures x / 1 == x
  {
  }

  lemma PadValue(value: int, low: int, fill: int)
    requires low > 0 && fill > 0 && low * fill == 32
    ensures value / low * 32 + (value * fill) % 32 == value * fill
  {
    NestedQuotient(value * fill, fill, low);
    QuotientShift(0, value, fill);
    assert fill * low == 32;
  }

  /** Bytes to five-bit groups, padded: the accumulator overflows and is never masked. */
  method ConvertBits(data: seq<int>) returns (out: seq<int>)
    requires InBase(data, 256)
    ensures Groups(data, out)
  {
    hide Value, Power, Holds, InBase, ShiftIn, Progress, Groups, Take;
    var acc: I64, bits: nat := 0, 0;
    out := [];
    StartProgress(32);
    StartProgress(256);
    assert data[..0] == [];
    for i := 0 to |data|
      invariant bits < 5 && 5 * |out| + bits == 8 * i
      invariant Progress(acc, out, 32, Value(data[..i], 256), bits)
    {
      SmallPowers(bits);
      NextInput(data, 256, i);
      AbsorbDigit(acc, out, 32, Value(data[..i], 256), bits, 8, 256, data[i]);
      acc := ShiftIn(acc, 256, data[i]);
      bits := bits + 8;
      while bits >= 5
        invariant bits <= 12 && 5 * |out| + bits == 8 * (i + 1)
        invariant Progress(acc, out, 32, Value(data[..i + 1], 256), bits)
      {
        EmitDigit(acc, out, 32, Value(data[..i + 1], 256), bits, 5);
        bits := bits - 5;
        out := out + [Take(acc, Power(2, bits), 32)];
      }
    }
    assert data[..|data|] == data;
    if bits > 0 {
      PadDigit(acc, out, Value(data, 256), bits);
      out := out + [ShiftIn(acc, Power(2, 5 - bits), 0) % 32];
    } else {
      NoPadding(acc, out, Value(data, 256));
    }
    Padded(data, out, bits);
  }

  lemma NoPadding(acc: int, out: seq<int>, value: int)
    requires Progress(acc, out, 32, value, 0)
    ensures InBase(out, 32) && Value(out, 32) == value
  {
    PowersOfTwo();
    WholeField(value);
  }

  lemma StartProgress(base: int)
    ensures Progress(0, [], base, 0, 0) && Value([], base) == 0 && InBase([], base)
  {
  }

  lemma NextInput(data: seq<int>, base: int, i: nat)
    requires i < |data| && InBase(data, base)
    ensures 0 <= data[i] < base && Value(data[..i + 1], base) == Value(data[..i], base) * base + data[i]
  {
    assert data[..i + 1] == data[..i] + [data[i]];
    ValueStep(data[..i], base, data[i]);
  }

  lemma Padded(data: seq<int>, out: seq<int>, bits: nat)
    requires InBase(data, 256) && InBase(out, 32) && bits < 5
    requires 5 * |out| == 8 * |data| + (if bits == 0 then 0 else 5 - bits)
    requires Value(out, 32) == if bits == 0 then Value(data, 256) else Value(data, 256) * Power(2, 5 - bits)
    ensures Groups(data, out)
  {
    PowersOfTwo();
  }

  /** Five-bit groups back to bytes. Refused when five bits or more, or any set bit, is left over. */
  method ConvertBits5to8(data: seq<int>) returns (r: Option<seq<int>>)
    requires InBase(data, 32)
    ensures r.Some? ==> Groups(r.value, data)
    ensures r.None? ==> forall bytes :: !Groups(bytes, data)
  {
    hide Value, Power, Holds, InBase, ShiftIn, Progress, Groups;
    var acc, bits, out := TakeBytes(data);
    LeftOver(acc, out, Value(data, 32), bits);
    if bits >= 5 || ShiftIn(acc, Power(2, 8 - bits), 0) % 256 != 0 {
      forall bytes ensures !Groups(bytes, data) {
        Refused(bytes, data, bits);
      }
      return None;
    }
    Unpadded(acc, out, data, bits);
    return Some(out);
  }

  /** The two loops: every group in, every full byte out. */
  method TakeBytes(data: seq<int>) returns (acc: I64, bits: nat, out: seq<int>)
    requires InBase(data, 32)
    ensures bits < 8 && 8 * |out| + bits == 5 * |data| && Progress(acc, out, 256, Value(data, 32), bits)
  {
    hide Value, Power, Holds, InBase, ShiftIn, Progress, Take;
    acc, bits, out := 0, 0, [];
    StartProgress(256);
    StartProgress(32);
    assert data[..0] == [];
    for i := 0 to |data|
      invariant bits < 8 && 8 * |out| + bits == 5 * i
      invariant Progress(acc, out, 256, Value(data[..i], 32), bits)
    {
      SmallPowers(bits);
      NextInput(data, 32, i);
      AbsorbDigit(acc, out, 256, Value(data[..i], 32), bits, 5, 32, data[i]);
      acc := ShiftIn(acc, 32, data[i]);
      bits := bits + 5;
      while bits >= 8
        invariant bits <= 12 && 8 * |out| + bits == 5 * (i + 1)
        invariant Progress(acc, out, 256, Value(data[..i + 1], 32), bits)
      {
        EmitDigit(acc, out, 256, Value(data[..i + 1], 32), bits, 8);
        bits := bits - 8;
        out := out + [Take(acc, Power(2, bits), 256)];
      }
    }
    assert data[..|data|] == data;
  }

  /** The test on the shifted accumulator finds exactly the set bits left over. */
  lemma LeftOver(acc: I64, out: seq<int>, value: int, bits: nat)
    requires Progress(acc, out, 256, value, bits) && bits < 8
    ensures Power(2, 8 - bits) > 0 && Power(2, bits) > 0
    ensures ShiftIn(acc, Power(2, 8 - bits), 0) % 256 == 0 <==> value % Power(2, bits) == 0
  {
    var fill, low := Power(2, 8 - bits), Power(2, bits);
    SmallPowers(bits);
    HoldsShifted(acc, value, fill, 0);
    var r := ShiftIn(acc, fill, 0);
    FieldOf(r, value * fill, 1, 256);
    assert r / 1 == r && (value * fill) / 1 == value * fill;
    ScaledRemainder(value, low, fill);
  }

  lemma ScaledRemainder(value: int, low: int, fill: int)
    requires low > 0 && fill > 0 && low * fill == 256
    ensures (value * fill) % 256 == (value % low) * fill
    ensures (value * fill) % 256 == 0 <==> value % low == 0
  {
    var q, r := value / low, value % low;
    assert (q * low + r) * fill == q * (low * fill) + r * fill;
    assert 0 <= r * fill <= (low - 1) * fill;
    assert (low - 1) * fill == low * fill - fill;
    EuclidUnique(value * fill, 256, q, r * fill);
    assert r > 0 ==> r * fill > 0;
  }

  lemma Unpadded(acc: int, out: seq<int>, data: seq<int>, bits: nat)
    requires Progress(acc, out, 256, Value(data, 32), bits)
    requires InBase(data, 32) && bits < 5 && 8 * |out| + bits == 5 * |data| && Value(data, 32) % Power(2, bits) == 0
    ensures Groups(out, data)
  {
    hide Value, Power, InBase;
    var v, p := Value(data, 32), Power(2, bits);
    assert v == v / p * p + v % p;
  }

  /** What is refused is the grouping of no byte string. */
  lemma Refused(bytes: seq<int>, data: seq<int>, bits: nat)
    requires bits < 8 && (5 * |data| - bits) % 8 == 0 && Power(2, bits) > 0
    requires bits >= 5 || Value(data, 32) % Power(2, bits) != 0
    ensures !Groups(bytes, data)
  {
    if Groups(bytes, data) {
      var pad := 5 * |data| - 8 * |bytes|;
      assert pad == bits;
      QuotientShift(0, Value(bytes, 256), Power(2, bits));
      RemainderShift(0, Value(bytes, 256), Power(2, bits));
    }
  }

  /** Regrouping to five bits and back is the identity on byte strings, and so is the reverse on
      every group string that is accepted. */
  lemma RegroupRoundTrip(bytes: seq<int>, groups: seq<int>, back: Option<seq<int>>)
    requires Groups(bytes, groups)
    requires (back.Some? ==> Groups(back.value, groups)) && (back.None? ==> forall other :: !Groups(other, groups))
    ensures back == Some(bytes)
  {
    if back.Some? { BytesUnique(bytes, back.value, groups); }
  }
}
