/**
 Base58 (internal/custody/encoding.go): a byte string and its base-58 digits are worth the same
 number and start with equally many zeros, and either determines the other.
 */
module Base58 {
  import opened Common
  import opened Digits
  import opened Words

  /** Digits, capitals and small letters in order, without '0', 'I', 'O' and 'l'. */
  const ALPHABET: string := "123456789" + "ABCDEFGH" + "JKLMN" + "PQRSTUVWXYZ" + "abcdefghijk" + "mnopqrstuvwxyz"

  type Digit58 = d: int | 0 <= d < 58

  function CharOf(d: Digit58): char {
    ALPHABET[d]
  }

  function CodeOf(d: Digit58): int {
    if d < 9 then '1' as int + d
    else if d < 17 then 'A' as int + (d - 9)
    else if d < 22 then 'J' as int + (d - 17)
    else if d < 33 then 'P' as int + (d - 22)
    else if d < 44 then 'a' as int + (d - 33)
    else 'm' as int + (d - 44)
  }

  /** A run of consecutive characters. */
  ghost predicate Consecutive(run: string, first: int) {
    forall i :: 0 <= i < |run| ==> run[i] as int == first + i
  }

  lemma RunsAreConsecutive()
    ensures Consecutive("123456789", '1' as int) && Consecutive("ABCDEFGH", 'A' as int)
        && Consecutive("JKLMN", 'J' as int)
  {
  }

  lemma MoreRunsAreConsecutive()
    ensures Consecutive("PQRSTUVWXYZ", 'P' as int) && Consecutive("abcdefghijk", 'a' as int)
    ensures Consecutive("mnopqrstuvwxyz", 'm' as int)
  {
  }

  lemma Pieces(a: string, b: string, c: string, d: string, e: string, f: string, k: nat)
    requires |a| == 9 && |b| == 8 && |c| == 5 && |d| == 11 && |e| == 11 && |f| == 14 && k < 58
    ensures (a + b + c + d + e + f)[k] ==
            if k < 9 then a[k] else if k < 17 then b[k - 9] else if k < 22 then c[k - 17]
            else if k < 33 then d[k - 22] else if k < 44 then e[k - 33] else f[k - 44]
  {
  }

  lemma AlphabetRuns(d: Digit58)
    ensures CharOf(d) as int == CodeOf(d)
  {
    RunsAreConsecutive();
    MoreRunsAreConsecutive();
    Pieces("123456789", "ABCDEFGH", "JKLMN", "PQRSTUVWXYZ", "abcdefghijk", "mnopqrstuvwxyz", d);
  }

  /** The alphabet is the one ascending list of the 58 letters and digits left without '0', 'I', 'O', 'l'. */
  lemma AlphabetIs(d: Digit58, e: Digit58)
    ensures d < e ==> CharOf(d) < CharOf(e)
    ensures '1' <= CharOf(d) <= '9' || 'A' <= CharOf(d) <= 'Z' || 'a' <= CharOf(d) <= 'z'
    ensures CharOf(d) !in "0IOl"
  {
    hide CharOf;
    AlphabetRuns(d);
    AlphabetRuns(e);
  }

  lemma AlphabetDistinct(d: Digit58, e: Digit58)
    requires CharOf(d) == CharOf(e)
    ensures d == e
  {
    hide CharOf;
    AlphabetRuns(d);
    AlphabetRuns(e);
  }

  function Zeros(digits: seq<int>): (n: nat)
    ensures n <= |digits| && (forall i :: 0 <= i < n ==> digits[i] == 0) && (n < |digits| ==> digits[n] != 0)
  {
    if digits == [] || digits[0] != 0 then 0 else 1 + Zeros(digits[1..])
  }

  /** The correspondence base58 rests on. */
  ghost predicate Corresponds(bytes: seq<int>, digits: seq<int>) {
    && InBase(bytes, 256) && InBase(digits, 58)
    && Zeros(bytes) == Zeros(digits) && Value(bytes, 256) == Value(digits, 58)
  }

  // ----- uniqueness ----------------------------------------------------------------------

  lemma {:induction false} LeadingZeros(digits: seq<int>, base: int, n: nat)
    requires n <= |digits| && forall i :: 0 <= i < n ==> digits[i] == 0
    ensures Value(digits, base) == Value(digits[n..], base)
    decreases |digits|
  {
    if n < |digits| {
      var last := |digits| - 1;
      LeadingZeros(digits[..last], base, n);
      assert digits[..last][n..] == digits[n..][..last - n];
      assert digits[n..][last - n] == digits[last];
    } else {
      AllZero(digits, base);
      assert digits[n..] == [];
    }
  }

  lemma {:induction false} AllZero(digits: seq<int>, base: int)
    requires forall i :: 0 <= i < |digits| ==> digits[i] == 0
    ensures Value(digits, base) == 0
  {
    if digits != [] { AllZero(digits[..|digits| - 1], base); }
  }

  /** A number with a non-zero first digit is at least that power of the base. */
  lemma {:induction false} AtLeast(digits: seq<int>, base: int)
    requires base > 1 && InBase(digits, base) && digits != [] && digits[0] != 0
    ensures Value(digits, base) >= Power(base, |digits| - 1)
    decreases |digits|
  {
    var n := |digits| - 1;
    if n == 0 {
      assert digits[..0] == [];
    } else {
      AtLeast(digits[..n], base);
      Scaled(Power(base, n - 1), Value(digits[..n], base), base);
    }
  }

  lemma Scaled(p: int, v: int, base: int)
    requires p <= v && base > 1
    ensures base * p <= v * base
  {
  }

  lemma {:induction false} PowerGrows(base: int, m: nat, n: nat)
    requires base > 1 && m <= n
    ensures Power(base, m) <= Power(base, n)
  {
    if m < n {
      PowerGrows(base, m, n - 1);
      PowerPositive(base, n - 1);
      Scaled(Power(base, n - 1), Power(base, n - 1), base);
      assert base * Power(base, n - 1) >= Power(base, n - 1);
    }
  }

  /** Without leading zeros, the value determines the digits. */
  lemma SameLength(a: seq<int>, b: seq<int>, base: int)
    requires base > 1 && InBase(a, base) && InBase(b, base) && Value(a, base) == Value(b, base)
    requires (a != [] ==> a[0] != 0) && (b != [] ==> b[0] != 0)
    ensures |a| <= |b|
  {
    if |a| > |b| {
      AtLeast(a, base);
      ValueRange(b, base);
      PowerGrows(base, |b|, |a| - 1);
    }
  }

  lemma CanonicalUnique(a: seq<int>, b: seq<int>, base: int)
    requires base > 1 && InBase(a, base) && InBase(b, base) && Zeros(a) == Zeros(b) && Value(a, base) == Value(b, base)
    ensures a == b
  {
    hide Value, Power;
    var z := Zeros(a);
    LeadingZeros(a, base, z);
    LeadingZeros(b, base, z);
    SameLength(a[z..], b[z..], base);
    SameLength(b[z..], a[z..], base);
    DigitsUnique(a[z..], b[z..], base);
    assert a[..z] == b[..z];
    assert a == a[..z] + a[z..] && b == b[..z] + b[z..];
  }

  /** Either side determines the other: decoding after encoding is the identity on byte strings, and
      encoding after decoding is the identity on strings over the alphabet. */
  lemma CorrespondenceUnique(bytes: seq<int>, digits: seq<int>, bytes': seq<int>, digits': seq<int>)
    requires Corresponds(bytes, digits) && Corresponds(bytes', digits')
    ensures bytes == bytes' <==> digits == digits'
  {
    if bytes == bytes' { CanonicalUnique(digits, digits', 58); }
    if digits == digits' { CanonicalUnique(bytes, bytes', 256); }
  }

  function Written(digits: seq<Digit58>): (s: string)
    ensures |s| == |digits| && forall i :: 0 <= i < |digits| ==> s[i] == CharOf(digits[i])
  {
    seq(|digits|, i requires 0 <= i < |digits| => CharOf(digits[i]))
  }

  /** `s` is the base58 text of the bytes. */
  ghost predicate Encodes(bytes: seq<int>, s: string) {
    exists digits: seq<Digit58> :: Corresponds(bytes, digits) && s == Written(digits)
  }

  lemma WrittenInjective(d: seq<Digit58>, e: seq<Digit58>)
    requires Written(d) == Written(e)
    ensures d == e
  {
    hide CharOf;
    forall i | 0 <= i < |d| ensures i < |e| && d[i] == e[i] {
      assert Written(d)[i] == CharOf(d[i]) && Written(e)[i] == CharOf(e[i]);
      AlphabetDistinct(d[i], e[i]);
    }
  }

  /** Bytes and text determine each other: different byte strings have different texts, and a text
      that decodes is the one its bytes encode to. */
  lemma TextUnique(bytes: seq<int>, s: string, bytes': seq<int>, s': string)
    requires Encodes(bytes, s) && Encodes(bytes', s')
    ensures bytes == bytes' <==> s == s'
  {
    var d: seq<Digit58> :| Corresponds(bytes, d) && s == Written(d);
    var e: seq<Digit58> :| Corresponds(bytes', e) && s' == Written(e);
    CorrespondenceUnique(bytes, d, bytes', e);
    if s == s' { WrittenInjective(d, e); }
  }

  /** Decoding an encoded byte string returns it, for any answer the decoder's contract allows. */
  lemma RoundTrip(bytes: seq<int>, s: string, back: Option<seq<int>>)
    requires Encodes(bytes, s)
    requires (back.Some? ==> Encodes(back.value, s)) && (back.None? ==> forall other :: !Encodes(other, s))
    ensures back == Some(bytes)
  {
    if back.Some? { TextUnique(bytes, s, back.value, s); }
  }

  // ----- big integers --------------------------------------------------------------------

  /** big.Int.Bytes: big-endian, without leading zeros. */
  function Minimal(v: nat, base: int): (digits: seq<int>)
    requires base > 1
    ensures InBase(digits, base) && Value(digits, base) == v && (digits != [] ==> digits[0] != 0)
    decreases v
  {
    if v == 0 then []
    else
      DivShrinks(v, base);
      var rest := Minimal(v / base, base);
      ValueStep(rest, base, v % base);
      MinimalStep(v, base, rest);
      rest + [v % base]
  }

  lemma DivShrinks(v: int, base: int)
    requires v > 0 && base > 1
    ensures 0 <= v / base < v
  {
    var q := v / base;
    assert v == q * base + v % base;
    assert v * base == v * (base - 1) + v;
    ProductBound(1, 1, v, base - 1);
    BelowFactor(q, v, base);
    BelowFactor(-1, q + 1, base);
  }

  lemma MinimalStep(v: int, base: int, rest: seq<int>)
    requires v > 0 && base > 1 && Value(rest, base) == v / base
    ensures v / base * base + v % base == v && 0 <= v % base < base && (rest == [] ==> v % base != 0)
  {
    if rest == [] {
      assert v / base == 0;
    }
  }

  // ----- encoding ------------------------------------------------------------------------

  /** Swap ends toward the middle. */
  method ReverseInPlace(out: array<char>)
    modifies out
    ensures forall k :: 0 <= k < out.Length ==> out[k] == old(out[out.Length - 1 - k])
  {
    var i, j := 0, out.Length - 1;
    while i < j
      invariant 0 <= i && j == out.Length - 1 - i && i <= j + 1
      invariant forall k :: 0 <= k < i ==>
          out[k] == old(out[out.Length - 1 - k]) && out[out.Length - 1 - k] == old(out[k])
      invariant forall k :: i <= k <= j ==> out[k] == old(out[k])
    {
      out[i], out[j] := out[j], out[i];
      i, j := i + 1, j - 1;
    }
  }

  method CountZeros(input: seq<int>) returns (zeros: nat)
    ensures zeros <= |input| && (forall i :: 0 <= i < zeros ==> input[i] == 0)
        && (zeros < |input| ==> input[zeros] != 0)
  {
    zeros := 0;
    while zeros < |input| && input[zeros] == 0
      invariant zeros <= |input| && forall i :: 0 <= i < zeros ==> input[i] == 0
    {
      zeros := zeros + 1;
    }
  }

  /** The letters of a number, least significant first. */
  method LowLetters(value: nat) returns (out: string)
    ensures |out| == |Minimal(value, 58)|
    ensures forall i :: 0 <= i < |out| ==> out[i] == CharOf(Minimal(value, 58)[|out| - 1 - i])
  {
    hide CharOf;
    ghost var big: seq<Digit58> := Minimal(value, 58);
    var num := value;
    out := "";
    while num > 0
      invariant |out| <= |big| && num >= 0 && Minimal(num, 58) == big[..|big| - |out|]
      invariant forall i :: 0 <= i < |out| ==> out[i] == CharOf(big[|big| - 1 - i])
      decreases num
    {
      TakeLow(num, big, |out|);
      out := out + [CharOf(num % 58)];
      num := num / 58;
    }
    assert Minimal(0, 58) == [];
  }

  method Encode(input: seq<int>) returns (s: string)
    requires InBase(input, 256)
    ensures Encodes(input, s)
  {
    hide CharOf, Minimal, Corresponds;
    var zeros := CountZeros(input);
    ValueRange(input, 256);
    ghost var big: seq<Digit58> := Minimal(Value(input, 256), 58);
    var out := LowLetters(Value(input, 256));
    for i := 0 to zeros
      invariant |out| == |big| + i
      invariant forall k :: 0 <= k < |big| ==> out[k] == CharOf(big[|big| - 1 - k])
      invariant forall k :: |big| <= k < |big| + i ==> out[k] == CharOf(0)
    {
      out := out + [CharOf(0)];
    }
    var buf := new char[|out|](i requires 0 <= i < |out| => out[i]);
    ReverseInPlace(buf);
    s := buf[..];
    ghost var digits: seq<Digit58> := seq(zeros, _ => 0) + big;
    Prefixed(input, zeros, big);
    assert forall k :: 0 <= k < |s| ==> s[k] == CharOf(digits[k]);
    assert s == Written(digits);
  }

  lemma TakeLow(num: nat, big: seq<Digit58>, taken: nat)
    requires num > 0 && taken <= |big| && Minimal(num, 58) == big[..|big| - taken]
    ensures taken < |big| && big[|big| - 1 - taken] == num % 58 && Minimal(num / 58, 58) == big[..|big| - 1 - taken]
  {
    var m := Minimal(num, 58);
    assert m == Minimal(num / 58, 58) + [num % 58];
    assert m[|m| - 1] == num % 58 && m[..|m| - 1] == Minimal(num / 58, 58);
  }

  /** Zeros in front change neither the value nor, by their number, the correspondence. */
  lemma Prefixed(input: seq<int>, zeros: nat, big: seq<Digit58>)
    requires InBase(input, 256) && zeros <= |input| && (forall i :: 0 <= i < zeros ==> input[i] == 0)
    requires (zeros < |input| ==> input[zeros] != 0) && Value(big, 58) == Value(input, 256)
        && (big != [] ==> big[0] != 0)
    ensures Corresponds(input, seq(zeros, _ => 0) + big)
  {
    var digits: seq<int> := seq(zeros, _ => 0) + big;
    assert digits[zeros..] == big;
    LeadingZeros(digits, 58, zeros);
    ZerosAre(digits, zeros);
    ZerosAre(input, zeros);
  }

  lemma ZerosAre(digits: seq<int>, zeros: nat)
    requires zeros <= |digits| && (forall i :: 0 <= i < zeros ==> digits[i] == 0)
        && (zeros < |digits| ==> digits[zeros] != 0)
    ensures Zeros(digits) == zeros
  {
    var z := Zeros(digits);
    assert z >= zeros;
    assert z <= zeros;
  }

  // ----- decoding ------------------------------------------------------------------------

  method IndexIn(c: char) returns (d: Option<Digit58>)
    ensures d.Some? ==> CharOf(d.value) == c
    ensures d.None? ==> forall e: Digit58 :: CharOf(e) != c
  {
    hide CharOf;
    for i := 0 to 58
      invariant forall e: Digit58 :: e < i ==> CharOf(e) != c
    {
      if CharOf(i) == c {
        return Some(i);
      }
    }
    return None;
  }

  /** Fails exactly on a letter outside the alphabet. */
  method Decode(s: string) returns (r: Option<seq<int>>)
    ensures r.Some? ==> Encodes(r.value, s)
    ensures r.None? ==> forall bytes :: !Encodes(bytes, s)
    ensures r.None? <==> exists i :: 0 <= i < |s| && Foreign(s[i])
  {
    hide CharOf, Corresponds;
    var num: int := 0;
    ghost var digits: seq<Digit58> := [];
    for i := 0 to |s|
      invariant |digits| == i && num == Value(digits, 58) && num >= 0
      invariant forall k :: 0 <= k < i ==> s[k] == CharOf(digits[k])
    {
      var idx := IndexIn(s[i]);
      if idx.None? {
        assert Foreign(s[i]);
        NotEncoded(s, i);
        return None;
      }
      ValueStep(digits, 58, idx.value);
      num := num * 58;
      num := num + idx.value;
      digits := digits + [idx.value];
    }
    var decoded := Minimal(num, 256);
    var zeros := 0;
    while zeros < |s| && s[zeros] == CharOf(0)
      invariant zeros <= |s| && forall i :: 0 <= i < zeros ==> digits[i] == 0
    {
      AlphabetDistinct(digits[zeros], 0);
      zeros := zeros + 1;
    }
    assert zeros < |s| ==> digits[zeros] != 0;
    var out: seq<int> := seq(zeros, _ => 0) + decoded;
    PrefixedBytes(digits, zeros, decoded);
    assert s == Written(digits) && forall k :: 0 <= k < |s| ==> !Foreign(s[k]);
    return Some(out);
  }

  /** Not a letter of the alphabet. */
  ghost predicate Foreign(c: char) {
    forall d: Digit58 :: CharOf(d) != c
  }

  lemma NotEncoded(s: string, i: nat)
    requires i < |s| && Foreign(s[i])
    ensures forall bytes :: !Encodes(bytes, s)
  {
    hide Corresponds, CharOf;
  }

  lemma PrefixedBytes(digits: seq<Digit58>, zeros: nat, bytes: seq<int>)
    requires InBase(bytes, 256) && zeros <= |digits| && (forall i :: 0 <= i < zeros ==> digits[i] == 0)
    requires (zeros < |digits| ==> digits[zeros] != 0) && Value(bytes, 256) == Value(digits, 58)
        && (bytes != [] ==> bytes[0] != 0)
    ensures Corresponds(seq(zeros, _ => 0) + bytes, digits)
  {
    var out: seq<int> := seq(zeros, _ => 0) + bytes;
    assert out[zeros..] == bytes;
    LeadingZeros(out, 256, zeros);
    ZerosAre(out, zeros);
    ZerosAre(digits, zeros);
  }
}
