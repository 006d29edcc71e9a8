/**
 FIX 4.4 framing (internal/api/fix/message.go): tag=value fields ended by SOH, a computed
 BodyLength(9) and CheckSum(10). Decoding what was encoded gives the fields back, and a stream of
 encoded messages splits back into them.
 */
module Fix {
  import opened Common
  import opened Numerals

  const SOH: char := 1 as char

  const BEGIN: string := "FIX.4.4"
  const TAG_BEGIN: int := 8
  const TAG_LENGTH: int := 9
  const TAG_CHECKSUM: int := 10

  const MAX_BODY: int := 1048576

  const INT_MIN: int := -0x8000_0000_0000_0000
  const INT_MAX: int := 0x7fff_ffff_ffff_ffff

  datatype Field = Field(tag: int, value: string)

  // ----- integers ------------------------------------------------------------------------

  /** strconv.Itoa */
  function Itoa(n: int): string {
    if n < 0 then "-" + Render(-n) else Render(n)
  }

  predicate IsNumeral(s: string) {
    s != "" && forall i :: 0 <= i < |s| ==> IsDigit(s[i])
  }

  /** strconv.Atoi: an optional sign and digits, within a 64-bit int. */
  function Atoi(s: string): Option<int> {
    var digits := if s != "" && (s[0] == '+' || s[0] == '-') then s[1..] else s;
    if !IsNumeral(digits) then None
    else
      var v: int := Value(digits);
      var n := if s[0] == '-' then -v else v;
      if INT_MIN <= n <= INT_MAX then Some(n) else None
  }

  lemma AtoiOfItoa(n: int)
    requires INT_MIN <= n <= INT_MAX
    ensures Atoi(Itoa(n)) == Some(n)
  {
    var m := if n < 0 then -n else n;
    ValueOfRender(m);
    assert IsDigit(Render(m)[0]);
    assert ("-" + Render(m))[1..] == Render(m);
  }

  /** Decimal numerals hold neither the separator nor the equals sign. */
  lemma ItoaPlain(n: int)
    ensures Itoa(n) != "" && SOH !in Itoa(n) && '=' !in Itoa(n)
  {
    var m := if n < 0 then -n else n;
    ValueOfRender(m);
    assert forall i :: 0 <= i < |Render(m)| ==> IsDigit(Render(m)[i]);
  }

  /** %03d of a checksum. */
  function ThreeDigits(n: nat): string {
    var r := Render(n);
    (if |r| == 1 then "00" else if |r| == 2 then "0" else "") + r
  }

  lemma AtoiOfThreeDigits(n: nat)
    requires n < 256
    ensures Atoi(ThreeDigits(n)) == Some(n) && SOH !in ThreeDigits(n)
  {
    ValueOfRender(n);
    var r := Render(n);
    var pad := if |r| == 1 then "00" else if |r| == 2 then "0" else "";
    assert Value("") == 0;
    assert Value("0") == 0 by { assert "0"[..0] == ""; }
    assert Value("00") == 0 by { assert "00"[..1] == "0"; }
    ValueConcat(pad, r);
    assert forall i :: 0 <= i < |pad + r| ==> IsDigit((pad + r)[i]);
  }

  /** The trailer's value always has three digits. */
  lemma ThreeDigitsWide(n: nat)
    requires n < 1000
    ensures |ThreeDigits(n)| == 3 && AllDigits(ThreeDigits(n)) && Value(ThreeDigits(n)) == n
  {
    var r := Render(n);
    ValueOfRender(n);
    if n < 10 {
    } else if n < 100 {
      assert |Render(n / 10)| == 1;
    } else {
      assert |Render(n / 100)| == 1 && |Render(n / 10)| == 2;
    }
    var pad := if |r| == 1 then "00" else if |r| == 2 then "0" else "";
    assert Value("") == 0;
    assert Value("0") == 0 by { assert "0"[..0] == ""; }
    assert Value("00") == 0 by { assert "00"[..1] == "0"; }
    ValueConcat(pad, r);
  }

  // ----- encoding ------------------------------------------------------------------------

  function Line(f: Field): string {
    Itoa(f.tag) + "=" + f.value + [SOH]
  }

  function Body(fields: seq<Field>): string {
    if fields == [] then "" else Body(fields[..|fields| - 1]) + Line(fields[|fields| - 1])
  }

  function ByteSum(b: string): nat {
    if b == "" then 0 else ByteSum(b[..|b| - 1]) + b[|b| - 1] as int
  }

  function Header(length: nat): string {
    "8=" + BEGIN + [SOH] + "9=" + Itoa(length) + [SOH]
  }

  /** BodyLength counts the body's bytes; CheckSum is the sum of all bytes before it, modulo 256. */
  function Encoded(fields: seq<Field>): string {
    var full := Header(|Body(fields)|) + Body(fields);
    full + "10=" + ThreeDigits(ByteSum(full) % 256) + [SOH]
  }

  lemma ByteSumConcat(a: string, b: string)
    ensures ByteSum(a + b) == ByteSum(a) + ByteSum(b)
    decreases |b|
  {
    if b == "" {
      assert a + b == a;
    } else {
      assert (a + b)[..|a + b| - 1] == a + b[..|b| - 1];
      ByteSumConcat(a, b[..|b| - 1]);
    }
  }

  lemma FourBytes(a: char, b: char, c: char, d: char)
    ensures ByteSum([a, b, c, d]) == a as int + b as int + c as int + d as int
  {
    assert [a, b, c, d][..3] == [a, b, c] && [a, b, c][..2] == [a, b] && [a, b][..1] == [a] && [a][..0] == [];
    assert ByteSum([a]) == a as int;
    assert ByteSum([a, b]) == a as int + b as int;
    assert ByteSum([a, b, c]) == a as int + b as int + c as int;
  }

  lemma SmallNumerals()
    ensures Render(5) == "5" && Render(35) == "35" && Render(163) == "163"
  {
    assert Render(3) == "3" && Render(1) == "1" && Render(16) == "16";
  }

  /** The bytes of "8=FIX.4.4|9=5|35=0|". */
  lemma HeartbeatSum(full: string)
    requires full == "8=FIX.4.4" + [SOH] + "9=5" + [SOH] + "35=0" + [SOH]
    ensures ByteSum(full) % 256 == 163
  {
    FourBytes('8', '=', 'F', 'I');
    FourBytes('X', '.', '4', '.');
    FourBytes('4', SOH, '9', '=');
    FourBytes('5', SOH, '3', '5');
    FourBytes('=', '0', SOH, SOH);
    OneByte(SOH);
    hide ByteSum;
    ByteSumConcat(full, [SOH]);
    var a, b, c, d, e :=
      ['8', '=', 'F', 'I'], ['X', '.', '4', '.'], ['4', SOH, '9', '='], ['5', SOH, '3', '5'], ['=', '0', SOH, SOH];
    assert full + [SOH] == a + b + c + d + e;
    ByteSumConcat(a, b);
    ByteSumConcat(a + b, c);
    ByteSumConcat(a + b + c, d);
    ByteSumConcat(a + b + c + d, e);
  }

  /** A heartbeat with nothing in it, to the byte. */
  lemma KnownFrame()
    ensures Encoded([Field(35, "0")]) == "8=FIX.4.4" + [SOH] + "9=5" + [SOH] + "35=0" + [SOH] + "10=" + "163" + [SOH]
  {
    SmallNumerals();
    OneField();
    var full := "8=FIX.4.4" + [SOH] + "9=5" + [SOH] + "35=0" + [SOH];
    HeartbeatSum(full);
    hide ByteSum, Body, Render;
    assert Header(5) + ("35=0" + [SOH]) == full;
  }

  lemma OneField()
    ensures Body([Field(35, "0")]) == "35=0" + [SOH]
  {
    SmallNumerals();
    hide Render;
    assert [Field(35, "0")][..0] == [] && Body([]) == "";
    assert Line(Field(35, "0")) == "35=0" + [SOH];
  }

  lemma OneByte(c: char)
    ensures ByteSum([c]) == c as int
  {
    assert [c][..0] == [];
  }

  /** The body loop. */
  method BuildBody(fields: seq<Field>) returns (b: string)
    ensures b == Body(fields)
  {
    hide Body, Itoa;
    BodyOfNone();
    b := "";
    for i := 0 to |fields|
      invariant b == Body(fields[..i])
    {
      assert fields[..i + 1] == fields[..i] + [fields[i]];
      BodyAppend(fields[..i], fields[i]);
      b := b + Itoa(fields[i].tag);
      b := b + "=";
      b := b + fields[i].value;
      b := b + [SOH];
    }
    assert fields[..|fields|] == fields;
  }

  method Checksum(b: string) returns (sum: nat)
    ensures sum == ByteSum(b) % 256
  {
    sum := 0;
    for i := 0 to |b|
      invariant sum == ByteSum(b[..i])
    {
      assert b[..i + 1][..i] == b[..i];
      sum := sum + b[i] as int;
    }
    assert b[..|b|] == b;
    sum := sum % 256;
  }

  method Encode(fields: seq<Field>) returns (raw: string)
    ensures raw == Encoded(fields)
  {
    var body := BuildBody(fields);
    var full := Header(|body|) + body;
    var cs := Checksum(full);
    raw := full + "10=" + ThreeDigits(cs) + [SOH];
  }

  // ----- decoding ------------------------------------------------------------------------

  datatype Decoding = Ok(fields: seq<Field>) | Malformed | BadBeginString | BadBodyLength | BadCheckSum

  /** Index of the first c, or |s|. */
  function IndexOf(s: string, c: char): (i: nat)
    ensures i <= |s| && (i < |s| ==> s[i] == c) && forall j :: 0 <= j < i ==> s[j] != c
  {
    if s == "" then 0
    else if s[0] == c then 0
    else
      var i := IndexOf(s[1..], c);
      assert forall j :: 0 < j < i + 1 ==> s[j] == s[1..][j - 1];
      i + 1
  }

  /** strings.Split at the separator. */
  function Split(s: string): (parts: seq<string>)
    ensures parts != []
    decreases |s|
  {
    var i := IndexOf(s, SOH);
    if i == |s| then [s] else [s[..i]] + Split(s[i + 1..])
  }

  function ParseField(p: string): Option<Field> {
    var eq := IndexOf(p, '=');
    if eq == |p| || eq == 0 then None
    else
      var tag := Atoi(p[..eq]);
      if tag.None? then None else Some(Field(tag.value, p[eq + 1..]))
  }

  function ParseFields(parts: seq<string>): Option<seq<Field>> {
    if parts == [] then Some([])
    else
      var before, last := ParseFields(parts[..|parts| - 1]), ParseField(parts[|parts| - 1]);
      if before.None? || last.None? then None else Some(before.value + [last.value])
  }

  /** The first value of a tag. */
  function First(fields: seq<Field>, tag: int): Option<string> {
    if fields == [] then None
    else if fields[0].tag == tag then Some(fields[0].value)
    else First(fields[1..], tag)
  }

  function FirstInt(fields: seq<Field>, tag: int): Option<int> {
    var v := First(fields, tag);
    if v.None? then None else Atoi(v.value)
  }

  function Parts(raw: string): seq<string> {
    var parts := Split(raw);
    if parts[|parts| - 1] == "" then parts[..|parts| - 1] else parts
  }

  /** What a raw message is taken for, check by check. */
  function Validate(fields: seq<Field>): Decoding {
    if fields == [] || fields[0].tag != TAG_BEGIN || fields[0].value != BEGIN then BadBeginString
    else
      var declared := FirstInt(fields, TAG_LENGTH);
      if declared.None? || |fields| < 2 || fields[1].tag != TAG_LENGTH then Malformed
      else
        var rest := fields[2..];
        if rest == [] || rest[|rest| - 1].tag != TAG_CHECKSUM then Malformed
        else
          var body := Body(rest[..|rest| - 1]);
          if |body| != declared.value then BadBodyLength
          else
            var cs := FirstInt(fields, TAG_CHECKSUM);
            if ByteSum(Header(|body|) + body) % 256 != (if cs.Some? then cs.value else 0) then BadCheckSum
            else Ok(fields)
  }

  function Decoded(raw: string): Decoding {
    if raw == "" then Malformed
    else
      var parts := Parts(raw);
      if |parts| < 3 then Malformed
      else
        var fields := ParseFields(parts);
        if fields.None? then Malformed else Validate(fields.value)
  }

  /** A message under construction: the fields in order and an index of them by tag. */
  class Message {
    var fields: seq<Field>
    var byTag: map<int, seq<string>>

    ghost predicate Valid()
      reads this
    {
      forall tag :: Values(fields, tag) == if tag in byTag then byTag[tag] else []
    }

    constructor ()
      ensures Valid() && fields == []
    {
      fields, byTag := [], map[];
    }

    method Set(tag: int, value: string)
      requires Valid()
      modifies this
      ensures Valid() && fields == old(fields) + [Field(tag, value)]
    {
      assert forall t ::
          Values(fields + [Field(tag, value)], t) == Values(fields, t) + (if t == tag then [value] else []) by {
        assert (fields + [Field(tag, value)])[..|fields|] == fields;
      }
      fields := fields + [Field(tag, value)];
      byTag := byTag[tag := (if tag in byTag then byTag[tag] else []) + [value]];
    }

    method Get(tag: int) returns (value: Option<string>)
      requires Valid()
      ensures value == First(fields, tag)
    {
      FirstOfValues(fields, tag);
      if tag !in byTag || |byTag[tag]| == 0 {
        return None;
      }
      return Some(byTag[tag][0]);
    }

    method GetInt(tag: int) returns (n: Option<int>)
      requires Valid()
      ensures n == FirstInt(fields, tag)
    {
      var v := Get(tag);
      if v.None? {
        return None;
      }
      return Atoi(v.value);
    }
  }

  function Values(fields: seq<Field>, tag: int): seq<string> {
    if fields == [] then []
    else
      var last := fields[|fields| - 1];
      Values(fields[..|fields| - 1], tag) + (if last.tag == tag then [last.value] else [])
  }

  lemma {:induction false} FirstOfValues(fields: seq<Field>, tag: int)
    ensures First(fields, tag) == if Values(fields, tag) == [] then None else Some(Values(fields, tag)[0])
    decreases |fields|
  {
    if fields != [] {
      var n := |fields| - 1;
      FirstOfValues(fields[..n], tag);
      FirstAppend(fields[..n], fields[n], tag);
      assert fields == fields[..n] + [fields[n]];
    }
  }

  lemma {:induction false} FirstAppend(fields: seq<Field>, f: Field, tag: int)
    ensures First(fields + [f], tag) ==
            if First(fields, tag).Some? then First(fields, tag) else if f.tag == tag then Some(f.value) else None
    decreases |fields|
  {
    if fields != [] {
      FirstAppend(fields[1..], f, tag);
      assert (fields + [f])[1..] == fields[1..] + [f];
    } else {
      assert ([] + [f])[1..] == [];
    }
  }

  method Decode(raw: string) returns (r: Decoding, m: Message)
    ensures r == Decoded(raw)
    ensures r.Ok? ==> fresh(m) && m.Valid() && m.fields == r.fields
  {
    m := new Message();
    if |raw| == 0 {
      return Malformed, m;
    }
    var parts := Split(raw);
    if |parts| > 0 && parts[|parts| - 1] == "" {
      parts := parts[..|parts| - 1];
    }
    if |parts| < 3 {
      return Malformed, m;
    }
    hide Split, ParseFields, Validate;
    var ok := ParseParts(m, parts);
    if !ok {
      return Malformed, m;
    }
    r := CheckFields(m);
  }

  /** The field loop: every part in turn into the message, until one is no field. */
  method ParseParts(m: Message, parts: seq<string>) returns (ok: bool)
    requires m.Valid() && m.fields == []
    modifies m
    ensures ok <==> ParseFields(parts).Some?
    ensures ok ==> m.Valid() && ParseFields(parts) == Some(m.fields)
  {
    for i := 0 to |parts|
      invariant m.Valid() && ParseFields(parts[..i]) == Some(m.fields)
    {
      assert parts[..i + 1][..i] == parts[..i];
      var f := ParseField(parts[i]);
      if f.None? {
        BadPart(parts, i);
        return false;
      }
      m.Set(f.value.tag, f.value.value);
    }
    assert parts[..|parts|] == parts;
    return true;
  }

  /** One bad part spoils the message. */
  lemma {:induction false} BadPart(parts: seq<string>, i: nat)
    requires i < |parts| && ParseFields(parts[..i + 1]).None?
    ensures ParseFields(parts).None?
    decreases |parts|
  {
    if i + 1 < |parts| {
      var n := |parts| - 1;
      assert parts[..n][..i + 1] == parts[..i + 1];
      BadPart(parts[..n], i);
    } else {
      assert parts[..i + 1] == parts;
    }
  }

  method CheckFields(m: Message) returns (r: Decoding)
    requires m.Valid()
    ensures r == Validate(m.fields)
  {
    if |m.fields| == 0 || m.fields[0].tag != TAG_BEGIN || m.fields[0].value != BEGIN {
      return BadBeginString;
    }
    var declared := m.GetInt(TAG_LENGTH);
    if declared.None? || |m.fields| < 2 || m.fields[1].tag != TAG_LENGTH {
      return Malformed;
    }
    var rest := m.fields[2..];
    if |rest| == 0 || rest[|rest| - 1].tag != TAG_CHECKSUM {
      return Malformed;
    }
    var body := BuildBody(rest[..|rest| - 1]);
    if |body| != declared.value {
      return BadBodyLength;
    }
    var cs := m.GetInt(TAG_CHECKSUM);
    var sum := Checksum(Header(|body|) + body);
    if sum != (if cs.Some? then cs.value else 0) {
      return BadCheckSum;
    }
    return Ok(m.fields);
  }

  // ----- the round trip ------------------------------------------------------------------

  lemma BodyAppend(fields: seq<Field>, f: Field)
    ensures Body(fields + [f]) == Body(fields) + Line(f)
  {
    assert (fields + [f])[..|fields|] == fields;
  }

  lemma BodyOfNone()
    ensures Body([]) == ""
  {
  }

  lemma {:induction false} BodyConcat(a: seq<Field>, b: seq<Field>)
    ensures Body(a + b) == Body(a) + Body(b)
    decreases |b|
  {
    hide Line, Body;
    BodyOfNone();
    if b == [] {
      assert a + b == a;
    } else {
      var n := |b| - 1;
      BodyConcat(a, b[..n]);
      BodyAppend(a + b[..n], b[n]);
      BodyAppend(b[..n], b[n]);
      assert b == b[..n] + [b[n]];
      assert a + b == a + b[..n] + [b[n]];
    }
  }

  lemma BodyCons(f: Field, rest: seq<Field>)
    ensures Body([f] + rest) == Line(f) + Body(rest)
  {
    hide Line;
    BodyConcat([f], rest);
    BodyOne(f);
  }

  lemma BodyOne(f: Field)
    ensures Body([f]) == Line(f)
  {
    assert [f][..0] == [];
    assert Body([]) == "";
  }

  /** The message on the wire: header and trailer are fields like any other. */
  function Framed(fields: seq<Field>): seq<Field> {
    [Field(TAG_BEGIN, BEGIN), Field(TAG_LENGTH, Itoa(|Body(fields)|))] + fields
      + [Field(TAG_CHECKSUM, ThreeDigits(ByteSum(Header(|Body(fields)|) + Body(fields)) % 256))]
  }

  lemma TagNumerals()
    ensures Itoa(8) == "8" && Itoa(9) == "9" && Itoa(10) == "10"
  {
    assert Render(10) == Render(1) + [DigitChar(0)];
  }

  lemma BodyOfFramed(begin: Field, length: Field, fields: seq<Field>, last: Field)
    ensures Body([begin, length] + fields + [last]) == Line(begin) + Line(length) + Body(fields) + Line(last)
  {
    hide Line;
    BodyAppend([begin, length] + fields, last);
    BodyConcat([begin, length], fields);
    BodyAppend([begin], length);
    BodyOne(begin);
    assert [begin] + [length] == [begin, length];
    hide Body;
  }

  lemma EncodedIsBody(fields: seq<Field>)
    ensures Encoded(fields) == Body(Framed(fields))
  {
    var n := |Body(fields)|;
    var begin, length := Field(TAG_BEGIN, BEGIN), Field(TAG_LENGTH, Itoa(n));
    var last := Field(TAG_CHECKSUM, ThreeDigits(ByteSum(Header(n) + Body(fields)) % 256));
    HeaderLines(n);
    TrailerLine(last.value);
    BodyOfFramed(begin, length, fields, last);
    hide Body, Itoa, ThreeDigits, ByteSum, Header, Line;
    Reassociate(Header(n), Body(fields), last.value, Line(last));
  }

  lemma Reassociate(head: string, body: string, sum: string, line: string)
    requires line == "10=" + sum + [SOH]
    ensures head + body + "10=" + sum + [SOH] == head + body + line
  {
  }

  lemma TrailerLine(sum: string)
    ensures Line(Field(TAG_CHECKSUM, sum)) == "10=" + sum + [SOH]
  {
    TagNumerals();
    hide Itoa;
    assert "10" + "=" + sum + [SOH] == "10=" + sum + [SOH];
  }

  lemma HeaderLines(n: nat)
    ensures Header(n) == Line(Field(TAG_BEGIN, BEGIN)) + Line(Field(TAG_LENGTH, Itoa(n)))
  {
    TagNumerals();
    hide Itoa;
    assert "8" + "=" + BEGIN + [SOH] == "8=" + BEGIN + [SOH];
    assert "9" + "=" + Itoa(n) + [SOH] == "9=" + Itoa(n) + [SOH];
  }

  /** Values the separator does not occur in, and tags that fit an int. */
  ghost predicate Clean(fields: seq<Field>) {
    forall f :: f in fields ==> SOH !in f.value && INT_MIN <= f.tag <= INT_MAX
  }

  function PartOf(f: Field): string {
    Itoa(f.tag) + "=" + f.value
  }

  lemma IndexAt(s: string, c: char, i: nat)
    requires i < |s| && s[i] == c && c !in s[..i]
    ensures IndexOf(s, c) == i
  {
    var k := IndexOf(s, c);
    if k < i { PrefixHolds(s, i, k); }
  }

  lemma PrefixHolds(s: string, i: nat, k: nat)
    requires k < i <= |s|
    ensures s[k] in s[..i]
  {
    assert s[..i][k] == s[k];
  }

  lemma PartParses(f: Field)
    requires INT_MIN <= f.tag <= INT_MAX
    ensures ParseField(PartOf(f)) == Some(f)
  {
    ItoaPlain(f.tag);
    AtoiOfItoa(f.tag);
    hide Itoa, Atoi;
    var p, n := PartOf(f), |Itoa(f.tag)|;
    assert p[..n] == Itoa(f.tag) && p[n] == '=' && p[n + 1..] == f.value;
    IndexAt(p, '=', n);
  }

  lemma SplitLine(f: Field, rest: string)
    requires SOH !in f.value
    ensures Split(Line(f) + rest) == [PartOf(f)] + Split(rest)
  {
    ItoaPlain(f.tag);
    hide Itoa;
    var s, n := Line(f) + rest, |PartOf(f)|;
    assert s[..n] == PartOf(f) && s[n] == SOH && s[n + 1..] == rest;
    assert forall i :: 0 <= i < n ==> PartOf(f)[i] in Itoa(f.tag) || PartOf(f)[i] == '=' || PartOf(f)[i] in f.value;
    IndexAt(s, SOH, n);
  }

  /** The split of a body: one part per field, and the empty string after the last separator. */
  lemma {:induction false} SplitBody(fields: seq<Field>, parts: seq<string>)
    requires Clean(fields) && |parts| == |fields| && forall i :: 0 <= i < |fields| ==> parts[i] == PartOf(fields[i])
    ensures Split(Body(fields)) == parts + [""]
    decreases |fields|
  {
    hide PartOf, Split, Body, Line;
    if fields == [] {
      BodyOfNone();
      EmptySplit();
      assert parts == [];
    } else {
      var f, rest := fields[0], fields[1..];
      BodyCons(f, rest);
      assert fields == [f] + rest;
      SplitLine(f, Body(rest));
      SplitBody(rest, parts[1..]);
      assert [parts[0]] + (parts[1..] + [""]) == parts + [""];
    }
  }

  lemma {:induction false} PartsParse(fields: seq<Field>, parts: seq<string>)
    requires Clean(fields) && |parts| == |fields| && forall i :: 0 <= i < |fields| ==> parts[i] == PartOf(fields[i])
    ensures ParseFields(parts) == Some(fields)
    decreases |fields|
  {
    hide PartOf, ParseField;
    if fields != [] {
      var n := |fields| - 1;
      PartsParse(fields[..n], parts[..n]);
      PartParses(fields[n]);
      assert fields == fields[..n] + [fields[n]];
    }
  }

  lemma BodyReads(fields: seq<Field>)
    requires Clean(fields) && |fields| >= 3
    ensures Decoded(Body(fields)) == Validate(fields)
  {
    hide Validate, PartOf, Clean, ParseFields, Split;
    var parts := seq(|fields|, i requires 0 <= i < |fields| => PartOf(fields[i]));
    SplitBody(fields, parts);
    PartsParse(fields, parts);
    DropLast(parts);
    EmptySplit();
    hide Body;
  }

  lemma DropLast(parts: seq<string>)
    ensures |parts + [""]| == |parts| + 1 && (parts + [""])[|parts|] == "" && (parts + [""])[..|parts|] == parts
  {
  }

  lemma EmptySplit()
    ensures Split("") == [""]
  {
  }

  lemma {:induction false} FirstConcat(a: seq<Field>, b: seq<Field>, tag: int)
    ensures First(a + b, tag) == if First(a, tag).Some? then First(a, tag) else First(b, tag)
    decreases |a|
  {
    if a == [] {
      assert a + b == b;
    } else {
      FirstConcat(a[1..], b, tag);
      assert (a + b)[1..] == a[1..] + b;
    }
  }

  /** What GetInt(10) finds: the message's own checksum, unless the fields already held a tag 10. */
  function ClaimedChecksum(fields: seq<Field>, sum: int): int {
    if First(fields, TAG_CHECKSUM).None? then sum
    else
      var cs := FirstInt(fields, TAG_CHECKSUM);
      if cs.Some? then cs.value else 0
  }

  lemma ValidateFramed(fields: seq<Field>)
    requires |Body(fields)| <= INT_MAX
    ensures var sum := ByteSum(Header(|Body(fields)|) + Body(fields)) % 256;
            Validate(Framed(fields)) == if ClaimedChecksum(fields, sum) == sum then Ok(Framed(fields)) else BadCheckSum
  {
    var n := |Body(fields)|;
    var sum := ByteSum(Header(n) + Body(fields)) % 256;
    AtoiOfItoa(n);
    AtoiOfThreeDigits(sum);
    hide Itoa, Atoi, ThreeDigits, ByteSum, Header, Body, Validate;
    ValidateParts(Field(TAG_BEGIN, BEGIN), Field(TAG_LENGTH, Itoa(n)), fields, Field(TAG_CHECKSUM, ThreeDigits(sum)),
        n, sum);
  }

  lemma ValidateParts(begin: Field, length: Field, fields: seq<Field>, last: Field, n: nat, sum: nat)
    requires begin == Field(TAG_BEGIN, BEGIN) && length.tag == TAG_LENGTH && last.tag == TAG_CHECKSUM
    requires Atoi(length.value) == Some(n) && Atoi(last.value) == Some(sum)
    requires n == |Body(fields)| && sum == ByteSum(Header(n) + Body(fields)) % 256
    ensures var all := [begin, length] + fields + [last];
            Validate(all) == if ClaimedChecksum(fields, sum) == sum then Ok(all) else BadCheckSum
  {
    hide Atoi, ByteSum, Header, Body, First;
    var all := [begin, length] + fields + [last];
    FirstOfFramed(begin, length, fields, last);
    assert all[0] == begin && all[1] == length;
    assert all[2..] == fields + [last];
    assert (fields + [last])[..|fields + [last]| - 1] == fields;
  }

  lemma FirstOfFramed(begin: Field, length: Field, fields: seq<Field>, last: Field)
    requires begin.tag == TAG_BEGIN && length.tag == TAG_LENGTH && last.tag == TAG_CHECKSUM
    ensures var all := [begin, length] + fields + [last];
            && First(all, TAG_LENGTH) == Some(length.value)
            && First(all, TAG_CHECKSUM) == if First(fields, TAG_CHECKSUM).Some? then First(fields, TAG_CHECKSUM)
                else Some(last.value)
  {
    var head := [begin, length];
    assert head[1..] == [length] && [length][1..] == [];
    FirstConcat(head, fields + [last], TAG_CHECKSUM);
    FirstConcat(head, fields + [last], TAG_LENGTH);
    FirstConcat(fields, [last], TAG_CHECKSUM);
    assert head + fields + [last] == head + (fields + [last]);
  }

  /** Decoding what was encoded gives BeginString and BodyLength, then the fields in order, then
      CheckSum: for all separator-free fields, exactly when they hold no tag 10 of their own that
      contradicts the checksum. */
  lemma RoundTrip(fields: seq<Field>)
    requires Clean(fields) && |Body(fields)| <= INT_MAX
    ensures var sum := ByteSum(Header(|Body(fields)|) + Body(fields)) % 256;
            Decoded(Encoded(fields)) == Ok(Framed(fields)) <==> ClaimedChecksum(fields, sum) == sum
    ensures First(fields, TAG_CHECKSUM).None? ==> Decoded(Encoded(fields)) == Ok(Framed(fields))
  {
    EncodedIsBody(fields);
    FramedClean(fields);
    BodyReads(Framed(fields));
    ValidateFramed(fields);
    hide Decoded, Encoded, Validate, Framed, ByteSum, Body;
  }

  lemma FramedClean(fields: seq<Field>)
    requires Clean(fields)
    ensures Clean(Framed(fields)) && |Framed(fields)| >= 3
  {
    ItoaPlain(|Body(fields)|);
    AtoiOfThreeDigits(ByteSum(Header(|Body(fields)|) + Body(fields)) % 256);
    hide Itoa, ThreeDigits, ByteSum, Body, Header;
    var framed := Framed(fields);
    PlainBegin();
    forall f | f in framed ensures SOH !in f.value && INT_MIN <= f.tag <= INT_MAX {
      assert f == framed[0] || f == framed[1] || f in fields || f == framed[|framed| - 1];
    }
  }

  /** Anything accepted has the standard header and trailer in place, a true BodyLength, and the byte sum
      of header and body in the first tag 10 (where something that is no number counts as 0). */
  lemma AcceptedMeans(raw: string, fields: seq<Field>)
    requires Decoded(raw) == Ok(fields)
    ensures |fields| >= 3 && fields[0] == Field(TAG_BEGIN, BEGIN) && fields[1].tag == TAG_LENGTH
    ensures fields[|fields| - 1].tag == TAG_CHECKSUM
    ensures Atoi(fields[1].value) == Some(|Body(fields[2..|fields| - 1])|)
    ensures var body := Body(fields[2..|fields| - 1]);
            var claimed := FirstInt(fields, TAG_CHECKSUM);
            ByteSum(Header(|body|) + body) % 256 == if claimed.Some? then claimed.value else 0
  {
    hide Atoi, Body, ByteSum, Parts, ParseFields;
    var rest := fields[2..];
    assert rest[..|rest| - 1] == fields[2..|fields| - 1];
    assert First(fields, TAG_LENGTH) == Some(fields[1].value) by {
      assert fields[1..][0] == fields[1];
    }
  }

  /** The pieces put back together. */
  function Join(parts: seq<string>): string
    requires parts != []
  {
    if |parts| == 1 then parts[0] else parts[0] + [SOH] + Join(parts[1..])
  }

  /** Splitting loses nothing and cuts at every separator. */
  lemma {:induction false} SplitJoins(s: string)
    ensures Join(Split(s)) == s
    ensures forall i :: 0 <= i < |Split(s)| ==> SOH !in Split(s)[i]
    decreases |s|
  {
    var i := IndexOf(s, SOH);
    if i < |s| {
      SplitJoins(s[i + 1..]);
      assert s == s[..i] + [SOH] + s[i + 1..];
      assert Split(s)[1..] == Split(s[i + 1..]);
    }
  }

  /** A piece is the field of its tag and value: a number, the first equals sign, and all that follows. */
  predicate Piece(p: string, f: Field) {
    exists k: nat :: 0 < k < |p| && p[k] == '=' && '=' !in p[..k] && Atoi(p[..k]) == Some(f.tag)
        && p[k + 1..] == f.value
  }

  lemma PieceExactly(p: string, f: Field)
    ensures ParseField(p) == Some(f) <==> Piece(p, f)
  {
    hide Atoi;
    var eq := IndexOf(p, '=');
    if k: nat :| 0 < k < |p| && p[k] == '=' && '=' !in p[..k] && Atoi(p[..k]) == Some(f.tag) && p[k + 1..] == f.value {
      assert forall j :: 0 <= j < k ==> p[j] == p[..k][j];
      assert eq == k;
    }
    if ParseField(p) == Some(f) {
      assert p[eq] == '=' && '=' !in p[..eq];
    }
  }

  predicate Pieces(parts: seq<string>, fields: seq<Field>) {
    |parts| == |fields| && forall i :: 0 <= i < |parts| ==> Piece(parts[i], fields[i])
  }

  lemma {:induction false} PiecesExactly(parts: seq<string>, fields: seq<Field>)
    ensures ParseFields(parts) == Some(fields) <==> Pieces(parts, fields)
    decreases |parts|
  {
    hide Piece, ParseField;
    if parts != [] && fields != [] {
      var n, m := |parts| - 1, |fields| - 1;
      PiecesExactly(parts[..n], fields[..m]);
      PieceExactly(parts[n], fields[m]);
      PiecesLast(parts, fields);
      assert fields == fields[..m] + [fields[m]];
    }
  }

  lemma PiecesLast(parts: seq<string>, fields: seq<Field>)
    requires parts != [] && fields != []
    ensures var n, m := |parts| - 1, |fields| - 1;
            Pieces(parts, fields) <==> Pieces(parts[..n], fields[..m]) && Piece(parts[n], fields[m])
  {
    hide Piece;
    var n, m := |parts| - 1, |fields| - 1;
    if Pieces(parts[..n], fields[..m]) && Piece(parts[n], fields[m]) {
      forall i | 0 <= i < |parts| ensures Piece(parts[i], fields[i]) {
        if i < n { assert parts[i] == parts[..n][i] && fields[i] == fields[..m][i]; }
      }
    }
  }

  /** The message is these fields, each a piece of it, with or without the last separator. */
  ghost predicate Spells(raw: string, fields: seq<Field>) {
    exists parts: seq<string> ::
      && parts != [] && (Join(parts) == raw || Join(parts) + [SOH] == raw)
      && (forall i :: 0 <= i < |parts| ==> SOH !in parts[i]) && Pieces(parts, fields)
  }

  lemma {:induction false} JoinLast(parts: seq<string>)
    requires |parts| > 1 && parts[|parts| - 1] == ""
    ensures Join(parts) == Join(parts[..|parts| - 1]) + [SOH]
    decreases |parts|
  {
    if |parts| == 2 {
      assert parts[1..] == [""];
    } else {
      JoinLast(parts[1..]);
      assert parts[1..][..|parts| - 2] == parts[..|parts| - 1][1..];
      var a, b, c := parts[0] + [SOH], Join(parts[1..][..|parts| - 2]), [SOH];
      assert a + (b + c) == a + b + c;
    }
  }

  lemma PartsSpell(raw: string, fields: seq<Field>)
    requires raw != "" && |Parts(raw)| > 0 && ParseFields(Parts(raw)) == Some(fields)
    ensures Spells(raw, fields)
  {
    var all, parts := Split(raw), Parts(raw);
    SplitJoins(raw);
    PiecesExactly(parts, fields);
    hide Piece, Split, Join;
    assert forall i :: 0 <= i < |parts| ==> parts[i] == all[i];
    if parts != all { JoinLast(all); }
  }

  /** Header, trailer, length and checksum are right. */
  predicate Sealed(fields: seq<Field>)
    requires |fields| >= 3
  {
    var body, claimed := Body(fields[2..|fields| - 1]), FirstInt(fields, TAG_CHECKSUM);
    && fields[0] == Field(TAG_BEGIN, BEGIN) && fields[1].tag == TAG_LENGTH
    && fields[|fields| - 1].tag == TAG_CHECKSUM && Atoi(fields[1].value) == Some(|body|)
    && ByteSum(Header(|body|) + body) % 256 == if claimed.Some? then claimed.value else 0
  }

  lemma VerdictExactly(fields: seq<Field>)
    requires |fields| >= 3
    ensures Validate(fields) == BadBeginString <==> fields[0] != Field(TAG_BEGIN, BEGIN)
    ensures Validate(fields) == Ok(fields) <==> Sealed(fields)
    ensures Validate(fields).Ok? ==> Validate(fields) == Ok(fields)
  {
    hide Atoi, Body, ByteSum, Header;
    var rest := fields[2..];
    assert rest[..|rest| - 1] == fields[2..|fields| - 1];
    if fields[0].tag == TAG_BEGIN && fields[1].tag == TAG_LENGTH {
      assert First(fields, TAG_LENGTH) == Some(fields[1].value) by {
        assert fields[1..][0] == fields[1];
      }
    }
  }

  /** Accepted exactly when header, trailer, length and checksum are right, whatever fields are read off the
      wire; and the verdict on the first field is exactly that. */
  lemma AcceptedExactly(raw: string, fields: seq<Field>)
    requires raw != "" && |fields| >= 3 && ParseFields(Parts(raw)) == Some(fields)
    ensures Spells(raw, fields)
    ensures Decoded(raw) == BadBeginString <==> fields[0] != Field(TAG_BEGIN, BEGIN)
    ensures Decoded(raw) == Ok(fields) <==> Sealed(fields)
    ensures Decoded(raw).Ok? ==> Decoded(raw) == Ok(fields)
  {
    PiecesExactly(Parts(raw), fields);
    PartsSpell(raw, fields);
    VerdictExactly(fields);
    hide Validate, Parts, ParseFields, Spells, Piece, Sealed;
  }

  // ----- framing a stream ----------------------------------------------------------------

  datatype Read = Frame(raw: string, rest: string) | Eof | BadFrame

  /** Up to and including the next separator, and what follows. */
  function NextField(data: string): Option<(string, string)> {
    var i := IndexOf(data, SOH);
    if i == |data| then None else Some((data[..i + 1], data[i + 1..]))
  }

  /** The length a "9=<n>" field declares, if it is one within bounds. */
  function DeclaredLength(field: string): Option<int> {
    if |field| < 3 || field[..2] != "9=" then None
    else
      var n := Atoi(field[2..|field| - 1]);
      if n.None? || n.value < 0 || n.value > MAX_BODY then None else n
  }

  function FrameOf(data: string): Read {
    var begin := NextField(data);
    if begin.None? then Eof
    else
      var length := NextField(begin.value.1);
      if length.None? then Eof
      else
        var n := DeclaredLength(length.value.0);
        if n.None? then BadFrame
        else
          var after := length.value.1;
          if |after| < n.value then Eof
          else
            var cs := NextField(after[n.value..]);
            if cs.None? then Eof
            else Frame(begin.value.0 + length.value.0 + after[..n.value] + cs.value.0, cs.value.1)
  }

  /** A piece of the stream up to its first separator. */
  predicate Piecewise(line: string) {
    line != "" && line[|line| - 1] == SOH && SOH !in line[..|line| - 1]
  }

  lemma NextFieldMeans(data: string, line: string, rest: string)
    ensures NextField(data) == Some((line, rest)) <==> Piecewise(line) && line + rest == data
  {
    var i := IndexOf(data, SOH);
    if Piecewise(line) && line + rest == data {
      assert data[|line| - 1] == SOH;
      assert forall j :: 0 <= j < |line| - 1 ==> data[j] == line[..|line| - 1][j];
      assert i == |line| - 1;
      assert data[..i + 1] == line && data[i + 1..] == rest;
    }
    if i < |data| {
      assert data[..i + 1][..i] == data[..i];
      assert data[..i + 1] + data[i + 1..] == data;
    }
  }

  /** What one read takes off the stream, if it takes a frame: two fields, the second declaring a length, that
      many bytes whatever they are, and one more field; the rest is left as it is. */
  lemma FrameExactly(data: string, raw: string, rest: string)
    ensures FrameOf(data) == Frame(raw, rest) <==>
            raw + rest == data && exists begin, length, body, trailer ::
              && raw == begin + length + body + trailer
              && Piecewise(begin) && Piecewise(length) && Piecewise(trailer) && DeclaredLength(length) == Some(|body|)
  {
    hide Piecewise, DeclaredLength;
    if FrameOf(data) == Frame(raw, rest) {
      var begin, length, body, trailer := FrameIsPieces(data, raw, rest);
    }
    if raw + rest == data {
      forall begin, length, body, trailer |
          && raw == begin + length + body + trailer
          && Piecewise(begin) && Piecewise(length) && Piecewise(trailer) && DeclaredLength(length) == Some(|body|)
        ensures FrameOf(data) == Frame(raw, rest)
      {
        PiecesAreFrame(data, begin, length, body, trailer, rest);
      }
    }
  }

  lemma FrameIsPieces(data: string, raw: string, rest: string)
    returns (begin: string, length: string, body: string, trailer: string)
    requires FrameOf(data) == Frame(raw, rest)
    ensures raw + rest == data && raw == begin + length + body + trailer
    ensures Piecewise(begin) && Piecewise(length) && Piecewise(trailer) && DeclaredLength(length) == Some(|body|)
  {
    hide Piecewise, DeclaredLength, NextField;
    begin := NextField(data).value.0;
    var d1 := NextField(data).value.1;
    NextFieldMeans(data, begin, d1);
    length := NextField(d1).value.0;
    var d2 := NextField(d1).value.1;
    NextFieldMeans(d1, length, d2);
    var n := DeclaredLength(length).value;
    LengthInBounds(length);
    var d3 := d2[n..];
    body, trailer := d2[..n], NextField(d3).value.0;
    NextFieldMeans(d3, trailer, rest);
    FivePieces(begin, length, body, trailer, rest, d2, d3);
  }

  lemma LengthInBounds(field: string)
    ensures DeclaredLength(field).Some? ==> 0 <= DeclaredLength(field).value <= MAX_BODY
  {
    hide Atoi;
  }

  lemma FivePieces(a: string, b: string, c: string, d: string, e: string, cde: string, de: string)
    requires cde == c + de && de == d + e
    ensures a + b + c + d + e == a + (b + cde)
  {
  }

  lemma PiecesAreFrame(data: string, begin: string, length: string, body: string, trailer: string, rest: string)
    requires begin + length + body + trailer + rest == data
    requires Piecewise(begin) && Piecewise(length) && Piecewise(trailer) && DeclaredLength(length) == Some(|body|)
    ensures FrameOf(data) == Frame(begin + length + body + trailer, rest)
  {
    hide Piecewise, DeclaredLength, NextField;
    assert data == begin + (length + (body + (trailer + rest)));
    NextFieldMeans(data, begin, length + (body + (trailer + rest)));
    NextFieldMeans(length + (body + (trailer + rest)), length, body + (trailer + rest));
    NextFieldMeans(trailer + rest, trailer, rest);
    assert (body + (trailer + rest))[|body|..] == trailer + rest && (body + (trailer + rest))[..|body|] == body;
  }

  /** A buffered reader over bytes not read yet. */
  class Reader {
    var data: string

    constructor (data: string)
      ensures this.data == data
    {
      this.data := data;
    }

    method ReadBytes() returns (line: Option<string>)
      modifies this
      ensures NextField(old(data)).None? ==> line == None && data == ""
      ensures NextField(old(data)).Some? ==>
          line == Some(NextField(old(data)).value.0) && data == NextField(old(data)).value.1
    {
      var i := 0;
      while i < |data| && data[i] != SOH
        invariant 0 <= i <= |data| && data == old(data) && forall k :: 0 <= k < i ==> data[k] != SOH
      {
        i := i + 1;
      }
      if i == |data| {
        data := "";
        return None;
      }
      IndexAt(data, SOH, i);
      line := Some(data[..i + 1]);
      data := data[i + 1..];
    }

    /** One complete message, delimited by its declared BodyLength. */
    method ReadFrame() returns (r: Read)
      modifies this
      ensures r == FrameOf(old(data)) && (r.Frame? ==> data == r.rest)
    {
      var begin := ReadBytes();
      if begin.None? {
        return Eof;
      }
      var length := ReadBytes();
      if length.None? {
        return Eof;
      }
      var ls := length.value;
      if |ls| < 3 || ls[..2] != "9=" {
        return BadFrame;
      }
      var n := Atoi(ls[2..|ls| - 1]);
      if n.None? || n.value < 0 || n.value > MAX_BODY {
        return BadFrame;
      }
      if |data| < n.value {
        return Eof;
      }
      var body := data[..n.value];
      data := data[n.value..];
      var cs := ReadBytes();
      if cs.None? {
        return Eof;
      }
      return Frame(begin.value + ls + body + cs.value, data);
    }
  }

  lemma NextFieldOf(line: string, rest: string)
    requires SOH !in line
    ensures NextField(line + [SOH] + rest) == Some((line + [SOH], rest))
  {
    var s := line + [SOH] + rest;
    assert s[..|line|] == line && s[..|line| + 1] == line + [SOH] && s[|line| + 1..] == rest;
    IndexAt(s, SOH, |line|);
  }

  lemma DeclaredOf(n: nat)
    requires n <= MAX_BODY
    ensures DeclaredLength("9=" + Itoa(n) + [SOH]) == Some(n)
  {
    AtoiOfItoa(n);
    ItoaPlain(n);
    hide Itoa, Atoi;
    var f := "9=" + Itoa(n) + [SOH];
    assert f[..2] == "9=" && f[2..|f| - 1] == Itoa(n);
  }

  /** Reading from a stream that starts with an encoded message takes exactly that message, whatever
      its values contain and whatever follows. */
  lemma FrameOfEncoded(fields: seq<Field>, more: string)
    requires |Body(fields)| <= MAX_BODY
    ensures FrameOf(Encoded(fields) + more) == Frame(Encoded(fields), more)
  {
    var body, n := Body(fields), |Body(fields)|;
    var sum := ThreeDigits(ByteSum(Header(n) + body) % 256);
    AtoiOfThreeDigits(ByteSum(Header(n) + body) % 256);
    ItoaPlain(n);
    DeclaredOf(n);
    PlainBegin();
    hide Body, ThreeDigits, ByteSum, Itoa, DeclaredLength, FrameOf, Atoi;
    PlainTrailer(sum);
    PlainLength(Itoa(n));
    FrameParts("8=" + BEGIN, "9=" + Itoa(n), body, "10=" + sum, more);
    EncodedParts("8=" + BEGIN, "9=" + Itoa(n), body, sum);
    HeaderParts(n);
  }

  lemma HeaderParts(n: nat)
    ensures Header(n) == "8=" + BEGIN + [SOH] + ("9=" + Itoa(n) + [SOH])
  {
    hide Itoa;
  }

  lemma EncodedParts(h1: string, h2: string, body: string, sum: string)
    ensures h1 + [SOH] + (h2 + [SOH]) + body + "10=" + sum + [SOH]
         == h1 + [SOH] + (h2 + [SOH] + (body + ("10=" + sum + [SOH])))
  {
  }

  lemma PlainTrailer(sum: string)
    requires SOH !in sum
    ensures SOH !in "10=" + sum
  {
  }

  lemma PlainLength(digits: string)
    requires SOH !in digits
    ensures SOH !in "9=" + digits
  {
  }

  lemma PlainBegin()
    ensures SOH !in BEGIN && SOH !in "8=" + BEGIN
  {
  }

  lemma FrameParts(h1: string, h2: string, body: string, cs: string, more: string)
    requires SOH !in h1 && SOH !in h2 && SOH !in cs && DeclaredLength(h2 + [SOH]) == Some(|body|)
    ensures var raw := h1 + [SOH] + (h2 + [SOH] + (body + (cs + [SOH])));
            FrameOf(raw + more) == Frame(raw, more)
  {
    hide DeclaredLength, NextField;
    var tail := body + (cs + [SOH] + more);
    var raw := h1 + [SOH] + (h2 + [SOH] + (body + (cs + [SOH])));
    NextFieldOf(h1, h2 + [SOH] + tail);
    NextFieldOf(h2, tail);
    NextFieldOf(cs, more);
    assert raw + more == h1 + [SOH] + (h2 + [SOH] + tail);
    assert tail[..|body|] == body && tail[|body|..] == cs + [SOH] + more;
    assert raw == h1 + [SOH] + (h2 + [SOH]) + body + (cs + [SOH]);
  }

  function Stream(messages: seq<seq<Field>>): string
    decreases |messages|
  {
    if messages == [] then "" else Encoded(messages[0]) + Stream(messages[1..])
  }

  /** What reading n frames one after the other yields. */
  function ReadAll(data: string, n: nat): Option<(seq<string>, string)> {
    if n == 0 then Some(([], data))
    else
      var r := FrameOf(data);
      if !r.Frame? then None
      else
        var later := ReadAll(r.rest, n - 1);
        if later.None? then None else Some(([r.raw] + later.value.0, later.value.1))
  }

  /** Any concatenation of encoded messages splits back into the originals. */
  lemma {:induction false} StreamSplits(messages: seq<seq<Field>>)
    requires forall i :: 0 <= i < |messages| ==> |Body(messages[i])| <= MAX_BODY
    ensures ReadAll(Stream(messages), |messages|) ==
            Some((seq(|messages|, i requires 0 <= i < |messages| => Encoded(messages[i])), ""))
    decreases |messages|
  {
    hide FrameOf, Encoded, Body;
    var raws := seq(|messages|, i requires 0 <= i < |messages| => Encoded(messages[i]));
    if messages == [] {
      assert raws == [];
    } else {
      var rest := messages[1..];
      StreamSplits(rest);
      FrameOfEncoded(messages[0], Stream(rest));
      assert raws == [Encoded(messages[0])] + seq(|rest|, i requires 0 <= i < |rest| => Encoded(rest[i]));
    }
  }
}
