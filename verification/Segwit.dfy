/**
 Bech32 strings and segwit addresses: what the decoder accepts is exactly what the encoder writes,
 up to letter case, and an address leads back to the program it was made from.
 */
module Segwit {
  import opened Common
  import opened Bech32
  import opened Regroup
  import Digits

  const CHARSET: string := "qpzry9x8gf2tvdw0s3jn54khce6mua7l"

  /** A Go string is a string of bytes. */
  predicate Bytes(s: string) {
    forall i :: 0 <= i < |s| ==> s[i] as int < 256
  }

  // ----- letters -------------------------------------------------------------------------

  function LowerChar(c: char): char {
    if 'A' <= c <= 'Z' then c - 'A' + 'a' else c
  }

  function Lower(s: string): (l: string)
    ensures |l| == |s| && forall i :: 0 <= i < |s| ==> l[i] == LowerChar(s[i])
  {
    seq(|s|, i requires 0 <= i < |s| => LowerChar(s[i]))
  }

  function CharOf(d: Symbol): char
  {
    CHARSET[d]
  }

  /** The alphabet has no separator and no capitals. */
  lemma AlphabetPlain(d: Symbol)
    ensures CharOf(d) != '1' && LowerChar(CharOf(d)) == CharOf(d) && CharOf(d) as int < 256
  {
  }

  /** Nor any letter twice. */
  lemma AlphabetDistinct(d: Symbol, e: Symbol)
    requires CharOf(d) == CharOf(e)
    ensures d == e
  {
    RankOfChar(d);
    RankOfChar(e);
    hide CharOf, RankOf;
  }

  /** Where a letter stands in the alphabet. */
  function RankOf(c: char): int {
    if c == 'q' then 0 else if c == 'p' then 1 else if c == 'z' then 2 else if c == 'r' then 3 else 
    if c == 'y' then 4 else if c == '9' then 5 else if c == 'x' then 6 else if c == '8' then 7 else 
    if c == 'g' then 8 else if c == 'f' then 9 else if c == '2' then 10 else if c == 't' then 11 else 
    if c == 'v' then 12 else if c == 'd' then 13 else if c == 'w' then 14 else if c == '0' then 15 else 
    if c == 's' then 16 else if c == '3' then 17 else if c == 'j' then 18 else if c == 'n' then 19 else 
    if c == '5' then 20 else if c == '4' then 21 else if c == 'k' then 22 else if c == 'h' then 23 else 
    if c == 'c' then 24 else if c == 'e' then 25 else if c == '6' then 26 else if c == 'm' then 27 else 
    if c == 'u' then 28 else if c == 'a' then 29 else if c == '7' then 30 else if c == 'l' then 31 else 32
  }

  lemma RankOfChar(d: Symbol)
    ensures RankOf(CharOf(d)) == d
  {
    hide CharOf, RankOf;
    if d < 8 { Rank0(d); } else if d < 16 { Rank8(d); } else if d < 24 { Rank16(d); } else { Rank24(d); }
  }

  lemma Rank0(d: Symbol)
    requires d < 8
    ensures RankOf(CharOf(d)) == d
  {
  }

  lemma Rank8(d: Symbol)
    requires 8 <= d < 16
    ensures RankOf(CharOf(d)) == d
  {
  }

  lemma Rank16(d: Symbol)
    requires 16 <= d < 24
    ensures RankOf(CharOf(d)) == d
  {
  }

  lemma Rank24(d: Symbol)
    requires 24 <= d
    ensures RankOf(CharOf(d)) == d
  {
  }

  // ----- the encoder ---------------------------------------------------------------------

  function Written(data: seq<Symbol>): (s: string)
    ensures |s| == |data| && forall i :: 0 <= i < |data| ==> s[i] == CharOf(data[i])
  {
    seq(|data|, i requires 0 <= i < |data| => CharOf(data[i]))
  }

  /** The prefix's high bits, a zero, and its low bits. */
  function Expand(hrp: string): seq<Symbol>
    requires Bytes(hrp)
  {
    seq(|hrp|, i requires 0 <= i < |hrp| => hrp[i] as int / 32) + [0]
        + seq(|hrp|, i requires 0 <= i < |hrp| => hrp[i] as int % 32)
  }

  /** What the expansion is for: every letter of the prefix is there once, five low bits behind the zero
      and the rest in front of it. With the symbols below 32 that leaves one choice. */
  lemma ExpandMeans(hrp: string)
    requires Bytes(hrp)
    ensures |Expand(hrp)| == 2 * |hrp| + 1 && Expand(hrp)[|hrp|] == 0
    ensures forall i :: 0 <= i < |hrp| ==>
              hrp[i] as int == 32 * (Expand(hrp)[i] as int) + (Expand(hrp)[|hrp| + 1 + i] as int)
  {
  }

  ghost function Encode(hrp: string, data: seq<Symbol>): string
    requires Bytes(hrp)
  {
    hrp + "1" + Written(data + Checksum(Expand(hrp) + data))
  }

  method ExpandPrefix(hrp: string) returns (out: seq<Symbol>)
    requires Bytes(hrp)
    ensures out == Expand(hrp)
  {
    out := [];
    for i := 0 to |hrp|
      invariant out == seq(i, k requires 0 <= k < i => hrp[k] as int / 32)
    {
      out := out + [hrp[i] as int / 32];
    }
    ghost var high := out + [0];
    out := out + [0];
    for i := 0 to |hrp|
      invariant out == high + seq(i, k requires 0 <= k < i => hrp[k] as int % 32)
    {
      out := out + [hrp[i] as int % 32];
    }
  }

  method BuildChecksum(hrp: string, data: seq<Symbol>) returns (out: seq<Symbol>)
    requires Bytes(hrp)
    ensures out == Checksum(Expand(hrp) + data)
  {
    hide Expand, SymbolAt;
    var values := ExpandPrefix(hrp);
    values := values + data;
    var chk := Polymod(values + [0, 0, 0, 0, 0, 0]);
    var polymod := Xor(chk, 1);
    out := [];
    for i := 0 to 6
      invariant out == Unpack(polymod)[..i]
    {
      out := out + [SymbolAt(polymod, i)];
    }
  }

  method EncodeText(hrp: string, data: seq<Symbol>) returns (s: string)
    requires Bytes(hrp)
    ensures s == Encode(hrp, data)
  {
    hide Expand, Checksum;
    var sum := BuildChecksum(hrp, data);
    var combined := data + sum;
    s := hrp + "1";
    for i := 0 to |combined|
      invariant s == hrp + "1" + Written(combined[..i])
    {
      assert Written(combined[..i + 1]) == Written(combined[..i]) + [CharOf(combined[i])];
      s := s + [CharOf(combined[i])];
    }
    assert combined[..|combined|] == combined;
  }

  // ----- the decoder ---------------------------------------------------------------------

  /** The last separator, or -1. */
  method LastSeparator(s: string) returns (pos: int)
    ensures -1 <= pos < |s| && (pos >= 0 ==> s[pos] == '1')
    ensures forall i :: pos < i < |s| ==> s[i] != '1'
  {
    pos := |s| - 1;
    while pos >= 0 && s[pos] != '1'
      invariant -1 <= pos < |s| && forall i :: pos < i < |s| ==> s[i] != '1'
    {
      pos := pos - 1;
    }
  }

  method IndexIn(c: char) returns (d: Option<Symbol>)
    ensures d.Some? ==> CharOf(d.value) == c
    ensures d.None? ==> forall e: Symbol :: CharOf(e) != c
  {
    for i := 0 to 32
      invariant forall e: Symbol :: e < i ==> CharOf(e) != c
    {
      if CharOf(i) == c {
        return Some(i);
      }
    }
    return None;
  }

  lemma EncodeShape(l: string, hrp: string, data: seq<Symbol>)
    requires Bytes(hrp) && l == Encode(hrp, data)
    ensures |l| == |hrp| + |data| + 7 && l[..|hrp|] == hrp && l[|hrp|] == '1'
    ensures var all := data + Checksum(Expand(hrp) + data);
            |all| == |data| + 6 && forall i :: 0 <= i < |all| ==> l[|hrp| + 1 + i] == CharOf(all[i])
    ensures forall i :: |hrp| < i < |l| ==> l[i] != '1'
  {
    hide CharOf, Expand, Checksum;
    var all := data + Checksum(Expand(hrp) + data);
    forall i | |hrp| < i < |l| ensures l[i] != '1' {
      AlphabetPlain(all[i - |hrp| - 1]);
    }
  }

  /** A string decodes when it is what the encoder writes for some prefix and data, and then to these. */
  ghost predicate Decodes(l: string, hrp: string, data: seq<Symbol>) {
    hrp != "" && Bytes(hrp) && l == Encode(hrp, data)
  }

  /** The parse of a string at its last separator is the only possible one. */
  lemma ParsedAt(l: string, pos: int, raw: seq<Symbol>, hrp: string, data: seq<Symbol>)
    requires Bytes(l) && 0 <= pos < |l| && l[pos] == '1' && (forall i :: pos < i < |l| ==> l[i] != '1')
    requires |raw| == |l| - pos - 1 && forall i :: 0 <= i < |raw| ==> CharOf(raw[i]) == l[pos + 1 + i]
    ensures Decodes(l, hrp, data) ==>
              && pos == |hrp| && hrp == l[..pos] && |raw| >= 6
              && raw == data + Checksum(Expand(hrp) + data)
  {
    if Decodes(l, hrp, data) {
      EncodeShape(l, hrp, data);
      var all := data + Checksum(Expand(hrp) + data);
      hide CharOf, Expand, Checksum, Encode;
      assert pos == |hrp|;
      forall i | 0 <= i < |raw| ensures raw[i] == all[i] {
        AlphabetDistinct(raw[i], all[i]);
      }
    }
  }

  lemma SplitEnd(raw: seq<Symbol>)
    requires |raw| >= 6
    ensures raw == raw[..|raw| - 6] + raw[|raw| - 6..] && |raw[|raw| - 6..]| == 6
  {
  }

  lemma SplitPrefix(prefix: seq<Symbol>, raw: seq<Symbol>)
    requires |raw| >= 6
    ensures prefix + raw == (prefix + raw[..|raw| - 6]) + raw[|raw| - 6..]
  {
  }

  lemma WrittenAs(l: string, pos: int, raw: seq<Symbol>)
    requires 0 < pos < |l| && l[pos] == '1' && |raw| == |l| - pos - 1
    requires forall i :: 0 <= i < |raw| ==> CharOf(raw[i]) == l[pos + 1 + i]
    ensures l == l[..pos] + "1" + Written(raw)
  {
    hide CharOf;
  }

  /** Accept exactly when the polymod over prefix, data and checksum is one. */
  lemma AcceptedExactly(l: string, pos: int, raw: seq<Symbol>)
    requires Bytes(l) && 0 < pos < |l| && l[pos] == '1' && |raw| == |l| - pos - 1 && |raw| >= 6
    requires forall i :: 0 <= i < |raw| ==> CharOf(raw[i]) == l[pos + 1 + i]
    ensures PolymodFrom(1, Expand(l[..pos]) + raw) == 1 <==>
              raw == raw[..|raw| - 6] + Checksum(Expand(l[..pos]) + raw[..|raw| - 6])
    ensures PolymodFrom(1, Expand(l[..pos]) + raw) == 1 ==> Decodes(l, l[..pos], raw[..|raw| - 6])
  {
    hide CharOf, Checksum, PolymodFrom, Expand, Written;
    var hrp, data, c := l[..pos], raw[..|raw| - 6], raw[|raw| - 6..];
    SplitEnd(raw);
    SplitPrefix(Expand(hrp), raw);
    ChecksumExact(Expand(hrp) + data, c);
    SameEnd(data, c, Checksum(Expand(hrp) + data));
    WrittenAs(l, pos, raw);
  }

  lemma SameEnd(data: seq<Symbol>, c: seq<Symbol>, d: seq<Symbol>)
    ensures data + c == data + d <==> c == d
  {
    if data + c == data + d {
      assert (data + c)[|data|..] == c && (data + d)[|data|..] == d;
    }
  }

  lemma Rejected(l: string, pos: int, raw: seq<Symbol>, hrp: string, data: seq<Symbol>)
    requires Bytes(l) && 0 < pos < |l| && l[pos] == '1' && (forall i :: pos < i < |l| ==> l[i] != '1')
    requires |raw| == |l| - pos - 1 && |raw| >= 6 && forall i :: 0 <= i < |raw| ==> CharOf(raw[i]) == l[pos + 1 + i]
    requires PolymodFrom(1, Expand(l[..pos]) + raw) != 1
    ensures !Decodes(l, hrp, data)
  {
    hide CharOf, PolymodFrom, Checksum, Expand, Encode;
    ParsedAt(l, pos, raw, hrp, data);
    AcceptedExactly(l, pos, raw);
    if Decodes(l, hrp, data) { Unappended(raw, data, Checksum(Expand(hrp) + data)); }
  }

  /** One wrong letter after the separator, in the data or in the checksum, is always noticed: the
      string decodes as nothing at all. */
  lemma OneLetterRejected(hrp: string, data: seq<Symbol>, at: nat, wrong: Symbol, h: string, d: seq<Symbol>)
    requires hrp != "" && Bytes(hrp) && at < |data| + 6
    requires wrong != (data + Checksum(Expand(hrp) + data))[at]
    ensures |hrp| + 1 + at < |Encode(hrp, data)|
    ensures !Decodes(Encode(hrp, data)[|hrp| + 1 + at := CharOf(wrong)], h, d)
  {
    hide CharOf, Checksum, PolymodFrom, Expand, Encode, Decodes;
    var l, all := Encode(hrp, data), data + Checksum(Expand(hrp) + data);
    EncodeShape(l, hrp, data);
    var l', raw := l[|hrp| + 1 + at := CharOf(wrong)], all[at := wrong];
    OneErrorDetected(Expand(hrp) + all[..at], all[at], wrong, all[at + 1..]);
    assert Expand(hrp) + all == Expand(hrp) + all[..at] + [all[at]] + all[at + 1..];
    assert Expand(hrp) + raw == Expand(hrp) + all[..at] + [wrong] + all[at + 1..];
    ChecksumExact(Expand(hrp) + data, Checksum(Expand(hrp) + data));
    assert Expand(hrp) + all == Expand(hrp) + data + Checksum(Expand(hrp) + data);
    AlphabetPlain(wrong);
    EncodeBytes(hrp, data);
    assert l'[..|hrp|] == hrp;
    Rejected(l', |hrp|, raw, h, d);
  }

  lemma EncodeBytes(hrp: string, data: seq<Symbol>)
    requires Bytes(hrp)
    ensures Bytes(Encode(hrp, data))
  {
    hide CharOf, Checksum, Expand;
    var l, all := Encode(hrp, data), data + Checksum(Expand(hrp) + data);
    forall i | |hrp| < i < |l| ensures l[i] as int < 256 {
      AlphabetPlain(all[i - |hrp| - 1]);
    }
  }

  method Decode(s: string) returns (r: Option<(string, seq<Symbol>)>)
    requires Bytes(s)
    ensures r.Some? ==> Decodes(Lower(s), r.value.0, r.value.1)
    ensures r.None? ==> forall hrp, data :: !Decodes(Lower(s), hrp, data)
  {
    hide CharOf, Checksum, PolymodFrom, Decodes, Expand;
    var l := Lower(s);
    var pos := LastSeparator(l);
    if pos < 1 || pos + 7 > |l| {
      forall hrp, data ensures !Decodes(l, hrp, data) {
        TooShort(l, pos, hrp, data);
      }
      return None;
    }
    var hrp := l[..pos];
    var raw: seq<Symbol> := [];
    for i := pos + 1 to |l|
      invariant |raw| == i - pos - 1 && forall k :: 0 <= k < |raw| ==> CharOf(raw[k]) == l[pos + 1 + k]
    {
      var idx := IndexIn(l[i]);
      if idx.None? {
        forall hrp, data ensures !Decodes(l, hrp, data) {
          BadLetter(l, pos, i, hrp, data);
        }
        return None;
      }
      raw := raw + [idx.value];
    }
    var prefix := ExpandPrefix(hrp);
    var chk := Polymod(prefix + raw);
    AcceptedExactly(l, pos, raw);
    if chk != 1 {
      forall hrp, data ensures !Decodes(l, hrp, data) {
        Rejected(l, pos, raw, hrp, data);
      }
      return None;
    }
    return Some((hrp, raw[..|raw| - 6]));
  }

  lemma Unappended(raw: seq<Symbol>, data: seq<Symbol>, c: seq<Symbol>)
    requires raw == data + c && |c| == 6
    ensures raw[..|raw| - 6] == data
  {
  }

  lemma TooShort(l: string, pos: int, hrp: string, data: seq<Symbol>)
    requires -1 <= pos < |l| && (pos >= 0 ==> l[pos] == '1') && (forall i :: pos < i < |l| ==> l[i] != '1')
    requires pos < 1 || pos + 7 > |l|
    ensures !Decodes(l, hrp, data)
  {
    if Decodes(l, hrp, data) { EncodeShape(l, hrp, data); }
  }

  lemma SeparatorAt(l: string, pos: int, hrp: string, data: seq<Symbol>)
    requires 0 <= pos < |l| && l[pos] == '1' && (forall i :: pos < i < |l| ==> l[i] != '1') && Decodes(l, hrp, data)
    ensures pos == |hrp|
  {
    EncodeShape(l, hrp, data);
  }

  lemma LetterAt(l: string, hrp: string, data: seq<Symbol>, at: int) returns (e: Symbol)
    requires Decodes(l, hrp, data) && |hrp| < at < |l|
    ensures CharOf(e) == l[at]
  {
    hide CharOf;
    EncodeShape(l, hrp, data);
    e := (data + Checksum(Expand(hrp) + data))[at - |hrp| - 1];
  }

  lemma BadLetter(l: string, pos: int, at: int, hrp: string, data: seq<Symbol>)
    requires 0 < pos < at < |l| && l[pos] == '1' && (forall i :: pos < i < |l| ==> l[i] != '1')
    requires forall e: Symbol :: CharOf(e) != l[at]
    ensures !Decodes(l, hrp, data)
  {
    hide CharOf, Decodes;
    if Decodes(l, hrp, data) {
      SeparatorAt(l, pos, hrp, data);
      var e := LetterAt(l, hrp, data, at);
    }
  }

  // ----- addresses -----------------------------------------------------------------------

  /** The address of a witness program: its version and its bits in five-bit groups, encoded. */
  ghost predicate IsAddress(addr: string, hrp: string, version: Symbol, program: seq<int>) {
    && hrp != "" && Bytes(hrp)
    && exists groups: seq<Symbol> :: Groups(program, groups) && addr == Encode(hrp, [version] + groups)
  }

  method SegwitAddress(hrp: string, version: Symbol, program: seq<int>) returns (addr: string)
    requires Bytes(hrp) && Digits.InBase(program, 256)
    ensures hrp != "" ==> IsAddress(addr, hrp, version, program)
  {
    hide Groups, Encode;
    var conv := ConvertBits(program);
    GroupsInBase(program, conv);
    var groups: seq<Symbol> := conv;
    addr := EncodeText(hrp, [version] + groups);
  }

  lemma GroupsInBase(program: seq<int>, groups: seq<int>)
    requires Groups(program, groups)
    ensures forall i :: 0 <= i < |groups| ==> 0 <= groups[i] < 32
  {
  }

  /** The program of an address with this prefix, if the string is one. The version is not looked at. */
  method SegwitProgram(hrp: string, addr: string) returns (r: Option<seq<int>>)
    requires Bytes(addr)
    ensures r.Some? ==> exists version :: IsAddress(Lower(addr), hrp, version, r.value)
    ensures r.None? ==> forall version, program :: !IsAddress(Lower(addr), hrp, version, program)
  {
    hide Groups, Encode, Digits.InBase;
    var d := Decode(addr);
    if d.None? {
      forall version, program ensures !IsAddress(Lower(addr), hrp, version, program) {
        NotAnAddress(Lower(addr), hrp, version, program);
      }
      return None;
    }
    var (h, data) := d.value;
    forall version, program, groups: seq<Symbol> | Groups(program, groups)
        && Decodes(Lower(addr), hrp, [version] + groups)
      ensures h == hrp && data == [version] + groups
    {
      DecodesOnce(Lower(addr), h, data, hrp, [version] + groups);
    }
    if h != hrp || |data| < 1 {
      return None;
    }
    SymbolsInBase(data[1..]);
    r := ConvertBits5to8(data[1..]);
    if r.Some? {
      assert data == [data[0]] + data[1..];
      assert IsAddress(Lower(addr), hrp, data[0], r.value);
    }
  }

  lemma AddressDecodes(l: string, hrp: string, version: Symbol, program: seq<int>) returns (groups: seq<Symbol>)
    requires IsAddress(l, hrp, version, program)
    ensures Groups(program, groups) && Decodes(l, hrp, [version] + groups)
  {
    hide Encode, Groups;
    groups :| Groups(program, groups) && l == Encode(hrp, [version] + groups);
  }

  lemma NotAnAddress(l: string, hrp: string, version: Symbol, program: seq<int>)
    requires forall h, data :: !Decodes(l, h, data)
    ensures !IsAddress(l, hrp, version, program)
  {
    hide Decodes, Groups;
    if IsAddress(l, hrp, version, program) {
      var groups := AddressDecodes(l, hrp, version, program);
    }
  }

  lemma SymbolsInBase(data: seq<Symbol>)
    ensures Digits.InBase(data, 32)
  {
  }

  /** A string is the encoding of at most one prefix and data. */
  lemma DecodesOnce(l: string, hrp: string, data: seq<Symbol>, hrp': string, data': seq<Symbol>)
    requires Decodes(l, hrp, data) && Decodes(l, hrp', data')
    ensures hrp == hrp' && data == data'
  {
    EncodeShape(l, hrp, data);
    EncodeShape(l, hrp', data');
    hide CharOf, Expand, Checksum, Encode;
    assert |hrp| == |hrp'|;
    var all, all' := data + Checksum(Expand(hrp) + data), data' + Checksum(Expand(hrp') + data');
    forall i | 0 <= i < |all| ensures all[i] == all'[i] {
      AlphabetDistinct(all[i], all'[i]);
    }
    assert all[..|data|] == data && all'[..|data|] == data';
  }

  /** An address belongs to one program. */
  lemma AddressUnique(addr: string, hrp: string, version: Symbol, program: seq<int>, version': Symbol,
      program': seq<int>)
    requires IsAddress(addr, hrp, version, program) && IsAddress(addr, hrp, version', program')
    ensures version == version' && program == program'
  {
    hide Groups, Encode;
    var groups: seq<Symbol> :| Groups(program, groups) && addr == Encode(hrp, [version] + groups);
    var groups': seq<Symbol> :| Groups(program', groups') && addr == Encode(hrp, [version'] + groups');
    DecodesOnce(addr, hrp, [version] + groups, hrp, [version'] + groups');
    assert ([version] + groups)[1..] == groups && ([version'] + groups')[1..] == groups';
    BytesUnique(program, program', groups);
  }

  /** Encoding keeps a lower-case prefix lower-case throughout. */
  lemma LowerEncode(hrp: string, data: seq<Symbol>)
    requires Bytes(hrp)
    ensures Lower(Encode(hrp, data)) == Lower(hrp) + Encode(hrp, data)[|hrp|..]
  {
    hide Expand, Checksum, CharOf;
    var l, all := Encode(hrp, data), data + Checksum(Expand(hrp) + data);
    forall i | |hrp| <= i < |l| ensures LowerChar(l[i]) == l[i] {
      if i > |hrp| { AlphabetPlain(all[i - |hrp| - 1]); }
    }
    assert Lower(l) == Lower(hrp) + l[|hrp|..];
  }

  /** A lower-case prefix: the address is read back as it is, to the one program it belongs to. */
  lemma LowerAddress(hrp: string, version: Symbol, program: seq<int>, addr: string)
    requires IsAddress(addr, hrp, version, program) && Lower(hrp) == hrp
    ensures Lower(addr) == addr
  {
    hide Groups, Encode, Expand, Checksum;
    var groups := AddressDecodes(addr, hrp, version, program);
    LowerEncode(hrp, [version] + groups);
    assert hrp + addr[|hrp|..] == addr by { PrefixOf(addr, hrp, version, program); }
  }

  /** The round trip: reading the address of a program gives the program back exactly when the
      prefix has no capitals (and is not empty). */
  lemma AddressRoundTrip(hrp: string, version: Symbol, program: seq<int>, addr: string, r: Option<seq<int>>)
    requires IsAddress(addr, hrp, version, program)
    requires r.Some? ==> exists v :: IsAddress(Lower(addr), hrp, v, r.value)
    requires r.None? ==> forall v, p :: !IsAddress(Lower(addr), hrp, v, p)
    ensures r == Some(program) <==> Lower(hrp) == hrp
  {
    hide Groups, Encode, IsAddress;
    PrefixOf(addr, hrp, version, program);
    LowerPrefix(addr, |hrp|);
    if Lower(hrp) == hrp {
      LowerAddress(hrp, version, program, addr);
      var v :| IsAddress(Lower(addr), hrp, v, r.value);
      AddressUnique(addr, hrp, version, program, v, r.value);
    } else if r.Some? {
      var v :| IsAddress(Lower(addr), hrp, v, r.value);
      PrefixOf(Lower(addr), hrp, v, r.value);
    }
  }

  lemma LowerPrefix(s: string, n: nat)
    requires n <= |s|
    ensures Lower(s)[..n] == Lower(s[..n])
  {
  }

  lemma PrefixOf(addr: string, hrp: string, version: Symbol, program: seq<int>)
    requires IsAddress(addr, hrp, version, program)
    ensures |addr| >= |hrp| && addr[..|hrp|] == hrp
  {
    var groups: seq<Symbol> :| Groups(program, groups) && addr == Encode(hrp, [version] + groups);
    EncodeShape(addr, hrp, [version] + groups);
  }
}
