/**
 Published strings that the encoder must write: two from BIP-173, section "Test vectors", and the
 address that bitcoin_test.go expects. They fix what the laws of the other modules leave open: the
 alphabet, the order of the prefix's bits and the generators of the checksum.
 */
module AddressVectors {
  import opened Bech32
  import opened Regroup
  import opened Segwit
  import opened Digits

  // ----- following the accumulator --------------------------------------------------------

  function Mix(m: bv30, d: bv30, a: bv30, b: bv30, c: bv30, e: bv30, f: bv30): bv30 {
    Xor(Xor(m, d), Xor(Xor(Xor(Xor(a, b), c), e), f))
  }

  /** One step of the accumulator, in one expression. */
  function Mixed(chk: bv30, d: bv30): bv30 {
    Mix((chk & 0x1ffffff) << 5, d,
        if (chk >> 25) & 1 == 1 then 0x3b6a57b2 else 0, if (chk >> 26) & 1 == 1 then 0x26508e6d else 0,
        if (chk >> 27) & 1 == 1 then 0x1ea119fa else 0, if (chk >> 28) & 1 == 1 then 0x3d4233dd else 0,
        if (chk >> 29) & 1 == 1 then 0x2a1462b3 else 0)
  }

  lemma TopBits(chk: bv30)
    ensures Bit(Top(chk), 0) == (chk >> 25) & 1 && Bit(Top(chk), 1) == (chk >> 26) & 1
    ensures Bit(Top(chk), 2) == (chk >> 27) & 1 && Bit(Top(chk), 3) == (chk >> 28) & 1
    ensures Bit(Top(chk), 4) == (chk >> 29) & 1
  {
  }

  lemma MixedIsAbsorb(chk: bv30, d: bv30)
    ensures Mixed(chk, d) == Absorb(chk, d)
  {
    UnrolledFeedback(Top(chk));
    TopBits(chk);
    hide Feedback, Bit, Top, Xor;
  }

  lemma Fed(front: seq<Symbol>, chk: bv30, d: Symbol, next: bv30)
    requires PolymodFrom(1, front) == chk && Mixed(chk, Bits(d)) == next
    ensures PolymodFrom(1, front + [d]) == next
  {
    MixedIsAbsorb(chk, Bits(d));
    hide Mixed, Bits, Absorb, PolymodFrom;
    AfterSymbol(1, front, d);
  }

  /** Up to eight symbols more take the accumulator through these states. */
  lemma Through(front: seq<Symbol>, v: seq<Symbol>, c: seq<bv30>)
    requires |v| <= 8 && |c| == |v| + 1 && PolymodFrom(1, front) == c[0]
    requires 0 < |v| ==> Mixed(c[0], Bits(v[0])) == c[1]
    requires 1 < |v| ==> Mixed(c[1], Bits(v[1])) == c[2]
    requires 2 < |v| ==> Mixed(c[2], Bits(v[2])) == c[3]
    requires 3 < |v| ==> Mixed(c[3], Bits(v[3])) == c[4]
    requires 4 < |v| ==> Mixed(c[4], Bits(v[4])) == c[5]
    requires 5 < |v| ==> Mixed(c[5], Bits(v[5])) == c[6]
    requires 6 < |v| ==> Mixed(c[6], Bits(v[6])) == c[7]
    requires 7 < |v| ==> Mixed(c[7], Bits(v[7])) == c[8]
    ensures PolymodFrom(1, front + v) == c[|v|]
  {
    hide Mixed, Bits, PolymodFrom;
    assert front + v[..0] == front && v[..|v|] == v;
    for i := 0 to |v|
      invariant PolymodFrom(1, front + v[..i]) == c[i]
    {
      assert front + v[..i + 1] == front + v[..i] + [v[i]];
      Fed(front + v[..i], c[i], v[i], c[i + 1]);
    }
  }

  lemma Started()
    ensures PolymodFrom(1, []) == 1
  {
  }

  /** Six symbols that make the polymod 1 are the checksum. */
  lemma EncodedAs(hrp: string, data: seq<Symbol>, sum: seq<Symbol>)
    requires Bytes(hrp) && |sum| == 6 && PolymodFrom(1, Expand(hrp) + data + sum) == 1
    ensures Encode(hrp, data) == hrp + "1" + Written(data) + Written(sum)
  {
    hide Expand, Checksum, PolymodFrom, CharOf;
    ChecksumExact(Expand(hrp) + data, sum);
    assert Written(data + sum) == Written(data) + Written(sum);
  }

  lemma Letters(d: seq<Symbol>, text: string)
    requires |d| == |text| && forall i :: 0 <= i < |d| ==> CHARSET[d[i]] == text[i]
    ensures Written(d) == text
  {
  }

  lemma WrittenConcat(a: seq<Symbol>, b: seq<Symbol>)
    ensures Written(a + b) == Written(a) + Written(b)
  {
    hide CharOf;
  }

  // ----- BIP-173: the shortest valid string --------------------------------------------------

  lemma Empty0(front: seq<Symbol>)
    requires PolymodFrom(1, front) == 0x1
    ensures PolymodFrom(1, front + [3, 0, 1]) == 0x8c01
  {
    hide PolymodFrom;
    Through(front, [3, 0, 1],
            [0x1, 0x23, 0x460, 0x8c01]);
  }

  lemma Empty1(front: seq<Symbol>)
    requires PolymodFrom(1, front) == 0x8c01
    ensures PolymodFrom(1, front + [10, 28, 25, 31, 20, 31]) == 0x1
  {
    hide PolymodFrom;
    Through(front, [10, 28, 25, 31, 20, 31],
            [0x8c01, 0x11802a, 0x230055c, 0x3d6afc2b, 0x2f84386, 0x24622766, 0x1]);
  }

  lemma KnownEmpty()
    ensures Encode("a", []) == "a1" + "2uel5l"
  {
    Started();
    Empty0([]);
    Empty1([] + [3, 0, 1]);
    assert Written([]) == "" && Written([10, 28, 25, 31, 20, 31]) == "2uel5l";
    hide PolymodFrom, Encode, Written;
    assert Expand("a") + [] == [] + [3, 0, 1];
    EncodedAs("a", [], [10, 28, 25, 31, 20, 31]);
    assert "a" + "1" + "" + "2uel5l" == "a1" + "2uel5l";
  }

  // ----- BIP-173: every symbol, so every letter of the alphabet -----------------------------------

  const A: seq<Symbol> := [0, 1, 2, 3, 4, 5, 6, 7]
  const B: seq<Symbol> := [8, 9, 10, 11, 12, 13, 14, 15]
  const C: seq<Symbol> := [16, 17, 18, 19, 20, 21, 22, 23]
  const D: seq<Symbol> := [24, 25, 26, 27, 28, 29, 30, 31]

  lemma Alphabet0(front: seq<Symbol>)
    requires PolymodFrom(1, front) == 0x1
    ensures PolymodFrom(1, front + [3, 3, 3, 3, 3, 3, 0, 1]) == 0x3dc7154c
  {
    hide PolymodFrom;
    Through(front, [3, 3, 3, 3, 3, 3, 0, 1],
            [0x1, 0x23, 0x463, 0x8c63, 0x118c63, 0x2318c63, 0x3d5bdbd1, 0x4dcbcd9, 0x3dc7154c]);
  }

  lemma Alphabet1(front: seq<Symbol>)
    requires PolymodFrom(1, front) == 0x3dc7154c
    ensures PolymodFrom(1, front + [2, 3, 4, 5, 6]) == 0x3be80e6a
  {
    hide PolymodFrom;
    Through(front, [2, 3, 4, 5, 6],
            [0x3dc7154c, 0x17456f7b, 0x8d50561, 0x401b5de, 0x266635a8, 0x3be80e6a]);
  }

  lemma Alphabet2(front: seq<Symbol>)
    requires PolymodFrom(1, front) == 0x3be80e6a
    ensures PolymodFrom(1, front + A) == 0x11e88668
  {
    hide PolymodFrom;
    Through(front, A,
            [0x3be80e6a, 0xf9cd266, 0x30018ce4, 0x1767cdec, 0xc815781, 0x28db67b3, 0x2fd98d2c, 0x12be0710,
             0x11e88668]);
  }

  lemma Alphabet3(front: seq<Symbol>)
    requires PolymodFrom(1, front) == 0x11e88668
    ensures PolymodFrom(1, front + B) == 0x31223f8a
  {
    hide PolymodFrom;
    Through(front, B,
            [0x11e88668, 0x52fed5, 0xa5fdaa9, 0x2e301b62, 0x2f8ccedd, 0x1816793a, 0x212c0d6a, 0xf95cffd, 0x31223f8a]);
  }

  lemma Alphabet4(front: seq<Symbol>)
    requires PolymodFrom(1, front) == 0x31223f8a
    ensures PolymodFrom(1, front + C) == 0x297c48e0
  {
    hide PolymodFrom;
    Through(front, C,
            [0x31223f8a, 0x3311a03e, 0xe08010d, 0x29be197, 0x28166541, 0x3679d37d, 0x556e704, 0xc8c6efb, 0x297c48e0]);
  }

  lemma Alphabet5(front: seq<Symbol>)
    requires PolymodFrom(1, front) == 0x297c48e0
    ensures PolymodFrom(1, front + D) == 0x1a0d3656
  {
    hide PolymodFrom;
    Through(front, D,
            [0x297c48e0, 0x1b3c6751, 0x3f0597ac, 0x347f64d1, 0x3eea4538, 0x9853657, 0x2e07d307, 0x2975c268,
             0x1a0d3656]);
  }

  lemma Alphabet6(front: seq<Symbol>)
    requires PolymodFrom(1, front) == 0x1a0d3656
    ensures PolymodFrom(1, front + [27, 0, 0, 0, 6, 14]) == 0x1
  {
    hide PolymodFrom;
    Through(front, [27, 0, 0, 0, 6, 14],
            [0x1a0d3656, 0x192fb74e, 0x615c3e7, 0x1f82a53f, 0xe8d5418, 0x12314323, 0x1]);
  }

  lemma AlphabetLetters()
    ensures Written(A + B + C + D) == "qpzry9x8" + "gf2tvdw0" + "s3jn54kh" + "ce6mua7l"
  {
    Letters(A, "qpzry9x8");
    Letters(B, "gf2tvdw0");
    Letters(C, "s3jn54kh");
    Letters(D, "ce6mua7l");
    hide Written, A, B, C, D;
    WrittenConcat(A, B);
    WrittenConcat(A + B, C);
    WrittenConcat(A + B + C, D);
  }

  lemma AlphabetSums()
    ensures PolymodFrom(1, Expand("abcdef") + (A + B + C + D) + [27, 0, 0, 0, 6, 14]) == 1
  {
    Started();
    assert Expand("abcdef") == [] + [3, 3, 3, 3, 3, 3, 0, 1] + [2, 3, 4, 5, 6];
    hide PolymodFrom, Expand;
    var x := Expand("abcdef");
    Alphabet0([]);
    Alphabet1([] + [3, 3, 3, 3, 3, 3, 0, 1]);
    Alphabet2(x);
    Alphabet3(x + A);
    Alphabet4(x + A + B);
    Alphabet5(x + A + B + C);
    FourParts(x, A, B, C, D);
    Alphabet6(x + A + B + C + D);
  }

  lemma FourParts(x: seq<Symbol>, a: seq<Symbol>, b: seq<Symbol>, c: seq<Symbol>, d: seq<Symbol>)
    ensures x + (a + b + c + d) == x + a + b + c + d
  {
  }

  lemma KnownAlphabet()
    ensures Encode("abcdef", A + B + C + D) ==
            "abcdef" + "1" + ("qpzry9x8" + "gf2tvdw0" + "s3jn54kh" + "ce6mua7l") + "mqqqxw"
  {
    AlphabetSums();
    AlphabetLetters();
    Letters([27, 0, 0, 0, 6, 14], "mqqqxw");
    hide PolymodFrom, Encode, Written, Expand;
    EncodedAs("abcdef", A + B + C + D, [27, 0, 0, 0, 6, 14]);
  }

  // ----- bitcoin_test.go: the version 0 address of one program ------------------------------------

  const P0: seq<int> := [0x75, 0x1e, 0x76, 0xe8, 0x19]
  const P1: seq<int> := [0x91, 0x96, 0xd4, 0x54, 0x94]
  const P2: seq<int> := [0x1c, 0x45, 0xd1, 0xb3, 0xa3]
  const P3: seq<int> := [0x23, 0xf1, 0x43, 0x3b, 0xd6]
  const G0: seq<Symbol> := [14, 20, 15, 7, 13, 26, 0, 25]
  const G1: seq<Symbol> := [18, 6, 11, 13, 8, 21, 4, 20]
  const G2: seq<Symbol> := [3, 17, 2, 29, 3, 12, 29, 3]
  const G3: seq<Symbol> := [4, 15, 24, 20, 6, 14, 30, 22]

  lemma Address0(front: seq<Symbol>)
    requires PolymodFrom(1, front) == 0x1
    ensures PolymodFrom(1, front + [3, 3, 0, 2, 3]) == 0x2318043
  {
    hide PolymodFrom;
    Through(front, [3, 3, 0, 2, 3],
            [0x1, 0x23, 0x463, 0x8c60, 0x118c02, 0x2318043]);
  }

  lemma Address1(front: seq<Symbol>)
    requires PolymodFrom(1, front) == 0x2318043
    ensures PolymodFrom(1, front + [0]) == 0x3d5a5fd2
  {
    hide PolymodFrom;
    Through(front, [0],
            [0x2318043, 0x3d5a5fd2]);
  }

  lemma Address2(front: seq<Symbol>)
    requires PolymodFrom(1, front) == 0x3d5a5fd2
    ensures PolymodFrom(1, front + G0) == 0x2b1bcbce
  {
    hide PolymodFrom;
    Through(front, G0,
            [0x3d5a5fd2, 0x4ec3cb7, 0x3bd71899, 0x87e0c09, 0x116098dd, 0x11512870, 0x17673dc7, 0xc9f52e2,
             0x2b1bcbce]);
  }

  lemma Address3(front: seq<Symbol>)
    requires PolymodFrom(1, front) == 0x2b1bcbce
    ensures PolymodFrom(1, front + G1) == 0x23a1ff4b
  {
    hide PolymodFrom;
    Through(front, G1,
            [0x2b1bcbce, 0x2ca65529, 0x62f5002, 0x18d0d994, 0x39f818aa, 0x36f45ddc, 0x14e73324, 0x7f4d934,
             0x23a1ff4b]);
  }

  lemma Address4(front: seq<Symbol>)
    requires PolymodFrom(1, front) == 0x23a1ff4b
    ensures PolymodFrom(1, front + G2) == 0x2a387174
  {
    hide PolymodFrom;
    Through(front, G2,
            [0x23a1ff4b, 0x2541dc62, 0x247f608f, 0x3a8fd3c, 0xe75f02f, 0xd25c5c6, 0x1c492f5b, 0xc964f37, 0x2a387174]);
  }

  lemma Address5(front: seq<Symbol>)
    requires PolymodFrom(1, front) == 0x2a387174
    ensures PolymodFrom(1, front + G3) == 0x979c4ed
  {
    hide PolymodFrom;
    Through(front, G3,
            [0x2a387174, 0x8d1027f, 0x4815615, 0x367a4cd5, 0x5251205, 0x2f2cecb, 0x25338edc, 0x2a353740, 0x979c4ed]);
  }

  lemma Address6(front: seq<Symbol>)
    requires PolymodFrom(1, front) == 0x979c4ed
    ensures PolymodFrom(1, front + [12, 7, 9, 17, 11, 21]) == 0x1
  {
    hide PolymodFrom;
    Through(front, [12, 7, 9, 17, 11, 21],
            [0x979c4ed, 0x31998456, 0x2466dba9, 0x9f99f7, 0x13f33ef1, 0x384fba44, 0x1]);
  }

  /** Five bytes are eight groups. */
  lemma FortyBits(bytes: seq<int>, groups: seq<int>, b: seq<int>, g: seq<int>)
    requires Value(bytes, 256) == Value(groups, 32) && |b| == 5 && |g| == 8
    requires b[4] + 256 * (b[3] + 256 * (b[2] + 256 * (b[1] + 256 * b[0]))) ==
             g[7] + 32 * (g[6] + 32 * (g[5] + 32 * (g[4] + 32 * (g[3] + 32 * (g[2] + 32 * (g[1] + 32 * g[0]))))))
    ensures Value(bytes + b, 256) == Value(groups + g, 32)
  {
    FiveBytes(bytes, b);
    FourGroups(groups, g[..4]);
    FourGroups(groups + g[..4], g[4..]);
    hide Value;
    assert groups + g == groups + g[..4] + g[4..];
  }

  lemma FiveBytes(bytes: seq<int>, b: seq<int>)
    requires |b| == 5
    ensures Value(bytes + b, 256) ==
            0x100_0000_0000 * Value(bytes, 256) + (b[4] + 256 * (b[3] + 256 * (b[2] + 256 * (b[1] + 256 * b[0]))))
  {
    hide Value;
    ValueStep(bytes, 256, b[0]);
    ValueStep(bytes + [b[0]], 256, b[1]);
    ValueStep(bytes + [b[0]] + [b[1]], 256, b[2]);
    ValueStep(bytes + [b[0]] + [b[1]] + [b[2]], 256, b[3]);
    ValueStep(bytes + [b[0]] + [b[1]] + [b[2]] + [b[3]], 256, b[4]);
    assert bytes + b == bytes + [b[0]] + [b[1]] + [b[2]] + [b[3]] + [b[4]];
  }

  lemma FourGroups(groups: seq<int>, g: seq<int>)
    requires |g| == 4
    ensures Value(groups + g, 32) == 0x10_0000 * Value(groups, 32) + (g[3] + 32 * (g[2] + 32 * (g[1] + 32 * g[0])))
  {
    hide Value;
    ValueStep(groups, 32, g[0]);
    ValueStep(groups + [g[0]], 32, g[1]);
    ValueStep(groups + [g[0]] + [g[1]], 32, g[2]);
    ValueStep(groups + [g[0]] + [g[1]] + [g[2]], 32, g[3]);
    assert groups + g == groups + [g[0]] + [g[1]] + [g[2]] + [g[3]];
  }

  lemma SameValue()
    ensures Value(P0 + P1 + P2 + P3, 256) == Value(G0 + G1 + G2 + G3, 32)
  {
    assert Value([], 256) == Value([], 32);
    hide Value;
    assert [] + P0 == P0 && [] + G0 == G0;
    FortyBits([], [], P0, G0);
    FortyBits(P0, G0, P1, G1);
    FortyBits(P0 + P1, G0 + G1, P2, G2);
    FortyBits(P0 + P1 + P2, G0 + G1 + G2, P3, G3);
  }

  lemma ProgramGroups()
    ensures Groups(P0 + P1 + P2 + P3, G0 + G1 + G2 + G3)
  {
    SameValue();
    hide Value;
    assert Power(2, 0) == 1;
    assert InBase(P0, 256) && InBase(P1, 256) && InBase(P2, 256) && InBase(P3, 256);
  }

  lemma AddressLetters()
    ensures Written([0] + (G0 + G1 + G2 + G3)) == "q" + ("w508d6qe" + "jxtdg4y5" + "r3zarvar" + "y0c5xw7k")
  {
    Letters([0], "q");
    Letters(G0, "w508d6qe");
    Letters(G1, "jxtdg4y5");
    Letters(G2, "r3zarvar");
    Letters(G3, "y0c5xw7k");
    hide Written, G0, G1, G2, G3;
    WrittenConcat(G0, G1);
    WrittenConcat(G0 + G1, G2);
    WrittenConcat(G0 + G1 + G2, G3);
    WrittenConcat([0], G0 + G1 + G2 + G3);
  }

  lemma FiveParts(x: seq<Symbol>, v: seq<Symbol>, a: seq<Symbol>, b: seq<Symbol>, c: seq<Symbol>, d: seq<Symbol>)
    ensures x + (v + (a + b + c + d)) == x + v + a + b + c + d
  {
    FourParts(x + v, a, b, c, d);
  }

  lemma AddressSums()
    ensures PolymodFrom(1, Expand("bc") + ([0] + (G0 + G1 + G2 + G3)) + [12, 7, 9, 17, 11, 21]) == 1
  {
    Started();
    assert Expand("bc") == [] + [3, 3, 0, 2, 3];
    hide PolymodFrom, Expand;
    var x := Expand("bc");
    Address0([]);
    Address1(x);
    Address2(x + [0]);
    Address3(x + [0] + G0);
    Address4(x + [0] + G0 + G1);
    Address5(x + [0] + G0 + G1 + G2);
    FiveParts(x, [0], G0, G1, G2, G3);
    Address6(x + [0] + G0 + G1 + G2 + G3);
  }

  /** The version 0 address of 751e76e8199196d454941c45d1b3a323f1433bd6 on the main network. */
  lemma KnownAddress()
    ensures IsAddress("bc" + "1" + ("q" + ("w508d6qe" + "jxtdg4y5" + "r3zarvar" + "y0c5xw7k")) + "v8f3t4",
                      "bc", 0, P0 + P1 + P2 + P3)
  {
    AddressSums();
    AddressLetters();
    ProgramGroups();
    Letters([12, 7, 9, 17, 11, 21], "v8f3t4");
    hide PolymodFrom, Encode, Written, Expand, Groups;
    EncodedAs("bc", [0] + (G0 + G1 + G2 + G3), [12, 7, 9, 17, 11, 21]);
  }
}
