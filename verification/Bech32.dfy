/**
 Bech32 and segwit addresses (bitcoin.go, bitcoin_send.go; BIP-173, sections "Bech32" and "Segwit
 address format"). The checksum is linear over exclusive-or, which is why what the encoder
 appends is exactly what the decoder accepts and why any one wrong symbol is noticed.
 */
module Bech32 {

  /** A five-bit symbol. */
  type Symbol = d: int | 0 <= d < 32

  function Bits(d: Symbol): bv30 {
    d as bv30
  }

  // ----- the accumulator -----------------------------------------------------------------

  function Xor(a: bv30, b: bv30): bv30 {
    a ^ b
  }

  /** The accumulator's top symbol, the rest of it moved up by one symbol, and one bit of the former. */
  function Top(chk: bv30): bv30 {
    chk >> 25
  }

  function MovedUp(chk: bv30): bv30 {
    (chk & 0x1ffffff) << 5
  }

  function Bit(top: bv30, i: nat): bv30
    requires i < 5
  {
    (top >> i) & 1
  }

  /** A generator, if its bit of the top symbol is set. */
  function Tap(bit: bv30, gen: bv30): bv30 {
    if bit == 1 then gen else 0
  }

  /** What the first n generators contribute. */
  function Feedback(top: bv30, n: nat): bv30
    requires n <= 5
  {
    if n == 0 then 0 else Xor(Feedback(top, n - 1), Tap(Bit(top, n - 1), GEN[n - 1]))
  }

  const GEN: seq<bv30> := [0x3b6a57b2, 0x26508e6d, 0x1ea119fa, 0x3d4233dd, 0x2a1462b3]

  function Absorb(chk: bv30, v: bv30): bv30 {
    Xor(Xor(MovedUp(chk), v), Feedback(Top(chk), 5))
  }

  function PolymodFrom(chk: bv30, values: seq<Symbol>): bv30
    decreases |values|
  {
    if values == [] then chk else PolymodFrom(Absorb(chk, Bits(values[0])), values[1..])
  }

  /** The accumulator loop. */
  method Polymod(values: seq<Symbol>) returns (chk: bv30)
    ensures chk == PolymodFrom(1, values)
  {
    hide Xor, MovedUp, Top, Bit, Tap;
    chk := 1;
    for k := 0 to |values|
      invariant PolymodFrom(chk, values[k..]) == PolymodFrom(1, values)
    {
      assert values[k..][1..] == values[k + 1..];
      var top := Top(chk);
      ghost var was := chk;
      chk := Xor(MovedUp(chk), Bits(values[k]));
      ghost var mixed := chk;
      NoFeedback(chk, top);
      for i := 0 to 5
        invariant chk == Xor(mixed, Feedback(top, i))
      {
        FeedbackGrows(mixed, top, i);
        if Bit(top, i) == 1 {
          chk := Xor(chk, GEN[i]);
        }
      }
    }
  }

  lemma NoFeedback(chk: bv30, top: bv30)
    ensures Xor(chk, Feedback(top, 0)) == chk
  {
  }

  lemma FeedbackGrows(mixed: bv30, top: bv30, i: nat)
    requires i < 5
    ensures Xor(mixed, Feedback(top, i + 1)) ==
            if Bit(top, i) == 1 then Xor(Xor(mixed, Feedback(top, i)), GEN[i]) else Xor(mixed, Feedback(top, i))
  {
    hide Bit, Xor;
    var f := Feedback(top, i);
    XorAssociative(mixed, f, GEN[i]);
    XorZero(f);
  }

  lemma XorAssociative(a: bv30, b: bv30, c: bv30)
    ensures Xor(a, Xor(b, c)) == Xor(Xor(a, b), c)
  {
  }

  lemma XorZero(v: bv30)
    ensures Xor(v, 0) == v && Xor(0, v) == v && Xor(v, v) == 0
  {
  }

  lemma XorSwap(p: bv30, q: bv30, f: bv30, g: bv30)
    ensures Xor(Xor(p, q), Xor(f, g)) == Xor(Xor(p, f), Xor(q, g))
  {
    hide Xor;
    XorAssociative(p, q, Xor(f, g));
    XorAssociative(q, f, g);
    XorCommutes(q, f);
    XorAssociative(f, q, g);
    XorAssociative(p, f, Xor(q, g));
  }

  lemma XorCommutes(a: bv30, b: bv30)
    ensures Xor(a, b) == Xor(b, a)
  {
  }

  // ----- linearity -----------------------------------------------------------------------

  lemma TapLinear(x: bv30, y: bv30, gen: bv30)
    requires x <= 1 && y <= 1
    ensures Tap(Xor(x, y), gen) == Xor(Tap(x, gen), Tap(y, gen))
  {
    hide Xor;
    OneBit(x);
    OneBit(y);
    XorZero(x);
    XorZero(y);
    XorZero(gen);
    XorZero(0);
  }

  lemma OneBit(x: bv30)
    requires x <= 1
    ensures x == 0 || x == 1
  {
  }

  lemma BitLinear(a: bv30, b: bv30, i: nat)
    requires i < 5
    ensures Bit(Xor(a, b), i) == Xor(Bit(a, i), Bit(b, i)) && Bit(a, i) <= 1 && Bit(b, i) <= 1
  {
    hide Bit, Xor;
    match i
    case 0 => BitLinear0(a, b);
    case 1 => BitLinear1(a, b);
    case 2 => BitLinear2(a, b);
    case 3 => BitLinear3(a, b);
    case _ => BitLinear4(a, b);
  }

  lemma BitLinear0(a: bv30, b: bv30)
    ensures Bit(Xor(a, b), 0) == Xor(Bit(a, 0), Bit(b, 0)) && Bit(a, 0) <= 1 && Bit(b, 0) <= 1
  {
  }

  lemma BitLinear1(a: bv30, b: bv30)
    ensures Bit(Xor(a, b), 1) == Xor(Bit(a, 1), Bit(b, 1)) && Bit(a, 1) <= 1 && Bit(b, 1) <= 1
  {
  }

  lemma BitLinear2(a: bv30, b: bv30)
    ensures Bit(Xor(a, b), 2) == Xor(Bit(a, 2), Bit(b, 2)) && Bit(a, 2) <= 1 && Bit(b, 2) <= 1
  {
  }

  lemma BitLinear3(a: bv30, b: bv30)
    ensures Bit(Xor(a, b), 3) == Xor(Bit(a, 3), Bit(b, 3)) && Bit(a, 3) <= 1 && Bit(b, 3) <= 1
  {
  }

  lemma BitLinear4(a: bv30, b: bv30)
    ensures Bit(Xor(a, b), 4) == Xor(Bit(a, 4), Bit(b, 4)) && Bit(a, 4) <= 1 && Bit(b, 4) <= 1
  {
  }

  lemma {:induction false} FeedbackLinear(a: bv30, b: bv30, n: nat)
    requires n <= 5
    ensures Feedback(Xor(a, b), n) == Xor(Feedback(a, n), Feedback(b, n))
  {
    hide Bit, Tap;
    if n == 0 {
      XorZero(0);
    } else {
      FeedbackLinear(a, b, n - 1);
      BitLinear(a, b, n - 1);
      TapLinear(Bit(a, n - 1), Bit(b, n - 1), GEN[n - 1]);
      XorSwap(Feedback(a, n - 1), Feedback(b, n - 1), Tap(Bit(a, n - 1), GEN[n - 1]), Tap(Bit(b, n - 1), GEN[n - 1]));
    }
    hide Xor;
  }

  lemma MoveLinear(a: bv30, b: bv30)
    ensures MovedUp(Xor(a, b)) == Xor(MovedUp(a), MovedUp(b)) && Top(Xor(a, b)) == Xor(Top(a), Top(b))
  {
  }

  /** Absorbing is linear in state and symbol together. */
  lemma AbsorbLinear(a: bv30, b: bv30, u: bv30, w: bv30)
    ensures Absorb(Xor(a, b), Xor(u, w)) == Xor(Absorb(a, u), Absorb(b, w))
  {
    hide Xor, MovedUp, Top, Feedback;
    MoveLinear(a, b);
    FeedbackLinear(Top(a), Top(b), 5);
    XorSwap(MovedUp(a), MovedUp(b), u, w);
    XorSwap(Xor(MovedUp(a), u), Xor(MovedUp(b), w), Feedback(Top(a), 5), Feedback(Top(b), 5));
  }

  /** A non-zero difference never dies out. */
  lemma AbsorbInjective(a: bv30)
    requires Absorb(a, 0) == 0
    ensures a == 0
  {
    assert Feedback(Top(a), 5) ==
      Xor(Xor(Xor(Xor(Tap(Bit(Top(a), 0), 0x3b6a57b2), Tap(Bit(Top(a), 1), 0x26508e6d)),
          Tap(Bit(Top(a), 2), 0x1ea119fa)),
              Tap(Bit(Top(a), 3), 0x3d4233dd)), Tap(Bit(Top(a), 4), 0x2a1462b3)) by {
      UnrolledFeedback(Top(a));
    }
    hide Feedback;
  }

  lemma UnrolledFeedback(top: bv30)
    ensures Feedback(top, 5) ==
      Xor(Xor(Xor(Xor(Tap(Bit(top, 0), 0x3b6a57b2), Tap(Bit(top, 1), 0x26508e6d)), Tap(Bit(top, 2), 0x1ea119fa)),
              Tap(Bit(top, 3), 0x3d4233dd)), Tap(Bit(top, 4), 0x2a1462b3))
  {
    hide Xor, Bit, Tap;
    XorZero(Tap(Bit(top, 0), 0x3b6a57b2));
    assert Feedback(top, 1) == Tap(Bit(top, 0), GEN[0]);
    assert Feedback(top, 2) == Xor(Feedback(top, 1), Tap(Bit(top, 1), GEN[1]));
    assert Feedback(top, 3) == Xor(Feedback(top, 2), Tap(Bit(top, 2), GEN[2]));
    assert Feedback(top, 4) == Xor(Feedback(top, 3), Tap(Bit(top, 3), GEN[3]));
  }

  lemma TopOfSmall(a: bv30)
    requires Short(a)
    ensures Top(a) == 0 && MovedUp(a) == Up(a)
  {
  }

  lemma {:induction false} FeedbackOfZero(n: nat)
    requires n <= 5
    ensures Feedback(0, n) == 0
  {
    if n > 0 {
      FeedbackOfZero(n - 1);
      BitLinear(0, 0, n - 1);
      BitOfZero(n - 1);
      XorZero(0);
    }
    hide Xor, Bit;
  }

  lemma BitOfZero(i: nat)
    requires i < 5
    ensures Bit(0, i) == 0
  {
  }

  function Up(a: bv30): bv30 {
    a << 5
  }

  predicate IsSymbol(v: bv30) {
    v < 32
  }

  predicate Short(a: bv30) {
    a < 0x2000000
  }

  /** With fewer than 26 bits in the accumulator a symbol is just shifted in. */
  lemma AbsorbSmall(a: bv30, v: bv30)
    requires Short(a)
    ensures Absorb(a, v) == Xor(Up(a), v)
  {
    TopOfSmall(a);
    FeedbackOfZero(5);
    hide Feedback, Xor, MovedUp, Top, Up, Short;
    XorZero(Xor(Up(a), v));
  }

  lemma {:induction false} PolymodConcat(chk: bv30, a: seq<Symbol>, b: seq<Symbol>)
    ensures PolymodFrom(chk, a + b) == PolymodFrom(PolymodFrom(chk, a), b)
    decreases |a|
  {
    hide Absorb;
    if a == [] {
      assert a + b == b;
    } else {
      assert (a + b)[1..] == a[1..] + b;
      PolymodConcat(Absorb(chk, Bits(a[0])), a[1..], b);
    }
  }

  lemma AfterSymbol(chk: bv30, before: seq<Symbol>, v: Symbol)
    ensures PolymodFrom(chk, before + [v]) == Absorb(PolymodFrom(chk, before), Bits(v))
  {
    hide Absorb;
    PolymodConcat(chk, before, [v]);
    assert [v][1..] == [];
  }

  /** A difference pushed through n symbols. */
  ghost function Pushed(d: bv30, n: nat): bv30
    decreases n
  {
    if n == 0 then d else Pushed(Absorb(d, 0), n - 1)
  }

  /** Two states that differ by d still differ, by d pushed through, after the same symbols. */
  lemma {:induction false} DifferencePropagates(chk: bv30, d: bv30, values: seq<Symbol>)
    ensures PolymodFrom(Xor(chk, d), values) == Xor(PolymodFrom(chk, values), Pushed(d, |values|))
    decreases |values|
  {
    hide Absorb, Xor;
    if values != [] {
      var v := Bits(values[0]);
      AbsorbLinear(chk, d, v, 0);
      XorZero(v);
      DifferencePropagates(Absorb(chk, v), Absorb(d, 0), values[1..]);
    }
  }

  lemma {:induction false} DifferenceSurvives(d: bv30, n: nat)
    requires d != 0
    ensures Pushed(d, n) != 0
    decreases n
  {
    hide Absorb;
    if n > 0 {
      if Absorb(d, 0) == 0 { AbsorbInjective(d); }
      DifferenceSurvives(Absorb(d, 0), n - 1);
    }
  }

  lemma SymbolsDiffer(u: bv30, w: bv30)
    ensures Xor(u, Xor(u, w)) == w && (u != w ==> Xor(u, w) != 0)
  {
  }

  /** Any one wrong symbol changes the checksum, at every position and length. */
  lemma OneErrorDetected(before: seq<Symbol>, right: Symbol, wrong: Symbol, rest: seq<Symbol>)
    requires right != wrong
    ensures PolymodFrom(1, before + [right] + rest) != PolymodFrom(1, before + [wrong] + rest)
  {
    hide Absorb, Xor, PolymodFrom;
    var chk, u, w := PolymodFrom(1, before), Bits(right), Bits(wrong);
    PolymodConcat(1, before + [right], rest);
    PolymodConcat(1, before + [wrong], rest);
    AfterSymbol(1, before, right);
    AfterSymbol(1, before, wrong);
    SymbolsDistinct(right, wrong);
    SymbolsDiffer(u, w);
    AbsorbLinear(chk, 0, u, Xor(u, w));
    XorZero(chk);
    var d := Absorb(0, Xor(u, w));
    AbsorbFromZero(Xor(u, w));
    DifferencePropagates(Absorb(chk, u), d, rest);
    DifferenceSurvives(d, |rest|);
    XorChanges(PolymodFrom(Absorb(chk, u), rest), Pushed(d, |rest|));
  }

  lemma SymbolsDistinct(right: Symbol, wrong: Symbol)
    ensures right != wrong ==> Bits(right) != Bits(wrong)
  {
    SymbolBack(right);
    SymbolBack(wrong);
  }

  lemma SymbolBack(d: Symbol)
    ensures Bits(d) as int == d
  {
    hide Bits;
    if d < 8 { Back0(d); } else if d < 16 { Back8(d); } else if d < 24 { Back16(d); } else { Back24(d); }
  }

  lemma Back0(d: Symbol)
    requires d < 8
    ensures Bits(d) as int == d
  {
    match d case 0 => case 1 => case 2 => case 3 => case 4 => case 5 => case 6 => case _ =>
  }

  lemma Back8(d: Symbol)
    requires 8 <= d < 16
    ensures Bits(d) as int == d
  {
    match d case 8 => case 9 => case 10 => case 11 => case 12 => case 13 => case 14 => case _ =>
  }

  lemma Back16(d: Symbol)
    requires 16 <= d < 24
    ensures Bits(d) as int == d
  {
    match d case 16 => case 17 => case 18 => case 19 => case 20 => case 21 => case 22 => case _ =>
  }

  lemma Back24(d: Symbol)
    requires 24 <= d
    ensures Bits(d) as int == d
  {
    match d case 24 => case 25 => case 26 => case 27 => case 28 => case 29 => case 30 => case _ =>
  }

  lemma SymbolSmall(d: Symbol)
    ensures IsSymbol(Bits(d))
  {
  }

  lemma AbsorbFromZero(v: bv30)
    ensures Absorb(0, v) == v
  {
    AbsorbSmall(0, v);
    hide Absorb;
  }

  lemma XorChanges(x: bv30, d: bv30)
    requires d != 0
    ensures Xor(x, d) != x
  {
  }

  // ----- six checksum symbols ------------------------------------------------------------

  const ZEROS: seq<Symbol> := [0, 0, 0, 0, 0, 0]

  /** The remainder without its last 5 - i symbols, and its symbol i. */
  function High(p: bv30, i: nat): bv30
    requires i < 6
  {
    if i == 0 then p >> 25 else if i == 1 then p >> 20 else if i == 2 then p >> 15
    else if i == 3 then p >> 10 else if i == 4 then p >> 5 else p
  }

  function Field(x: bv30): bv30 {
    x & 31
  }

  function ToSymbol(x: bv30): Symbol
    requires IsSymbol(x)
  {
    x as int
  }

  lemma FieldSmall(x: bv30)
    ensures IsSymbol(Field(x))
  {
  }

  function SymbolAt(p: bv30, i: nat): Symbol
    requires i < 6
  {
    FieldSmall(High(p, i));
    ToSymbol(Field(High(p, i)))
  }

  function Unpack(p: bv30): (c: seq<Symbol>)
    ensures |c| == 6
  {
    seq(6, i requires 0 <= i < 6 => SymbolAt(p, i))
  }

  lemma SymbolValue(x: bv30)
    requires IsSymbol(x)
    ensures Bits(ToSymbol(x)) == x
  {
  }

  /** The higher symbols, moved up, and the next one make the next stage. */
  lemma Stage(p: bv30, i: nat)
    requires 0 < i < 6
    ensures Short(High(p, i - 1)) && Xor(Up(High(p, i - 1)), Field(High(p, i))) == High(p, i)
  {
    if i == 1 {
    } else if i == 2 {
    } else if i == 3 {
    } else if i == 4 {
    } else {
      assert i == 5;
    }
  }

  lemma FirstStage(p: bv30)
    ensures Field(High(p, 0)) == High(p, 0) && High(p, 5) == p
  {
  }

  /** After n of the six symbols the accumulator holds the remainder's first n symbols. */
  lemma {:induction false} PackPrefix(p: bv30, n: nat)
    requires 0 < n <= 6
    ensures PolymodFrom(0, Unpack(p)[..n]) == High(p, n - 1)
  {
    hide Xor, High, Field, ToSymbol, Absorb, Short, Bits, Up, IsSymbol;
    var c := Unpack(p);
    assert c[..n] == c[..n - 1] + [c[n - 1]];
    AfterSymbol(0, c[..n - 1], c[n - 1]);
    FieldSmall(High(p, n - 1));
    SymbolValue(Field(High(p, n - 1)));
    if n == 1 {
      FirstStage(p);
      AbsorbFromZero(Field(High(p, 0)));
      assert c[..0] == [];
    } else {
      PackPrefix(p, n - 1);
      Stage(p, n - 1);
      AbsorbSmall(High(p, n - 2), Field(High(p, n - 1)));
    }
  }

  /** From an empty accumulator, six symbols just pack into it. */
  lemma PackSix(p: bv30)
    ensures PolymodFrom(0, Unpack(p)) == p
  {
    hide High, Absorb;
    PackPrefix(p, 6);
    FirstStage(p);
    assert Unpack(p)[..6] == Unpack(p);
  }

  /** Fits k symbols. */
  predicate Below(a: bv30, k: nat)
    requires k <= 5
  {
    if k == 0 then a < 1 else if k == 1 then a < 32 else if k == 2 then a < 1024 else if k == 3 then a < 32768
    else if k == 4 then a < 1048576 else a < 33554432
  }

  lemma LimitStep(a: bv30, v: bv30, k: nat)
    requires k < 5 && Below(a, k) && IsSymbol(v)
    ensures Below(Xor(Up(a), v), k + 1) && Short(a)
  {
    if k == 0 {
    } else if k == 1 {
    } else if k == 2 {
    } else if k == 3 {
    } else {
      assert k == 4;
    }
  }

  lemma NothingBelow()
    ensures Below(0, 0)
  {
  }

  lemma {:induction false} FewSymbols(c: seq<Symbol>)
    requires |c| <= 5
    ensures Below(PolymodFrom(0, c), |c|)
    decreases |c|
  {
    hide Xor, Absorb, Below, Short, Bits, Up, IsSymbol;
    NothingBelow();
    if c != [] {
      var n := |c| - 1;
      FewSymbols(c[..n]);
      assert c == c[..n] + [c[n]];
      AfterSymbol(0, c[..n], c[n]);
      SymbolSmall(c[n]);
      LimitStep(PolymodFrom(0, c[..n]), Bits(c[n]), n);
      AbsorbSmall(PolymodFrom(0, c[..n]), Bits(c[n]));
    }
  }

  lemma BelowShort(a: bv30, k: nat)
    requires k <= 5 && Below(a, k)
    ensures Short(a)
  {
  }

  lemma LastSymbol(a: bv30, v: bv30, b: bv30, w: bv30)
    requires Short(a) && Short(b) && IsSymbol(v) && IsSymbol(w) && Xor(Up(a), v) == Xor(Up(b), w)
    ensures a == b && v == w
  {
  }

  /** Up to six symbols are determined by what they pack to. */
  lemma {:induction false} PackInjective(c: seq<Symbol>, d: seq<Symbol>)
    requires |c| == |d| <= 6 && PolymodFrom(0, c) == PolymodFrom(0, d)
    ensures c == d
    decreases |c|
  {
    hide Xor, Absorb, Below, Short, Bits, Up, IsSymbol;
    if c != [] {
      var n := |c| - 1;
      assert c == c[..n] + [c[n]] && d == d[..n] + [d[n]];
      var a, b := PolymodFrom(0, c[..n]), PolymodFrom(0, d[..n]);
      AfterSymbol(0, c[..n], c[n]);
      AfterSymbol(0, d[..n], d[n]);
      FewSymbols(c[..n]);
      FewSymbols(d[..n]);
      BelowShort(a, n);
      BelowShort(b, n);
      SymbolSmall(c[n]);
      SymbolSmall(d[n]);
      AbsorbSmall(a, Bits(c[n]));
      AbsorbSmall(b, Bits(d[n]));
      LastSymbol(a, Bits(c[n]), b, Bits(d[n]));
      SymbolsDistinct(c[n], d[n]);
      PackInjective(c[..n], d[..n]);
    }
  }

  /** Symbols absorbed on top of a state: what zeros would give, corrected by what the symbols give
      from an empty accumulator. */
  lemma {:induction false} OverZeros(chk: bv30, z: bv30, c: seq<Symbol>)
    ensures PolymodFrom(Xor(chk, z), c) == Xor(PolymodFrom(chk, seq(|c|, _ => 0)), PolymodFrom(z, c))
    decreases |c|
  {
    hide Xor, Absorb;
    if c != [] {
      var v := Bits(c[0]);
      AbsorbLinear(chk, z, 0, v);
      XorZero(v);
      OverZeros(Absorb(chk, 0), Absorb(z, v), c[1..]);
      var zeros := seq(|c|, _ => 0 as Symbol);
      assert zeros[1..] == seq(|c[1..]|, _ => 0);
      assert Bits(zeros[0]) == 0;
    }
  }

  /** The six symbols that make a valid sequence: there is exactly one choice. */
  ghost function Checksum(values: seq<Symbol>): (c: seq<Symbol>)
    ensures |c| == 6
  {
    Unpack(Xor(PolymodFrom(1, values + ZEROS), 1))
  }

  lemma ChecksumExact(values: seq<Symbol>, c: seq<Symbol>)
    requires |c| == 6
    ensures PolymodFrom(1, values + c) == 1 <==> c == Checksum(values)
  {
    hide Xor, Absorb, PolymodFrom, Unpack;
    var s, p0 := PolymodFrom(1, values), PolymodFrom(1, values + ZEROS);
    PolymodConcat(1, values, ZEROS);
    PolymodConcat(1, values, c);
    OverZeros(s, 0, c);
    XorZero(s);
    assert seq(|c|, _ => 0) == ZEROS;
    PackSix(Xor(p0, 1));
    Solve(p0, PolymodFrom(0, c));
    if PolymodFrom(1, values + c) == 1 { PackInjective(c, Checksum(values)); }
  }

  lemma Solve(p0: bv30, q: bv30)
    ensures Xor(p0, q) == 1 <==> q == Xor(p0, 1)
  {
    hide Xor;
    XorAssociative(p0, p0, q);
    XorAssociative(p0, p0, 1);
    XorZero(p0);
    XorZero(q);
    XorZero(1);
  }
}
