/** The fixed code as section 3.2.6 of RFC 1951 defines it, beside the one that
    `C-Deflate/src/deflate.c` writes and `C-Deflate/src/inflate.c` reads: exactly which streams are
    the standard's. */
module DeflateStandard {
  import opened Options
  import opened Arithmetic
  import opened DeflateBits
  import opened DeflateTables
  import opened HuffmanCodes
  import opened Lz77
  import opened DeflateFormat
  import opened DeflateEncoding
  import opened DeflateHeader
  import opened DeflateFixed
  import opened DeflatePlan
  import opened DeflateEmit
  import opened DeflateDynamic
  import opened DeflateStream
  import opened DeflateRoundTrip
  import opened DeflateLanguage

  // ---------------------------------------------------------------- the standard's bits

  function StandardSymbol(i: nat): Bits
    requires i < NUM_LITERALS
  {
    Msb(StandardCode(i), FixedLit()[i])
  }

  function StandardToken(t: Token): Bits {
    match t
    case Literal(b) => StandardSymbol(b)
    case Match(length, distance) =>
      var lc, dc := LengthCode(length), DistanceCode(distance);
      if length < LengthBase(lc) || distance < DistBase(dc) then [] else
      (StandardSymbol(257 + lc) + Lsb(length - LengthBase(lc), LengthExtra(lc))) +
      (Msb(dc, 5) + Lsb(distance - DistBase(dc), DistExtra(dc)))
  }

  function StandardTokens(ts: seq<Token>): Bits {
    if ts == [] then [] else StandardToken(ts[0]) + StandardTokens(ts[1..])
  }

  /** A final block of type 1. */
  function StandardBlock(ts: seq<Token>): Bits {
    [true, true, false] + (StandardTokens(ts) + StandardSymbol(END_OF_BLOCK))
  }

  // ---------------------------------------------------------------- where the two differ

  /** A literal that takes nine bits. */
  predicate Upper(t: Token) {
    t.Literal? && 144 <= t.b
  }

  lemma {:induction false} MsbApart(a: nat, b: nat, n: nat)
    requires a < Pow2(n) && b < Pow2(n) && a != b
    ensures Msb(a, n) != Msb(b, n)
  {
    if n > 0 {
      if a % 2 == b % 2 {
        MsbApart(a / 2, b / 2, n - 1);
        assert Msb(a, n)[..n - 1] == Msb(a / 2, n - 1) && Msb(b, n)[..n - 1] == Msb(b / 2, n - 1);
      } else {
        assert Msb(a, n)[n - 1] != Msb(b, n)[n - 1];
      }
    }
  }

  lemma NineBits()
    ensures Pow2(9) == 512
  {
    assert Pow2(5) == 32;
  }

  lemma SymbolStandard(i: nat)
    requires i < NUM_LITERALS
    ensures |FixedLit()| == NUM_LITERALS && |SymbolBits(FixedLit(), i)| == |StandardSymbol(i)|
    ensures SymbolBits(FixedLit(), i) == StandardSymbol(i) <==> !(144 <= i < 256)
  {
    hide Code, Msb, Pow2;
    FixedCodes(i);
    if 144 <= i < 256 {
      NineBits();
      MsbApart(Code(FixedLit(), i), StandardCode(i), 9);
    }
  }

  lemma DistanceStandard(dc: nat)
    requires dc < NUM_DISTANCES
    ensures LiteralBits(FixedDist(), dc) == Msb(dc, 5)
  {
    FixedDistCodes(dc);
    hide Msb, Code;
  }

  lemma TokenStandard(t: Token)
    requires Sized(t)
    ensures |TokenBits(t, FixedLit(), FixedDist())| == |StandardToken(t)|
    ensures TokenBits(t, FixedLit(), FixedDist()) == StandardToken(t) <==> !Upper(t)
  {
    hide SymbolBits, StandardSymbol, LengthCode, DistanceCode, LengthBase, DistBase, LengthExtra, DistExtra, Pow2,
         Lsb, Msb;
    match t
    case Literal(b) => SymbolStandard(b);
    case Match(length, distance) =>
      LengthCovered(length);
      DistanceCovered(distance);
      SymbolStandard(257 + LengthCode(length));
      DistanceStandard(DistanceCode(distance));
  }

  lemma PartsEqual(a: Bits, a': Bits, b: Bits, b': Bits)
    requires |a| == |a'|
    ensures a + b == a' + b' <==> a == a' && b == b'
  {
    if a + b == a' + b' {
      assert a == (a + b)[..|a|] && a' == (a' + b')[..|a'|];
      assert b == (a + b)[|a|..] && b' == (a' + b')[|a'|..];
    }
  }

  lemma {:induction false} TokensStandard(ts: seq<Token>)
    requires forall i :: 0 <= i < |ts| ==> Sized(ts[i])
    ensures |TokensBits(ts, FixedLit(), FixedDist())| == |StandardTokens(ts)|
    ensures TokensBits(ts, FixedLit(), FixedDist()) == StandardTokens(ts) <==>
      forall i :: 0 <= i < |ts| ==> !Upper(ts[i])
  {
    hide TokenBits, StandardToken, Upper, FixedLit, FixedDist, Sized;
    if ts != [] {
      TokenStandard(ts[0]);
      TokensStandard(ts[1..]);
      PartsEqual(TokenBits(ts[0], FixedLit(), FixedDist()), StandardToken(ts[0]),
                 TokensBits(ts[1..], FixedLit(), FixedDist()), StandardTokens(ts[1..]));
      assert forall i :: 1 <= i < |ts| ==> ts[i] == ts[1..][i - 1];
    }
  }

  /** What compress writes in the fixed layout is the standard's block exactly when it has no literal
      from 144 on; always, it is as long. */
  lemma FixedIsStandard(ts: seq<Token>, inp: seq<byte>)
    requires forall i :: 0 <= i < |ts| ==> Sized(ts[i])
    ensures |PlanBits(FixedPlan(ts), inp)| == |StandardBlock(ts)|
    ensures PlanBits(FixedPlan(ts), inp) == StandardBlock(ts) <==> forall i :: 0 <= i < |ts| ==> !Upper(ts[i])
  {
    hide TokensBits, StandardTokens, Upper, FixedLit, FixedDist, Sized, SymbolBits, StandardSymbol;
    TokensStandard(ts);
    SymbolStandard(END_OF_BLOCK);
    FixedHead();
    var a, end := TokensBits(ts, FixedLit(), FixedDist()), StandardSymbol(END_OF_BLOCK);
    PartsEqual(a, StandardTokens(ts), end, end);
    PartsEqual([true, true, false], [true, true, false], a + end, StandardTokens(ts) + end);
  }

  lemma FixedHead()
    ensures BlockHead(true, 1) == [true, true, false]
  {
    assert Lsb(1, 1) == [true] && Lsb(1, 2) == [true, false];
  }

  // ---------------------------------------------------------------- an input of one byte

  lemma OneToken(b: byte, ts: seq<Token>)
    requires Spells([b], ts, 1)
    ensures ts == [Literal(b)]
  {
    var n := |ts| - 1;
    assert TokenOk([b], 1 - Size(ts[n]), ts[n]) && Spells([b], ts[..n], 1 - Size(ts[n]));
    NothingSpelt(b, ts[..n]);
    assert ts == ts[..n] + [ts[n]];
  }

  lemma NothingSpelt(b: byte, ts: seq<Token>)
    requires Spells([b], ts, 0)
    ensures ts == []
  {}

  lemma {:induction false} ClBitsLength(cl: seq<nat>, i: nat, k: nat)
    requires |cl| == NUM_CODELEN && i <= k <= NUM_CODELEN
    ensures |ClBits(cl, i, k)| == 3 * (k - i)
    decreases k - i
  {
    if i < k { ClBitsLength(cl, i + 1, k); }
  }

  lemma LongHeader(h: Header)
    requires HeaderShaped(h)
    ensures |HeaderBits(h)| >= 26
  {
    ClBitsLength(h.cl, 0, h.hclen);
  }

  /** A single byte goes into a fixed block at every level but 0, and what comes out is standard exactly
      up to 143. */
  lemma OneByte(b: byte, level: int)
    requires level != 0
    ensures PlanOf([b], level) == FixedPlan([Literal(b)])
    ensures PlanBits(PlanOf([b], level), [b]) == StandardBlock([Literal(b)]) <==> b < 144
    ensures b < 144 ==>
      PlanBits(PlanOf([b], level), [b]) == [true, true, false] + (Msb(StandardCode(b), 8) + Msb(0, 7))
  {
    hide DynamicOf, TokensOf, HeaderBits, BlockBits, StandardBlock, StandardCode, Msb;
    var ts := TokensOf([b], LevelOf(level));
    TokensSpell([b], LevelOf(level));
    OneToken(b, ts);
    LongHeader(DynamicOf(ts).h);
    FixedIsStandard(ts, [b]);
    OneBlock(b);
  }

  lemma OneBlock(b: byte)
    ensures StandardBlock([Literal(b)]) ==
      [true, true, false] + (Msb(StandardCode(b), if b < 144 then 8 else 9) + Msb(0, 7))
  {
    hide Msb;
    assert [Literal(b)][1..] == [];
    assert StandardTokens([Literal(b)]) == StandardToken(Literal(b)) + [];
  }

  // ---------------------------------------------------------------- reading the standard's block

  /** The decoder, given the standard's block for one byte: it reads the byte up to 143, the byte four
      further up to 251, and refuses the block beyond. */
  lemma StandardByteRead(b: byte, rest: Bits)
    ensures Inflate(StandardBlock([Literal(b)]) + rest) ==
      if b < 144 then Some([b]) else if b < 252 then Some([b + 4]) else None
  {
    hide Inflate, StandardBlock, PlanBits, Msb, Code, FixedLit;
    if b < 252 {
      var c: byte := if b < 144 then b else b + 4;
      SameBits(b, c);
      RoundTripExactly(FixedPlan([Literal(c)]), [c], rest);
    } else {
      OneBlock(b);
      AllOnes(b, rest);
    }
  }

  lemma SameBits(b: byte, c: byte)
    requires c == if b < 144 then b else b + 4
    ensures ValidPlan(FixedPlan([Literal(c)]), [c]) && !Lossy(FixedPlan([Literal(c)]))
    ensures PlanBits(FixedPlan([Literal(c)]), [c]) == StandardBlock([Literal(b)])
  {
    FixedHead();
    FixedCodes(c);
    FixedCodes(END_OF_BLOCK);
    hide Msb, Code, BlockHead;
    assert [Literal(c)][1..] == [] && [Literal(c)][..0] == [];
    assert Spells([c], [], 0) && TokenOk([c], 0, Literal(c));
    assert TokensBits([Literal(c)], FixedLit(), FixedDist()) == TokenBits(Literal(c), FixedLit(), FixedDist()) + [];
    OneBlock(b);
  }

  lemma MsbFront(v: nat, n: nat)
    requires n > 0
    ensures Msb(v, n)[..n - 1] == Msb(v / 2, n - 1)
  {}

  /** No code of the fixed code as it is here begins like one of the standard's last four. */
  lemma NoSuchSymbol(v: nat, rest: Bits)
    requires 508 <= v < 512
    ensures DecodeSymbol(FixedLit(), Msb(v, 9) + rest) == None
  {
    hide DecodeSymbol, Msb, Code, Pow2;
    var bits := Msb(v, 9) + rest;
    if DecodeSymbol(FixedLit(), bits).Some? {
      DecodeSound(FixedLit(), bits);
      var (i, after) := DecodeSymbol(FixedLit(), bits).value;
      FixedCodes(i);
      MsbFront(v, 9);
      MsbFront(v / 2, 8);
      NineBits();
      EightAndSeven();
      var n, code := FixedLit()[i], Code(FixedLit(), i);
      assert bits[..n] == Msb(code, n);
      assert bits[..9] == Msb(v, 9) && bits[..8] == Msb(v, 9)[..8] && bits[..7] == Msb(v / 2, 8)[..7];
      MsbApart(code, if n == 9 then v else if n == 8 then v / 2 else v / 2 / 2, n);
    }
  }

  lemma EightAndSeven()
    ensures Pow2(7) == 128 && Pow2(8) == 256
  {
    assert Pow2(5) == 32;
  }

  lemma AllOnes(b: byte, rest: Bits)
    requires 252 <= b
    ensures Inflate([true, true, false] + (Msb(StandardCode(b), 9) + Msb(0, 7)) + rest) == None
  {
    hide Msb, DecodeSymbol, FixedLit;
    var tail := Msb(0, 7) + rest;
    var bits := [true, true, false] + (Msb(StandardCode(b), 9) + Msb(0, 7)) + rest;
    assert bits[3..] == Msb(StandardCode(b), 9) + tail;
    NoSuchSymbol(StandardCode(b), tail);
    assert bits[1..3] == [true, false] && bits[1..3][1..] == [false] && Value(bits[1..3]) == 1;
  }
}
