/** The bits an encoder writes for tokens and headers, and the proof that the decoder reads them
    back, whatever follows. */
module DeflateEncoding {
  import opened Options
  import opened Arithmetic
  import opened DeflateBits
  import opened DeflateTables
  import opened HuffmanCodes
  import opened Lz77
  import opened DeflateFormat

  lemma TakeBack(v: nat, n: nat, rest: Bits)
    requires v < Pow2(n)
    ensures Take(Lsb(v, n) + rest, n) == Some((v, rest))
  {
    ValueOfLsb(v, n);
    assert (Lsb(v, n) + rest)[..n] == Lsb(v, n);
    assert (Lsb(v, n) + rest)[n..] == rest;
  }

  /** A symbol that has a code the decoder can read. */
  ghost predicate HasCode(s: seq<nat>, i: nat) {
    i < |s| && 0 < s[i] <= MAX_CODE_BITS && Left(s, s[i]) >= 0
  }

  lemma AcceptedHasCode(s: seq<nat>, i: nat)
    requires Accepted(s) && i < |s| && s[i] > 0
    ensures HasCode(s, i)
  {}

  // ---------------------------------------------------------------- tokens

  function LiteralBits(lit: seq<nat>, sym: nat): Bits {
    if sym < |lit| then SymbolBits(lit, sym) else []
  }

  function MatchTail(dist: seq<nat>, distance: nat): Bits {
    var dc := DistanceCode(distance);
    if dc >= 30 || distance < DistBase(dc) then [] else
    LiteralBits(dist, dc) + Lsb(distance - DistBase(dc), DistExtra(dc))
  }

  function MatchHead(lit: seq<nat>, length: nat): Bits {
    var lc := LengthCode(length);
    if lc >= 29 || length < LengthBase(lc) then [] else
    LiteralBits(lit, 257 + lc) + Lsb(length - LengthBase(lc), LengthExtra(lc))
  }

  /** One token, in stream order. */
  function TokenBits(t: Token, lit: seq<nat>, dist: seq<nat>): Bits {
    match t
    case Literal(b) => LiteralBits(lit, b)
    case Match(length, distance) => MatchHead(lit, length) + MatchTail(dist, distance)
  }

  function TokensBits(ts: seq<Token>, lit: seq<nat>, dist: seq<nat>): Bits {
    if ts == [] then [] else TokenBits(ts[0], lit, dist) + TokensBits(ts[1..], lit, dist)
  }

  lemma {:induction false} TokensBitsMore(ts: seq<Token>, t: Token, lit: seq<nat>, dist: seq<nat>)
    ensures TokensBits(ts + [t], lit, dist) == TokensBits(ts, lit, dist) + TokenBits(t, lit, dist)
  {
    if ts == [] {
      assert ts + [t] == [t] && [t][1..] == [];
      assert TokensBits([t], lit, dist) == TokenBits(t, lit, dist) + [];
    } else {
      assert (ts + [t])[1..] == ts[1..] + [t];
      TokensBitsMore(ts[1..], t, lit, dist);
    }
  }

  /** The codes cover every symbol the token needs. */
  ghost predicate Codable(t: Token, lit: seq<nat>, dist: seq<nat>) {
    match t
    case Literal(b) => HasCode(lit, b)
    case Match(length, distance) =>
      HasCode(lit, 257 + LengthCode(length)) && HasCode(dist, DistanceCode(distance))
  }

  /** Tokens that spell the rest of the input from position `p` on. */
  ghost predicate SpellsFrom(inp: seq<byte>, ts: seq<Token>, p: nat)
    decreases |ts|
  {
    if ts == [] then p == |inp|
    else TokenOk(inp, p, ts[0]) && SpellsFrom(inp, ts[1..], p + Size(ts[0]))
  }

  lemma {:induction false} SpellsToFrom(inp: seq<byte>, a: seq<Token>, b: seq<Token>, p: nat)
    requires Spells(inp, a, p) && SpellsFrom(inp, b, p)
    ensures SpellsFrom(inp, a + b, 0)
    decreases |a|
  {
    hide TokenOk;
    if a == [] {
      assert a + b == b;
    } else {
      var n := |a| - 1;
      assert ([a[n]] + b)[1..] == b;
      SpellsToFrom(inp, a[..n], [a[n]] + b, p - Size(a[n]));
      assert a[..n] + ([a[n]] + b) == a + b;
    }
  }

  lemma ReadsLiteral(inp: seq<byte>, p: nat, b: byte, lit: seq<nat>, dist: seq<nat>, rest: Bits)
    requires TokenOk(inp, p, Literal(b)) && HasCode(lit, b)
    ensures ReadTokens(lit, dist, TokenBits(Literal(b), lit, dist) + rest, inp[..p]) ==
      ReadTokens(lit, dist, rest, inp[..p + 1])
  {
    DecodeReadsBack(lit, b, rest);
    assert inp[..p] + [b] == inp[..p + 1];
  }

  lemma ReadsMatchTail(lc: nat, lx: nat, dist: seq<nat>, distance: nat, rest: Bits, written: nat)
    requires lc < 29 && lx < Pow2(LengthExtra(lc)) && 1 <= distance <= WINDOW_SIZE && distance <= written
    requires HasCode(dist, DistanceCode(distance))
    ensures ReadMatch(lc, dist, Lsb(lx, LengthExtra(lc)) + (MatchTail(dist, distance) + rest), written) ==
      Some((LengthBase(lc) + lx, distance, rest))
  {
    hide DistBase, DistExtra, LengthBase, LengthExtra, DistanceCode, SymbolBits, DecodeSymbol, Lsb, Pow2, Take;
    var dc := DistanceCode(distance);
    DistanceCovered(distance);
    var dx := distance - DistBase(dc);
    var code := SymbolBits(dist, dc);
    var tail := Lsb(dx, DistExtra(dc)) + rest;
    assert MatchTail(dist, distance) + rest == code + tail;
    TakeBack(lx, LengthExtra(lc), code + tail);
    DecodeReadsBack(dist, dc, tail);
    TakeBack(dx, DistExtra(dc), rest);
  }

  lemma ReadsMatch(inp: seq<byte>, p: nat, length: nat, distance: nat, lit: seq<nat>, dist: seq<nat>, rest: Bits)
    requires MatchOk(inp, p, length, distance) && Codable(Match(length, distance), lit, dist)
    ensures p + length <= |inp|
    ensures ReadTokens(lit, dist, TokenBits(Match(length, distance), lit, dist) + rest, inp[..p]) ==
      ReadTokens(lit, dist, rest, inp[..p + length])
  {
    hide DistBase, DistExtra, LengthBase, LengthExtra, LengthCode, DistanceCode, SymbolBits, DecodeSymbol, Lsb, Pow2;
    hide ReadMatch, MatchTail, Copy, Run;
    var lc := LengthCode(length);
    LengthCovered(length);
    var lx := length - LengthBase(lc);
    var code := SymbolBits(lit, 257 + lc);
    var after := Lsb(lx, LengthExtra(lc)) + (MatchTail(dist, distance) + rest);
    assert TokenBits(Match(length, distance), lit, dist) + rest == code + after;
    DecodeReadsBack(lit, 257 + lc, after);
    ReadsMatchTail(lc, lx, dist, distance, rest, p);
    ApplyExtends(inp, p, Match(length, distance));
  }

  lemma ReadsEnd(lit: seq<nat>, dist: seq<nat>, rest: Bits, out: seq<byte>)
    requires HasCode(lit, END_OF_BLOCK)
    ensures ReadTokens(lit, dist, LiteralBits(lit, END_OF_BLOCK) + rest, out) == Some((out, rest))
  {
    DecodeReadsBack(lit, END_OF_BLOCK, rest);
  }

  /** The decoder turns a block's bits back into the bytes its tokens spell. */
  lemma {:induction false} ReadsTokens(
    inp: seq<byte>, ts: seq<Token>, p: nat, lit: seq<nat>, dist: seq<nat>, rest: Bits)
    requires p <= |inp| && SpellsFrom(inp, ts, p) && HasCode(lit, END_OF_BLOCK)
    requires forall i :: 0 <= i < |ts| ==> Codable(ts[i], lit, dist)
    ensures ReadTokens(lit, dist, TokensBits(ts, lit, dist) + (LiteralBits(lit, END_OF_BLOCK) + rest), inp[..p]) ==
      Some((inp, rest))
    decreases |ts|
  {
    hide DecodeSymbol, SymbolBits, TokenBits, LiteralBits, ReadMatch, Copy, MatchOk, HasCode;
    var end := LiteralBits(lit, END_OF_BLOCK) + rest;
    if ts == [] {
      ReadsEnd(lit, dist, rest, inp);
      assert inp[..p] == inp && TokensBits(ts, lit, dist) + end == end;
    } else {
      var t := ts[0];
      var after := TokensBits(ts[1..], lit, dist) + end;
      assert TokensBits(ts, lit, dist) + end == TokenBits(t, lit, dist) + after;
      assert Codable(t, lit, dist);
      match t {
        case Literal(b) => ReadsLiteral(inp, p, b, lit, dist, after);
        case Match(length, distance) => ReadsMatch(inp, p, length, distance, lit, dist, after);
      }
      ReadsTokens(inp, ts[1..], p + Size(t), lit, dist, rest);
    }
  }
}
