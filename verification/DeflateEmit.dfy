/** Writing the parts of a stream: tokens, headers and stored blocks, as `C-Deflate/src/deflate.c`
    emits them, and the bit costs it computes beforehand. */
module DeflateEmit {
  import opened Arithmetic
  import opened DeflateBits
  import opened DeflateTables
  import opened HuffmanCodes
  import opened Lz77
  import opened DeflateEncoding
  import opened DeflatePlan

  // ---------------------------------------------------------------- codes to write

  /** The codes and lengths together give every symbol its bits; unused symbols get none. */
  ghost predicate CodesFor(s: seq<nat>, codes: seq<nat>) {
    && |codes| == |s|
    && forall i :: 0 <= i < |s| ==> s[i] <= MAX_CODE_BITS && Msb(codes[i], s[i]) == LiteralBits(s, i)
  }

  method CodesOf(s: seq<nat>) returns (codes: seq<nat>)
    requires Accepted(s)
    ensures CodesFor(s, codes)
  {
    codes := AssignCodes(s);
    forall i | 0 <= i < |s| ensures Msb(codes[i], s[i]) == LiteralBits(s, i) {
      CodeNotCut(s, i);
    }
  }

  lemma CodeNotCut(s: seq<nat>, i: nat)
    requires Accepted(s) && i < |s|
    ensures Msb(if s[i] == 0 then 0 else Code(s, i) % 65536, s[i]) == SymbolBits(s, i)
  {
    hide Code, Left, Pow2;
    if s[i] > 0 {
      CodeBelow16Bits(s, i);
      hide Accepted, Msb;
      SmallRemainder(Code(s, i), 65536);
    }
  }

  lemma SmallRemainder(v: nat, m: nat)
    requires v < m
    ensures v % m == v
  {}

  lemma CodeBelow16Bits(s: seq<nat>, i: nat)
    requires i < |s| && 0 < s[i] <= MAX_CODE_BITS && Left(s, s[i]) >= 0
    ensures Code(s, i) < 65536
  {
    hide Code, Left, Pow2;
    CodeFits(s, i);
    Pow2Grows(s[i], 15);
    FifteenBits();
  }

  lemma FifteenBits()
    ensures Pow2(15) == 32768
  {
    SmallPowers();
    Pow2Adds(13, 2);
  }

  method PutSymbol(w: BitWriter, s: seq<nat>, codes: seq<nat>, sym: nat)
    requires w.Valid() && CodesFor(s, codes) && sym < |s|
    modifies w, w.out
    ensures w.Valid() && w.written == old(w.written) + LiteralBits(s, sym)
  {
    w.PutCode(codes[sym], s[sym]);
  }

  // ---------------------------------------------------------------- tokens

  lemma LengthFields(length: nat)
    requires MIN_MATCH <= length <= MAX_MATCH
    ensures LengthBase(LengthCode(length)) <= length && LengthExtra(LengthCode(length)) <= 5
  {
    LengthCovered(length);
  }

  lemma DistanceFields(distance: nat)
    requires 1 <= distance <= WINDOW_SIZE
    ensures DistBase(DistanceCode(distance)) <= distance && DistExtra(DistanceCode(distance)) <= 13
  {
    DistanceCovered(distance);
  }

  ghost predicate Sized(t: Token) {
    t.Match? ==> MIN_MATCH <= t.length <= MAX_MATCH && 1 <= t.distance <= WINDOW_SIZE
  }

  method EmitToken(w: BitWriter, t: Token, lit: seq<nat>, litCodes: seq<nat>, dist: seq<nat>, distCodes: seq<nat>)
    requires w.Valid() && CodesFor(lit, litCodes) && CodesFor(dist, distCodes)
    requires |lit| == NUM_LITERALS && |dist| == NUM_DISTANCES && Sized(t)
    modifies w, w.out
    ensures w.Valid() && w.written == old(w.written) + TokenBits(t, lit, dist)
  {
    hide CodesFor, LiteralBits, MatchHead, MatchTail;
    match t
    case Literal(b) => PutSymbol(w, lit, litCodes, b);
    case Match(length, distance) =>
      EmitLength(w, length, lit, litCodes);
      EmitDistance(w, distance, dist, distCodes);
  }

  method EmitLength(w: BitWriter, length: nat, lit: seq<nat>, litCodes: seq<nat>)
    requires w.Valid() && CodesFor(lit, litCodes)
    requires |lit| == NUM_LITERALS && MIN_MATCH <= length <= MAX_MATCH
    modifies w, w.out
    ensures w.Valid() && w.written == old(w.written) + MatchHead(lit, length)
  {
    hide CodesFor, LiteralBits, LengthBase, LengthExtra, Lsb, LengthCode;
    LengthFields(length);
    var lc := LengthToCode(length);
    PutSymbol(w, lit, litCodes, 257 + lc);
    w.PutBits(length - LengthBase(lc), LengthExtra(lc));
  }

  method EmitDistance(w: BitWriter, distance: nat, dist: seq<nat>, distCodes: seq<nat>)
    requires w.Valid() && CodesFor(dist, distCodes)
    requires |dist| == NUM_DISTANCES && 1 <= distance <= WINDOW_SIZE
    modifies w, w.out
    ensures w.Valid() && w.written == old(w.written) + MatchTail(dist, distance)
  {
    hide CodesFor, LiteralBits, DistBase, DistExtra, Lsb, DistanceCode;
    DistanceFields(distance);
    var dc := DistanceToCode(distance);
    PutSymbol(w, dist, distCodes, dc);
    w.PutBits(distance - DistBase(dc), DistExtra(dc));
  }

  /** `emit_tokens`: every token, then the end of block. */
  method EmitTokens(w: BitWriter, ts: seq<Token>, lit: seq<nat>, litCodes: seq<nat>,
                    dist: seq<nat>, distCodes: seq<nat>)
    requires w.Valid() && CodesFor(lit, litCodes) && CodesFor(dist, distCodes)
    requires |lit| == NUM_LITERALS && |dist| == NUM_DISTANCES
    requires forall i :: 0 <= i < |ts| ==> Sized(ts[i])
    modifies w, w.out
    ensures w.Valid() && w.written == old(w.written) + BlockBits(ts, lit, dist)
  {
    hide CodesFor, LiteralBits, TokenBits, TokensBits, Sized, BitWriter.Valid;
    ghost var start := w.written;
    NoTokensNoBits(lit, dist);
    assert ts[..0] == [];
    for i := 0 to |ts|
      invariant w.Valid() && w.written == start + TokensBits(ts[..i], lit, dist)
    {
      EmitToken(w, ts[i], lit, litCodes, dist, distCodes);
      TokensBitsMore(ts[..i], ts[i], lit, dist);
      assert ts[..i + 1] == ts[..i] + [ts[i]];
    }
    assert ts[..|ts|] == ts;
    PutSymbol(w, lit, litCodes, END_OF_BLOCK);
  }

  lemma NoTokensNoBits(lit: seq<nat>, dist: seq<nat>)
    ensures TokensBits([], lit, dist) == []
  {}

  /** `token_bits`: the cost computed beforehand is the number of bits a block takes. */
  method TokenCost(ts: seq<Token>, lit: seq<nat>, dist: seq<nat>) returns (bits: nat)
    requires |lit| == NUM_LITERALS && |dist| == NUM_DISTANCES
    requires forall i :: 0 <= i < |ts| ==> Sized(ts[i])
    ensures bits == |BlockBits(ts, lit, dist)|
  {
    hide LiteralBits, TokenBits, TokensBits, Sized, LengthExtra, DistExtra;
    bits := 0;
    NoTokensNoBits(lit, dist);
    assert ts[..0] == [];
    for i := 0 to |ts|
      invariant bits == |TokensBits(ts[..i], lit, dist)|
    {
      CostOfToken(ts[i], lit, dist);
      TokensBitsMore(ts[..i], ts[i], lit, dist);
      assert ts[..i + 1] == ts[..i] + [ts[i]];
      match ts[i] {
        case Literal(b) =>
          bits := bits + lit[b];
        case Match(length, distance) =>
          var lc := LengthToCode(length);
          var dc := DistanceToCode(distance);
          bits := bits + lit[257 + lc] + LengthExtra(lc);
          bits := bits + dist[dc] + DistExtra(dc);
      }
    }
    assert ts[..|ts|] == ts;
    CostOfSymbol(lit, END_OF_BLOCK);
    bits := bits + lit[END_OF_BLOCK];
  }

  lemma CostOfSymbol(s: seq<nat>, i: nat)
    requires i < |s|
    ensures |LiteralBits(s, i)| == s[i]
  {}

  lemma CostOfToken(t: Token, lit: seq<nat>, dist: seq<nat>)
    requires |lit| == NUM_LITERALS && |dist| == NUM_DISTANCES && Sized(t)
    ensures |TokenBits(t, lit, dist)| ==
      match t
      case Literal(b) => lit[b]
      case Match(length, distance) =>
        lit[257 + LengthCode(length)] + LengthExtra(LengthCode(length))
        + dist[DistanceCode(distance)] + DistExtra(DistanceCode(distance))
  {
    match t
    case Literal(b) => CostOfSymbol(lit, b);
    case Match(length, distance) =>
      LengthFields(length);
      DistanceFields(distance);
      CostOfSymbol(lit, 257 + LengthCode(length));
      CostOfSymbol(dist, DistanceCode(distance));
  }
}
