/** The three ways the encoder can lay out a stream, and exactly when each decompresses to the
    input. */
module DeflatePlan {
  import opened Options
  import opened Arithmetic
  import opened DeflateBits
  import opened DeflateTables
  import opened HuffmanCodes
  import opened HuffmanLengths
  import opened HuffmanOptimality
  import opened HuffmanKraft
  import opened CodeLengths
  import opened Lz77
  import opened SymbolCounts
  import opened DeflateFormat
  import opened DeflateEncoding
  import opened DeflateHeader
  import opened DeflateFixed

  datatype Plan =
    | StoredPlan
    | FixedPlan(ts: seq<Token>)
    | DynamicPlan(ts: seq<Token>, lit: seq<nat>, dist: seq<nat>, h: Header)

  /** One bit for distance 0 and nothing else. */
  function FirstBit(): (s: seq<nat>)
    ensures |s| == NUM_DISTANCES
  {
    Copies(0, NUM_DISTANCES)[0 := 1]
  }

  /** The distance lengths the encoder ends up with: a code over the distances that occur or, with
      fewer than two of them, one bit for symbol 0. */
  ghost predicate DistanceLengths(freq: seq<nat>, dist: seq<nat>) {
    if |Used(freq)| >= 2 then CompleteOver(freq, dist, MAX_CODE_BITS) else dist == FirstBit()
  }

  /** What the encoder knows about the layout it settled on. */
  ghost predicate ValidPlan(plan: Plan, inp: seq<byte>) {
    match plan
    case StoredPlan => true
    case FixedPlan(ts) => Spells(inp, ts, |inp|)
    case DynamicPlan(ts, lit, dist, h) =>
      && Spells(inp, ts, |inp|)
      && CompleteOver(LitFreq(ts), lit, MAX_CODE_BITS)
      && DistanceLengths(DistFreq(ts), dist)
      && HeaderOk(h, lit, dist)
  }

  /** Exactly one distance symbol occurs and it is not symbol 0, so that it has no code. */
  ghost predicate LoneDistance(freq: seq<nat>) {
    |Used(freq)| == 1 && Used(freq)[0] != 0
  }

  /** The layouts that do not decompress to the input. */
  ghost predicate Lossy(plan: Plan) {
    plan.DynamicPlan? && LoneDistance(DistFreq(plan.ts))
  }

  // ---------------------------------------------------------------- the bits of a plan

  /** The length of a stored block, and its complement. */
  function StoredLengths(n: nat): (s: Bits)
    requires n <= 65535
    ensures |s| == 32
  {
    Lsb(n, 16) + Lsb(65535 - n, 16)
  }

  /** A stored block after its three header bits, which end three bits into a byte. */
  function StoredBody(bytes: seq<byte>): (s: Bits)
    requires |bytes| <= 65535
    ensures |s| == 37 + 8 * |bytes|
  {
    Zeros(5) + (StoredLengths(|bytes|) + ByteBits(bytes))
  }

  function BlockHead(final: bool, kind: nat): (s: Bits)
    ensures |s| == 3
  {
    Lsb(if final then 1 else 0, 1) + Lsb(kind, 2)
  }

  /** Stored blocks of at most 65535 bytes, the last marked final. */
  function StoredBits(inp: seq<byte>): Bits {
    if |inp| <= 65535 then BlockHead(true, 0) + StoredBody(inp)
    else BlockHead(false, 0) + StoredBody(inp[..65535]) + StoredBits(inp[65535..])
  }

  function BlockBits(ts: seq<Token>, lit: seq<nat>, dist: seq<nat>): Bits {
    TokensBits(ts, lit, dist) + LiteralBits(lit, END_OF_BLOCK)
  }

  ghost predicate HeaderShaped(h: Header) {
    257 <= h.hlit && 1 <= h.hdist && 4 <= h.hclen <= NUM_CODELEN && |h.cl| == NUM_CODELEN
  }

  function PlanBits(plan: Plan, inp: seq<byte>): Bits
    requires plan.DynamicPlan? ==> HeaderShaped(plan.h)
  {
    match plan
    case StoredPlan => StoredBits(inp)
    case FixedPlan(ts) => BlockHead(true, 1) + BlockBits(ts, FixedLit(), FixedDist())
    case DynamicPlan(ts, lit, dist, h) => BlockHead(true, 2) + HeaderBits(h) + BlockBits(ts, lit, dist)
  }

  // ---------------------------------------------------------------- stored streams

  lemma {:induction false} ReadsBytes(bytes: seq<byte>, rest: Bits, out: seq<byte>)
    ensures ReadBytes(ByteBits(bytes) + rest, |bytes|, out) == Some((out + bytes, rest))
    decreases |bytes|
  {
    hide Take, Lsb;
    if bytes == [] {
      assert ByteBits(bytes) + rest == rest && out + bytes == out;
    } else {
      var after := ByteBits(bytes[1..]) + rest;
      assert ByteBits(bytes) + rest == Lsb(bytes[0], 8) + after;
      ByteFits(bytes[0]);
      TakeBack(bytes[0], 8, after);
      ReadsBytes(bytes[1..], rest, out + [bytes[0]]);
      assert out + [bytes[0]] + bytes[1..] == out + bytes;
    }
  }

  lemma ReadsStoredBlock(bytes: seq<byte>, rest: Bits, out: seq<byte>)
    requires |bytes| <= 65535 && |rest| % 8 == 0
    ensures ReadStored(StoredBody(bytes) + rest, out) == Some((out + bytes, rest))
  {
    hide StoredLengths, ByteBits, ReadBytes, Zeros, Value;
    StoredLengthsRead(|bytes|, ByteBits(bytes) + rest);
    ReadsBytes(bytes, rest, out);
    BodyAligned(bytes, rest);
  }

  lemma BodyAligned(bytes: seq<byte>, rest: Bits)
    requires |bytes| <= 65535 && |rest| % 8 == 0
    ensures var bits := StoredBody(bytes) + rest;
      bits[|bits| % 8..] == StoredLengths(|bytes|) + (ByteBits(bytes) + rest)
  {
    hide StoredLengths, ByteBits, Zeros;
    RemainderOfBody(|bytes|, |rest|);
  }

  lemma RemainderOfBody(n: nat, r: nat)
    requires r % 8 == 0
    ensures (37 + 8 * n + r) % 8 == 5 && (40 + 8 * n + r) % 8 == 0
  {}

  lemma StoredLengthsRead(n: nat, rest: Bits)
    requires n <= 65535
    ensures var bits := StoredLengths(n) + rest;
      Value(bits[..16]) == n && Value(bits[16..32]) == 65535 - n && bits[32..] == rest
  {
    var bits := StoredLengths(n) + rest;
    SmallPowers();
    Pow2Adds(8, 8);
    hide Lsb, Value, Pow2;
    ValueOfLsb(n, 16);
    ValueOfLsb(65535 - n, 16);
    assert bits[..16] == Lsb(n, 16) && bits[16..32] == Lsb(65535 - n, 16);
  }

  /** The three header bits of a block, and what follows them. */
  lemma BlockHeadReads(final: bool, kind: nat, rest: Bits)
    requires kind < 4
    ensures var bits := BlockHead(final, kind) + rest;
      bits[0] == final && Value(bits[1..3]) == kind && bits[3..] == rest
  {
    var bits := BlockHead(final, kind) + rest;
    SmallPowers();
    ValueOfLsb(kind, 2);
    assert bits[1..3] == Lsb(kind, 2);
  }

  /** A block the decoder can read, at the head of a stream. */
  lemma ReadsBlock(final: bool, kind: nat, body: Bits, rest: Bits, out: seq<byte>, out': seq<byte>)
    requires kind < 4 && ReadBlock(kind, body, out) == Some((out', rest))
    ensures ReadBlocks(BlockHead(final, kind) + body, out) == if final then Some(out') else ReadBlocks(rest, out')
  {
    hide ReadBlock, BlockHead, Value;
    BlockHeadReads(final, kind, body);
  }

  /** Bytes taken by `n` bytes in stored blocks: five more for every block. */
  function StoredSize(n: nat): nat {
    if n <= 65535 then n + 5 else 65540 + StoredSize(n - 65535)
  }

  lemma {:induction false} StoredBitsLength(inp: seq<byte>)
    ensures |StoredBits(inp)| == 8 * StoredSize(|inp|)
    decreases |inp|
  {
    hide BlockHead, StoredBody;
    if |inp| > 65535 { StoredBitsLength(inp[65535..]); }
  }

  /** One stored block in front of `rest` adds its bytes. */
  lemma ReadsStoredPart(final: bool, bytes: seq<byte>, rest: Bits, out: seq<byte>)
    requires |bytes| <= 65535 && |rest| % 8 == 0
    ensures ReadBlocks(BlockHead(final, 0) + (StoredBody(bytes) + rest), out) ==
            if final then Some(out + bytes) else ReadBlocks(rest, out + bytes)
  {
    hide BlockHead, StoredBody, ReadStored, ReadBlocks, ReadTokens, ReadHeader, ByteBits, FixedLit, FixedDist;
    ReadsStoredBlock(bytes, rest, out);
    ReadsBlock(final, 0, StoredBody(bytes) + rest, rest, out, out + bytes);
  }

  lemma {:induction false} ReadsStoredBits(inp: seq<byte>, out: seq<byte>)
    ensures ReadBlocks(StoredBits(inp), out) == Some(out + inp)
    decreases |inp|
  {
    hide BlockHead, StoredBody, ReadBlocks;
    if |inp| <= 65535 {
      ReadsStoredPart(true, inp, [], out);
      assert StoredBody(inp) + [] == StoredBody(inp);
    } else {
      var chunk, rest := inp[..65535], StoredBits(inp[65535..]);
      StoredBitsLength(inp[65535..]);
      ReadsStoredPart(false, chunk, rest, out);
      assert StoredBits(inp) == BlockHead(false, 0) + (StoredBody(chunk) + rest);
      ReadsStoredBits(inp[65535..], out + chunk);
      assert out + chunk + inp[65535..] == out + inp;
    }
  }

  // ---------------------------------------------------------------- compressed streams

  lemma FixedCodable(inp: seq<byte>, ts: seq<Token>, i: nat)
    requires i < |ts|
    ensures Codable(ts[i], FixedLit(), FixedDist())
  {
    FixedHasCodes(LitSymbol(ts[i]));
    if ts[i].Match? { FixedHasCodes(DistanceCode(ts[i].distance)); }
  }

  lemma ReadsFixed(inp: seq<byte>, ts: seq<Token>, rest: Bits)
    requires Spells(inp, ts, |inp|)
    ensures ReadBlocks(PlanBits(FixedPlan(ts), inp) + rest, []) == Some(inp)
  {
    hide Spells, SpellsFrom, Codable, TokensBits, HasCode, LiteralBits, ReadTokens, BlockHead;
    var lit, dist := FixedLit(), FixedDist();
    var body := TokensBits(ts, lit, dist) + (LiteralBits(lit, END_OF_BLOCK) + rest);
    assert PlanBits(FixedPlan(ts), inp) + rest == BlockHead(true, 1) + body;
    SpelledWholly(inp, ts);
    forall i: nat | i < |ts| ensures Codable(ts[i], lit, dist) { FixedCodable(inp, ts, i); }
    FixedHasCodes(END_OF_BLOCK);
    ReadsTokens(inp, ts, 0, lit, dist, rest);
    assert inp[..0] == [];
    ReadsBlock(true, 1, body, rest, [], inp);
  }

  lemma SpelledWholly(inp: seq<byte>, ts: seq<Token>)
    requires Spells(inp, ts, |inp|)
    ensures SpellsFrom(inp, ts, 0)
  {
    assert ts + [] == ts;
    SpellsToFrom(inp, ts, [], |inp|);
  }

  // The decoder knows the codes only as far as they were transmitted; nothing used lies beyond.

  lemma LiteralBitsCut(s: seq<nat>, n: nat, i: nat)
    requires n <= |s| && forall k :: n <= k < |s| ==> s[k] == 0
    ensures LiteralBits(s[..n], i) == LiteralBits(s, i)
  {
    if i < n { SymbolBitsTail(s, n, i); }
  }

  lemma TokenBitsCut(t: Token, lit: seq<nat>, m: nat, dist: seq<nat>, n: nat)
    requires m <= |lit| && forall k :: m <= k < |lit| ==> lit[k] == 0
    requires n <= |dist| && forall k :: n <= k < |dist| ==> dist[k] == 0
    ensures TokenBits(t, lit[..m], dist[..n]) == TokenBits(t, lit, dist)
  {
    hide LiteralBits, Lsb, LengthCode, DistanceCode, LengthBase, LengthExtra, DistBase, DistExtra;
    LiteralBitsCut(lit, m, LitSymbol(t));
    if t.Match? { LiteralBitsCut(dist, n, DistanceCode(t.distance)); }
  }

  lemma {:induction false} TokensBitsCut(ts: seq<Token>, lit: seq<nat>, m: nat, dist: seq<nat>, n: nat)
    requires m <= |lit| && forall k :: m <= k < |lit| ==> lit[k] == 0
    requires n <= |dist| && forall k :: n <= k < |dist| ==> dist[k] == 0
    ensures TokensBits(ts, lit[..m], dist[..n]) == TokensBits(ts, lit, dist)
    decreases |ts|
  {
    if ts != [] {
      hide TokenBits;
      TokenBitsCut(ts[0], lit, m, dist, n);
      TokensBitsCut(ts[1..], lit, m, dist, n);
    }
  }

  lemma HasCodeCut(s: seq<nat>, n: nat, i: nat)
    requires Accepted(s) && n <= |s| && (forall k :: n <= k < |s| ==> s[k] == 0) && i < |s| && s[i] > 0
    ensures HasCode(s[..n], i)
  {
    AcceptedTail(s, n);
  }

  lemma CompleteHasCode(freq: seq<nat>, s: seq<nat>, n: nat, i: nat)
    requires CompleteOver(freq, s, MAX_CODE_BITS) && i < |freq| && freq[i] > 0
    requires n <= |s| && forall k :: n <= k < |s| ==> s[k] == 0
    ensures HasCode(s[..n], i)
  {
    CompleteIsAccepted(freq, s, MAX_CODE_BITS);
    hide Kraft, Used, Accepted, HasCode;
    HasCodeCut(s, n, i);
  }
}
