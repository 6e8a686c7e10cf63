/** Corrupt and cut streams, on their bytes: the decoder refuses them. */
module DeflateRefusals {
  import opened Options
  import opened Arithmetic
  import opened DeflateBits
  import opened DeflateTables
  import opened DeflateFormat
  import opened DeflateEncoding
  import opened DeflateHeader
  import opened DeflateFixed
  import opened HuffmanLengths
  import opened Lz77
  import opened SymbolCounts
  import opened DeflatePlan
  import opened DeflateRoundTrip
  import opened DeflateStream
  import opened DeflateLanguage

  // ---------------------------------------------------------------- behind good blocks

  /** Blocks of which none is the last, and what stands behind them. */
  ghost function FrontBits(bs: seq<Block>, rest: Bits): Bits {
    if bs == [] then rest else BlockHead(false, KindOf(bs[0])) + BlockBody(bs[0], FrontBits(bs[1..], rest))
  }

  ghost predicate FrontOk(bs: seq<Block>, out: seq<byte>, rest: Bits)
    decreases |bs|
  {
    bs == [] ||
    (BlockOk(bs[0], out, FrontBits(bs[1..], rest)) && FrontOk(bs[1..], BlockOut(bs[0], out), rest))
  }

  /** What stands behind good blocks decides. */
  lemma {:induction false} FrontRead(bs: seq<Block>, out: seq<byte>, rest: Bits)
    requires FrontOk(bs, out, rest)
    ensures ReadBlocks(FrontBits(bs, rest), out) == ReadBlocks(rest, StreamOut(bs, out))
    decreases |bs|
  {
    hide ReadBlock, BlockOk, BlockBody, BlockOut, BlockHead, ReadBlocks;
    if bs != [] {
      var after := FrontBits(bs[1..], rest);
      BlockRead(bs[0], out, after);
      ReadsBlock(false, KindOf(bs[0]), BlockBody(bs[0], after), after, out, BlockOut(bs[0], out));
      FrontRead(bs[1..], BlockOut(bs[0], out), rest);
    }
  }

  /** A block of the reserved type, behind any good blocks. */
  lemma ReservedTypeRefused(bs: seq<Block>, rest: Bits)
    requires FrontOk(bs, [], rest) && |rest| >= 3 && rest[1] && rest[2]
    ensures Inflate(FrontBits(bs, rest)) == None
  {
    hide FrontBits, ReadStored, ReadTokens, ReadHeader;
    FrontRead(bs, [], rest);
    assert rest[1..3] == [true, true] && rest[1..3][1..] == [true];
    assert Value(rest[1..3]) == 3;
  }

  /** A stored block whose length and its complement do not match, behind any good blocks. */
  lemma BadLengthRefused(bs: seq<Block>, rest: Bits, len: nat, nlen: nat)
    requires FrontOk(bs, [], rest) && |rest| >= 3 && !rest[1] && !rest[2]
    requires |rest| >= 3 + (|rest| - 3) % 8 + 32 && len < 65536 && nlen < 65536 && len + nlen != 65535
    requires rest[3 + (|rest| - 3) % 8..][..32] == Lsb(len, 16) + Lsb(nlen, 16)
    ensures Inflate(FrontBits(bs, rest)) == None
  {
    hide ReadBlocks, FrontBits, ReadStored, Lsb, StreamOut;
    FrontRead(bs, [], rest);
    var k := 3 + (|rest| - 3) % 8;
    RestAligned(rest);
    BadLengthStored(rest[3..], rest[k..], len, nlen, StreamOut(bs, []));
    OnlyStored(rest, StreamOut(bs, []));
  }

  lemma RestAligned(rest: Bits)
    requires |rest| >= 3
    ensures rest[3..][|rest[3..]| % 8..] == rest[3 + (|rest| - 3) % 8..]
  {}

  lemma BadLengthStored(body: Bits, aligned: Bits, len: nat, nlen: nat, out: seq<byte>)
    requires aligned == body[|body| % 8..] && |aligned| >= 32 && aligned[..32] == Lsb(len, 16) + Lsb(nlen, 16)
    requires len < 65536 && nlen < 65536 && len + nlen != 65535
    ensures ReadStored(body, out) == None
  {
    hide ReadBytes, Lsb, Value, Pow2;
    assert aligned[..16] == aligned[..32][..16] && aligned[16..32] == aligned[..32][16..];
    SixteenBits();
    ValueOfLsb(len, 16);
    ValueOfLsb(nlen, 16);
  }

  lemma SixteenBits()
    ensures Pow2(16) == 65536
  {
    EightBits(0);
    Pow2Adds(8, 8);
  }

  // ---------------------------------------------------------------- on the bytes

  /** The type bits of the first block. */
  function FirstType(s: seq<byte>): nat
    requires s != []
  {
    s[0] / 2 % 4
  }

  lemma FirstByte(s: seq<byte>)
    requires s != []
    ensures var bits := ByteBits(s);
      && |bits| >= 8 && bits[..8] == Lsb(s[0], 8) && bits[8..] == ByteBits(s[1..])
      && (bits[0] <==> s[0] % 2 == 1) && (bits[1] <==> s[0] / 2 % 2 == 1) && (bits[2] <==> s[0] / 4 % 2 == 1)
  {
    ThreeBits(s[0]);
    hide Lsb;
    var bits := Lsb(s[0], 8);
    assert ByteBits(s) == bits + ByteBits(s[1..]);
    hide ByteBits;
    Between([], bits, ByteBits(s[1..]));
    assert [] + (bits + ByteBits(s[1..])) == bits + ByteBits(s[1..]);
  }

  lemma ThreeBits(v: nat)
    ensures var bits := Lsb(v, 8);
      (bits[0] <==> v % 2 == 1) && (bits[1] <==> v / 2 % 2 == 1) && (bits[2] <==> v / 4 % 2 == 1)
  {
    var b1, b2 := Lsb(v / 2, 7), Lsb(v / 2 / 2, 6);
    assert Lsb(v, 8)[1..] == b1 && b1[1..] == b2;
    assert v / 2 / 2 == v / 4;
  }

  lemma TypeBits(s: seq<byte>)
    requires s != []
    ensures |ByteBits(s)| == 8 * |s| && (ByteBits(s)[0] <==> s[0] % 2 == 1)
    ensures FirstType(s) == 0 ==> !ByteBits(s)[1] && !ByteBits(s)[2]
    ensures FirstType(s) == 3 ==> ByteBits(s)[1] && ByteBits(s)[2]
  {
    hide ByteBits, Lsb;
    FirstByte(s);
    QuarterByte(s[0]);
  }

  lemma QuarterByte(b: byte)
    ensures b / 2 % 4 == 0 ==> b / 2 % 2 == 0 && b / 4 % 2 == 0
    ensures b / 2 % 4 == 3 ==> b / 2 % 2 == 1 && b / 4 % 2 == 1
  {}

  lemma NoFront(rest: Bits)
    ensures FrontBits([], rest) == rest && FrontOk([], [], rest)
  {}

  /** A stream whose first block has the reserved type. */
  lemma ReservedByteRefused(s: seq<byte>)
    requires s != [] && FirstType(s) == 3
    ensures Inflate(ByteBits(s)) == None
  {
    hide ByteBits, Inflate, FrontBits, FrontOk;
    TypeBits(s);
    NoFront(ByteBits(s));
    ReservedTypeRefused([], ByteBits(s));
  }

  function Low16(s: seq<byte>, i: nat): nat
    requires i + 2 <= |s|
  {
    s[i] as nat + 256 * s[i + 1] as nat
  }

  lemma TwoBytes(s: seq<byte>, i: nat)
    requires i + 2 <= |s|
    ensures |ByteBits(s)| >= 8 * i + 16 && ByteBits(s)[8 * i..8 * i + 16] == Lsb(Low16(s, i), 16)
    ensures Low16(s, i) < 65536
  {
    SameTwo(s, i);
    hide Lsb, ByteBits, Low16;
    var a, b, c := s[..i], s[i..i + 2], s[i + 2..];
    assert s == a + (b + c);
    ByteBitsOfConcat(a, b + c);
    ByteBitsOfConcat(b, c);
    PairBits(b);
    Between(ByteBits(a), ByteBits(b), ByteBits(c));
  }

  lemma SameTwo(s: seq<byte>, i: nat)
    requires i + 2 <= |s|
    ensures Low16(s[i..i + 2], 0) == Low16(s, i) < 65536
  {}

  lemma Between(a: Bits, b: Bits, c: Bits)
    ensures (a + (b + c))[|a|..|a| + |b|] == b
  {}

  lemma PairBits(b: seq<byte>)
    requires |b| == 2
    ensures ByteBits(b) == Lsb(Low16(b, 0), 16)
  {
    hide Lsb, Pow2;
    ByteFits(b[0]);
    ByteFits(b[1]);
    EightBits(0);
    LsbAppend(b[0], 8, b[1], 8);
    assert b[1..][1..] == [] && b[1..][0] == b[1];
    assert ByteBits(b[1..]) == Lsb(b[1], 8) + ByteBits([]);
  }

  /** The length behind the first byte and the one behind that are complements, byte by byte. */
  predicate Complements(s: seq<byte>)
    requires |s| >= 5
  {
    s[1] as int + s[3] as int == 255 && s[2] as int + s[4] as int == 255
  }

  lemma ComplementsAdd(s: seq<byte>)
    requires |s| >= 5
    ensures Complements(s) <==> Low16(s, 1) + Low16(s, 3) == 65535
  {}

  /** A stream whose first block is stored is refused when the complement is wrong. */
  lemma BadComplementRefused(s: seq<byte>)
    requires |s| >= 5 && FirstType(s) == 0 && !Complements(s)
    ensures Inflate(ByteBits(s)) == None
  {
    hide ByteBits, Lsb, Inflate, Low16, Complements, FirstType;
    var bits := ByteBits(s);
    TypeBits(s);
    LengthsStand(s);
    ComplementsAdd(s);
    BadLengthHere(bits, Low16(s, 1), Low16(s, 3));
  }

  lemma LengthsStand(s: seq<byte>)
    requires |s| >= 5
    ensures var bits := ByteBits(s);
      && |bits| == 8 * |s| && bits[8..24] == Lsb(Low16(s, 1), 16) && bits[24..40] == Lsb(Low16(s, 3), 16)
      && Low16(s, 1) < 65536 && Low16(s, 3) < 65536
  {
    hide ByteBits, Lsb, Low16;
    TwoBytes(s, 1);
    TwoBytes(s, 3);
  }

  lemma BadLengthHere(bits: Bits, len: nat, nlen: nat)
    requires |bits| % 8 == 0 && |bits| >= 40 && !bits[1] && !bits[2]
    requires len < 65536 && nlen < 65536 && bits[8..24] == Lsb(len, 16) && bits[24..40] == Lsb(nlen, 16)
    requires len + nlen != 65535
    ensures Inflate(bits) == None
  {
    hide Lsb, Inflate, FrontBits, FrontOk;
    SecondByteOn(bits);
    NoFront(bits);
    BadLengthRefused([], bits, len, nlen);
  }

  lemma SecondByteOn(bits: Bits)
    requires |bits| % 8 == 0 && |bits| >= 40
    ensures 3 + (|bits| - 3) % 8 == 8 && bits[3..][|bits[3..]| % 8..] == bits[8..]
    ensures bits[8..][..16] == bits[8..24] && bits[8..][16..32] == bits[24..40] && bits[8..][32..] == bits[40..]
    ensures bits[8..][..32] == bits[8..24] + bits[24..40]
  {
    assert (|bits| - 3) % 8 == 5;
  }

  /** A stream that is one final stored block: the bytes announced, if the complement is right and that
      many bytes are there, and nothing otherwise. */
  lemma StoredExactly(s: seq<byte>)
    requires |s| >= 5 && FirstType(s) == 0 && s[0] % 2 == 1
    ensures Inflate(ByteBits(s)) ==
            if Complements(s) && 5 + Low16(s, 1) <= |s| then Some(s[5..5 + Low16(s, 1)]) else None
  {
    hide ByteBits, Inflate, Low16, Complements;
    if Complements(s) {
      ComplementsAdd(s);
      GoodLengthRead(s, Low16(s, 1));
    } else {
      BadComplementRefused(s);
    }
  }

  lemma BehindFive(s: seq<byte>)
    requires |s| >= 5
    ensures ByteBits(s)[40..] == ByteBits(s[5..])
  {
    assert s == s[..5] + s[5..];
    ByteBitsOfConcat(s[..5], s[5..]);
    hide ByteBits;
  }

  lemma GoodLengthRead(s: seq<byte>, len: nat)
    requires |s| >= 5 && FirstType(s) == 0 && s[0] % 2 == 1 && len == Low16(s, 1) && Low16(s, 3) == 65535 - len
    ensures Inflate(ByteBits(s)) == if 5 + len <= |s| then Some(s[5..5 + len]) else None
  {
    hide ByteBits, Lsb, ReadBytes, ReadStored, ReadBlocks, Low16, FirstType;
    TypeBits(s);
    LengthsStand(s);
    BehindFive(s);
    GoodLengthHere(ByteBits(s), len);
    BytesThere(s[5..], len);
    assert 5 + len <= |s| ==> s[5..][..len] == s[5..5 + len];
    OnlyStored(ByteBits(s), []);
  }

  lemma GoodLengthHere(bits: Bits, len: nat)
    requires |bits| % 8 == 0 && |bits| >= 40 && len <= 65535
    requires bits[8..24] == Lsb(len, 16) && bits[24..40] == Lsb(65535 - len, 16)
    ensures ReadStored(bits[3..], []) == ReadBytes(bits[40..], len, [])
  {
    hide Lsb, ReadBytes, ReadStored, Value;
    SecondByteOn(bits);
    SixteenBits();
    ValueOfLsb(len, 16);
    ValueOfLsb(65535 - len, 16);
    AlignedRead(bits[3..], bits[8..], len, []);
  }

  lemma OnlyStored(bits: Bits, out: seq<byte>)
    requires |bits| >= 3 && !bits[1] && !bits[2]
    ensures ReadStored(bits[3..], out).None? ==> ReadBlocks(bits, out) == None
    ensures ReadStored(bits[3..], out).Some? && bits[0] ==>
            ReadBlocks(bits, out) == Some(ReadStored(bits[3..], out).value.0)
  {
    hide ReadStored, Value;
    TypeZero(bits);
  }

  lemma TypeZero(bits: Bits)
    requires |bits| >= 3 && !bits[1] && !bits[2]
    ensures Value(bits[1..3]) == 0
  {
    assert bits[1..3] == [false, false] && bits[1..3][1..] == [false];
  }

  lemma BytesThere(s: seq<byte>, n: nat)
    ensures n <= |s| ==> ReadBytes(ByteBits(s), n, []) == Some((s[..n], ByteBits(s[n..])))
    ensures n > |s| ==> ReadBytes(ByteBits(s), n, []) == None
  {
    if n <= |s| {
      assert s == s[..n] + s[n..];
      ByteBitsOfConcat(s[..n], s[n..]);
      ReadsBytes(s[..n], ByteBits(s[n..]), []);
      assert [] + s[..n] == s[..n];
    } else if ReadBytes(ByteBits(s), n, []).Some? {
      var bytes := BytesSound(ByteBits(s), n, []);
    }
  }

  // ---------------------------------------------------------------- cut short

  /** Blocks may be followed by whole bytes more. */
  lemma LongerBody(b: Block, out: seq<byte>, rest: Bits, more: Bits)
    requires BlockOk(b, out, rest) && |more| % 8 == 0
    ensures BlockOk(b, out, rest + more) && BlockBody(b, rest) + more == BlockBody(b, rest + more)
  {
    hide FormOk, PiecesOk, HasCode, PiecesBits, LiteralBits, HeaderBits, ByteBits, StoredLengths;
    match b
    case Stored(pad, bytes) =>
      Associates(ByteBits(bytes), rest, more);
      Associates(StoredLengths(|bytes|), ByteBits(bytes) + rest, more);
      Associates(pad, StoredLengths(|bytes|) + (ByteBits(bytes) + rest), more);
    case Fixed(ps) => LongerTokens(ps, FixedLit(), FixedDist(), rest, more);
    case Dynamic(h, lit, dist, ps) =>
      FormShaped(h, lit, dist);
      LongerTokens(ps, lit, dist, rest, more);
      Associates(HeaderBits(h), BodyBits(ps, lit, dist, rest), more);
  }

  lemma LongerTokens(ps: seq<Piece>, lit: seq<nat>, dist: seq<nat>, rest: Bits, more: Bits)
    ensures BodyBits(ps, lit, dist, rest) + more == BodyBits(ps, lit, dist, rest + more)
  {
    hide PiecesBits, LiteralBits;
    Associates(LiteralBits(lit, END_OF_BLOCK), rest, more);
    Associates(PiecesBits(ps, lit, dist), LiteralBits(lit, END_OF_BLOCK) + rest, more);
  }

  lemma Associates(a: Bits, b: Bits, c: Bits)
    ensures a + b + c == a + (b + c)
  {}

  lemma {:induction false} LongerStream(bs: seq<Block>, out: seq<byte>, tail: Bits, more: Bits)
    requires StreamOk(bs, out, tail) && |more| % 8 == 0
    ensures StreamOk(bs, out, tail + more) && StreamBits(bs, tail) + more == StreamBits(bs, tail + more)
    decreases |bs|
  {
    hide BlockOk, BlockBody, BlockOut, BlockHead;
    if bs != [] {
      var rest := StreamBits(bs[1..], tail);
      LongerStream(bs[1..], BlockOut(bs[0], out), tail, more);
      LongerBody(bs[0], out, rest, more);
      Associates(BlockHead(|bs| == 1, KindOf(bs[0])), BlockBody(bs[0], rest), more);
    }
  }

  /** Two readings of the same stream end at the same place. */
  lemma {:induction false} SameTail(bs: seq<Block>, tail: Bits, cs: seq<Block>, tail': Bits, out: seq<byte>)
    requires bs != [] && cs != [] && StreamOk(bs, out, tail) && StreamOk(cs, out, tail')
    requires StreamBits(bs, tail) == StreamBits(cs, tail')
    ensures tail == tail'
    decreases |bs|
  {
    hide BlockOk, BlockBody, BlockOut, BlockHead, ReadBlock;
    var r, r' := StreamBits(bs[1..], tail), StreamBits(cs[1..], tail');
    BlockHeadReads(|bs| == 1, KindOf(bs[0]), BlockBody(bs[0], r));
    BlockHeadReads(|cs| == 1, KindOf(cs[0]), BlockBody(cs[0], r'));
    BlockRead(bs[0], out, r);
    BlockRead(cs[0], out, r');
    if |bs| > 1 {
      SameTail(bs[1..], tail, cs[1..], tail', BlockOut(bs[0], out));
    }
  }

  /** A stream of good blocks, its last byte padded, cut anywhere before its end. */
  lemma CutRefused(s: seq<byte>, bs: seq<Block>, tail: Bits, cut: nat)
    requires Wellformed(bs, tail) && ByteBits(s) == StreamBits(bs, tail) && |tail| < 8 && cut < |s|
    ensures Inflate(ByteBits(s[..cut])) == None
  {
    hide ByteBits, StreamOk, StreamBits, StreamOut, ReadBlocks;
    if Inflate(ByteBits(s[..cut])).Some? {
      var cs, tail' := StreamSound(ByteBits(s[..cut]), []);
      var more := ByteBits(s[cut..]);
      LongerStream(cs, [], tail', more);
      assert s == s[..cut] + s[cut..];
      ByteBitsOfConcat(s[..cut], s[cut..]);
      SameTail(bs, tail, cs, tail' + more, []);
    }
  }

  // ---------------------------------------------------------------- what the compressor wrote, cut

  /** A layout that comes back is a stream of good blocks, whatever stands behind it in whole bytes. */
  lemma FixedStream(inp: seq<byte>, ts: seq<Token>, rest: Bits) returns (bs: seq<Block>)
    requires Spells(inp, ts, |inp|)
    ensures Wellformed(bs, rest) && PlanBits(FixedPlan(ts), inp) + rest == StreamBits(bs, rest)
  {
    hide Spells, SpellsFrom, Codable, TokensBits, HasCode, LiteralBits, ReadTokens, BlockHead, BlockOk, BlockBody;
    var lit, dist := FixedLit(), FixedDist();
    var body := TokensBits(ts, lit, dist) + (LiteralBits(lit, END_OF_BLOCK) + rest);
    assert PlanBits(FixedPlan(ts), inp) + rest == BlockHead(true, 1) + body;
    SpelledWholly(inp, ts);
    forall i: nat | i < |ts| ensures Codable(ts[i], lit, dist) { FixedCodable(inp, ts, i); }
    FixedHasCodes(END_OF_BLOCK);
    ReadsTokens(inp, ts, 0, lit, dist, rest);
    assert inp[..0] == [];
    var b := BlockSound(1, body, []);
    bs := OneBlock(b, body, rest);
  }

  lemma OneBlock(b: Block, body: Bits, rest: Bits) returns (bs: seq<Block>)
    requires BlockOk(b, [], rest) && body == BlockBody(b, rest)
    ensures Wellformed(bs, rest) && StreamBits(bs, rest) == BlockHead(true, KindOf(b)) + body
  {
    hide BlockOk, BlockBody, BlockHead, BlockOut;
    bs := [b];
    assert bs[1..] == [] && StreamBits(bs[1..], rest) == rest;
    assert StreamOk(bs[1..], BlockOut(b, []), rest);
  }

  lemma DynamicStream(inp: seq<byte>, ts: seq<Token>, lit: seq<nat>, dist: seq<nat>, h: Header, rest: Bits)
    returns (bs: seq<Block>)
    requires DynamicOk(inp, ts, lit, dist, h) && !LoneDistance(DistFreq(ts)) && HeaderShaped(h)
    ensures Wellformed(bs, rest) && PlanBits(DynamicPlan(ts, lit, dist, h), inp) + rest == StreamBits(bs, rest)
  {
    var block := DynamicBlock(inp, ts, lit, dist, h, rest);
    hide DynamicOk, LoneDistance, BlockOk, BlockBody, BlockHead, HeaderBits, ReadHeader, ReadTokens;
    var body := HeaderBits(h) + block;
    var b := BlockSound(2, body, []);
    bs := OneBlock(b, body, rest);
  }

  /** The tokens behind the header, and how they are read. */
  lemma DynamicBlock(inp: seq<byte>, ts: seq<Token>, lit: seq<nat>, dist: seq<nat>, h: Header, rest: Bits)
    returns (block: Bits)
    requires DynamicOk(inp, ts, lit, dist, h) && !LoneDistance(DistFreq(ts)) && HeaderShaped(h)
    ensures PlanBits(DynamicPlan(ts, lit, dist, h), inp) + rest == BlockHead(true, 2) + (HeaderBits(h) + block)
    ensures ReadBlock(2, HeaderBits(h) + block, []) == Some((inp, rest))
  {
    forall i: nat | i < |ts| ensures Codable(ts[i], lit[..h.hlit], dist[..h.hdist]) {
      DynamicCodable(inp, ts, lit, dist, h, i);
    }
    DynamicEnds(inp, ts, lit, dist, h);
    OkHeader(inp, ts, lit, dist, h);
    hide *;
    var l, d := lit[..h.hlit], dist[..h.hdist];
    block := TokensBits(ts, l, d) + (LiteralBits(l, END_OF_BLOCK) + rest);
    DynamicBits(inp, ts, lit, dist, h, rest);
    ReadsHeader(h, lit, dist, block);
    assert inp[..0] == [];
    ReadsTokens(inp, ts, 0, l, d, rest);
    DynamicReads(HeaderBits(h) + block, l, d, block);
  }

  lemma OkHeader(inp: seq<byte>, ts: seq<Token>, lit: seq<nat>, dist: seq<nat>, h: Header)
    requires DynamicOk(inp, ts, lit, dist, h)
    ensures HeaderOk(h, lit, dist) && |lit| == NUM_LITERALS && |dist| == NUM_DISTANCES
    ensures forall k :: h.hlit <= k < |lit| ==> lit[k] == 0
    ensures forall k :: h.hdist <= k < |dist| ==> dist[k] == 0
  {}

  lemma DynamicReads(body: Bits, lit: seq<nat>, dist: seq<nat>, block: Bits)
    requires ReadHeader(body) == Some((lit, dist, block))
    ensures ReadBlock(2, body, []) == ReadTokens(lit, dist, block, [])
  {
    hide ReadHeader, ReadTokens;
  }

  lemma DynamicBits(inp: seq<byte>, ts: seq<Token>, lit: seq<nat>, dist: seq<nat>, h: Header, rest: Bits)
    requires DynamicOk(inp, ts, lit, dist, h) && HeaderShaped(h) && h.hlit <= |lit| && h.hdist <= |dist|
    ensures var l, d := lit[..h.hlit], dist[..h.hdist];
      PlanBits(DynamicPlan(ts, lit, dist, h), inp) + rest ==
      BlockHead(true, 2) + (HeaderBits(h) + (TokensBits(ts, l, d) + (LiteralBits(l, END_OF_BLOCK) + rest)))
  {
    OkHeader(inp, ts, lit, dist, h);
    hide DynamicOk, TokensBits, LiteralBits, BlockHead, HeaderBits;
    TokensBitsCut(ts, lit, h.hlit, dist, h.hdist);
    LiteralBitsCut(lit, h.hlit, END_OF_BLOCK);
    var t, e := TokensBits(ts, lit, dist), LiteralBits(lit, END_OF_BLOCK);
    Associates(t, e, rest);
    Associates(HeaderBits(h), t + e, rest);
    Associates(BlockHead(true, 2), HeaderBits(h) + (t + e), rest);
    Associates(BlockHead(true, 2), HeaderBits(h), t + e);
  }

  lemma {:induction false} StoredStream(inp: seq<byte>, out: seq<byte>) returns (bs: seq<Block>)
    ensures bs != [] && StreamOk(bs, out, []) && StoredBits(inp) == StreamBits(bs, [])
    decreases |inp|
  {
    hide BlockHead, BlockOk, BlockBody, StoredBody;
    if |inp| <= 65535 {
      StoredBlock(inp, [], out);
      bs := [Stored(Zeros(5), inp)];
      assert bs[1..] == [] && StoredBody(inp) + [] == StoredBody(inp);
    } else {
      var chunk, rest := inp[..65535], StoredBits(inp[65535..]);
      StoredBitsLength(inp[65535..]);
      StoredBlock(chunk, rest, out);
      var more := StoredStream(inp[65535..], out + chunk);
      bs := [Stored(Zeros(5), chunk)] + more;
      assert bs[1..] == more;
      Associates(BlockHead(false, 0), StoredBody(chunk), rest);
    }
  }

  lemma StoredBlock(bytes: seq<byte>, rest: Bits, out: seq<byte>)
    requires |bytes| <= 65535 && |rest| % 8 == 0
    ensures var b := Stored(Zeros(5), bytes);
      BlockOk(b, out, rest) && BlockOut(b, out) == out + bytes && BlockBody(b, rest) == StoredBody(bytes) + rest
  {
    hide ByteBits, StoredLengths, Zeros;
    Associates(StoredLengths(|bytes|), ByteBits(bytes), rest);
    Associates(Zeros(5), StoredLengths(|bytes|) + ByteBits(bytes), rest);
  }

  lemma PlanStream(plan: Plan, inp: seq<byte>, rest: Bits) returns (bs: seq<Block>)
    requires ValidPlan(plan, inp) && Shaped(plan) && !Lossy(plan) && (plan.StoredPlan? ==> rest == [])
    ensures Wellformed(bs, rest) && PlanBits(plan, inp) + rest == StreamBits(bs, rest)
  {
    hide StoredBits, HeaderBits, BlockBits, BlockHead, Spells, LoneDistance, CompleteOver, DistanceLengths, HeaderOk;
    match plan
    case StoredPlan =>
      bs := StoredStream(inp, []);
      assert StoredBits(inp) + [] == StoredBits(inp);
    case FixedPlan(ts) => bs := FixedStream(inp, ts, rest);
    case DynamicPlan(ts, lit, dist, h) => bs := DynamicStream(inp, ts, lit, dist, h, rest);
  }

  /** Cut anywhere, what `deflate_compress` wrote is refused, not half decoded. */
  lemma CutCompressedRefused(inp: seq<byte>, level: int, out: seq<byte>, result: int, cut: nat)
    requires Emitted(PlanOf(inp, level), inp, out, result) && !Lost(inp, level) && cut < result
    ensures result <= |out| && Inflate(ByteBits(out[..cut])) == None
  {
    hide PlanOf, PlanBits, ValidPlan, Inflate, Lossy, Lost, Zeros, ByteBits, Wellformed, StreamBits;
    var plan := PlanOf(inp, level);
    PlanIsValid(inp, level);
    LostIsLossy(inp, level);
    var pad := Zeros(Padding(|PlanBits(plan, inp)|));
    if plan.StoredPlan? {
      StoredPlanBits(inp);
      StoredBitsLength(inp);
      NoPadding(StoredSize(|inp|));
      assert pad == [];
    }
    var bs := PlanStream(plan, inp, pad);
    CutRefused(out[..result], bs, pad, cut);
    assert out[..result][..cut] == out[..cut];
  }
}
