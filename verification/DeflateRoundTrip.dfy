/** Round trip, exactly: a stream laid out by a valid plan decompresses to the input if and only if
    the plan is not the one dynamic layout that leaves its only distance symbol without a code. */
module DeflateRoundTrip {
  import opened Options
  import opened Arithmetic
  import opened DeflateBits
  import opened DeflateTables
  import opened HuffmanCodes
  import opened HuffmanLengths
  import opened CodeLengths
  import opened Lz77
  import opened SymbolCounts
  import opened DeflateFormat
  import opened DeflateEncoding
  import opened DeflateHeader
  import opened DeflatePlan

  // ---------------------------------------------------------------- layouts that come back

  lemma LitHasCode(ts: seq<Token>, lit: seq<nat>, n: nat, sym: nat)
    requires CompleteOver(LitFreq(ts), lit, MAX_CODE_BITS) && sym < NUM_LITERALS && LitFreq(ts)[sym] > 0
    requires n <= |lit| && forall k :: n <= k < |lit| ==> lit[k] == 0
    ensures HasCode(lit[..n], sym)
  {
    CompleteHasCode(LitFreq(ts), lit, n, sym);
  }

  /** Only symbol 0 has a code, and it is the only distance that occurs. */
  lemma NearHasCode(dist: seq<nat>, n: nat)
    requires dist == FirstBit() && Accepted(dist) && n <= |dist| && forall k :: n <= k < |dist| ==> dist[k] == 0
    ensures HasCode(dist[..n], 0)
  {
    hide Accepted, HasCode;
    HasCodeCut(dist, n, 0);
  }

  lemma OnlyUsed(freq: seq<nat>, x: nat)
    requires |Used(freq)| < 2 && !LoneDistance(freq) && x < |freq| && freq[x] > 0
    ensures x == 0
  {
    UsedIsUsed(freq, x);
    hide Used;
    assert Used(freq) == [Used(freq)[0]];
  }

  /** With another distance in use, or none but symbol 0, every distance that occurs has a code. */
  lemma DistHasCode(ts: seq<Token>, dist: seq<nat>, n: nat, i: nat)
    requires DistanceLengths(DistFreq(ts), dist) && !LoneDistance(DistFreq(ts))
    requires |dist| == NUM_DISTANCES && Accepted(dist)
    requires n <= |dist| && forall k :: n <= k < |dist| ==> dist[k] == 0
    requires i < |ts| && ts[i].Match?
    ensures HasCode(dist[..n], DistanceCode(ts[i].distance))
  {
    hide Accepted, HasCode, DistFreq, DistanceCode, CompleteOver, Used, LoneDistance, FirstBit;
    DistFreqUsed(ts, i);
    if |Used(DistFreq(ts))| >= 2 {
      CompleteHasCode(DistFreq(ts), dist, n, DistanceCode(ts[i].distance));
    } else {
      OnlyUsed(DistFreq(ts), DistanceCode(ts[i].distance));
      NearHasCode(dist, n);
    }
  }

  ghost predicate DynamicOk(inp: seq<byte>, ts: seq<Token>, lit: seq<nat>, dist: seq<nat>, h: Header) {
    ValidPlan(DynamicPlan(ts, lit, dist, h), inp)
  }

  lemma DynamicCodable(inp: seq<byte>, ts: seq<Token>, lit: seq<nat>, dist: seq<nat>, h: Header, i: nat)
    requires DynamicOk(inp, ts, lit, dist, h) && !LoneDistance(DistFreq(ts)) && i < |ts|
    ensures Codable(ts[i], lit[..h.hlit], dist[..h.hdist])
  {
    hide Spells, CompleteOver, DistanceLengths, LoneDistance, HasCode, Accepted, ItemsOk, ItemsCodable, ClCodeOk,
         Unpack;
    LitFreqUsed(ts, i);
    LitHasCode(ts, lit, h.hlit, LitSymbol(ts[i]));
    if ts[i].Match? { DistHasCode(ts, dist, h.hdist, i); }
  }

  /** The block after its header, as the decoder sees it: with the codes cut to their sizes. */
  lemma DynamicBody(inp: seq<byte>, ts: seq<Token>, lit: seq<nat>, dist: seq<nat>, h: Header, rest: Bits)
    requires DynamicOk(inp, ts, lit, dist, h)
    ensures ReadBlocks(PlanBits(DynamicPlan(ts, lit, dist, h), inp) + rest, []) ==
      match ReadTokens(lit[..h.hlit], dist[..h.hdist],
                       TokensBits(ts, lit[..h.hlit], dist[..h.hdist]) +
                         (LiteralBits(lit[..h.hlit], END_OF_BLOCK) + rest), [])
      case None => None
      case Some((out, _)) => Some(out)
  {
    hide Spells, CompleteOver, DistanceLengths, Accepted, ItemsOk, ItemsCodable, Unpack;
    hide HeaderBits, TokensBits, LiteralBits, ReadTokens, BlockHead, ReadHeader, Value;
    var l, d := lit[..h.hlit], dist[..h.hdist];
    TokensBitsCut(ts, lit, h.hlit, dist, h.hdist);
    LiteralBitsCut(lit, h.hlit, END_OF_BLOCK);
    var block := TokensBits(ts, l, d) + (LiteralBits(l, END_OF_BLOCK) + rest);
    var body := HeaderBits(h) + block;
    ReadsHeader(h, lit, dist, block);
    assert PlanBits(DynamicPlan(ts, lit, dist, h), inp) + rest == BlockHead(true, 2) + body;
    BlockHeadReads(true, 2, body);
  }

  lemma ReadsDynamic(inp: seq<byte>, ts: seq<Token>, lit: seq<nat>, dist: seq<nat>, h: Header, rest: Bits)
    requires DynamicOk(inp, ts, lit, dist, h) && !LoneDistance(DistFreq(ts))
    ensures ReadBlocks(PlanBits(DynamicPlan(ts, lit, dist, h), inp) + rest, []) == Some(inp)
  {
    DynamicBody(inp, ts, lit, dist, h, rest);
    forall i: nat | i < |ts| ensures Codable(ts[i], lit[..h.hlit], dist[..h.hdist]) {
      DynamicCodable(inp, ts, lit, dist, h, i);
    }
    DynamicEnds(inp, ts, lit, dist, h);
    hide DynamicOk, LoneDistance, Codable, HasCode, TokensBits, LiteralBits, ReadTokens, ReadBlocks, PlanBits,
         SpellsFrom;
    assert inp[..0] == [];
    ReadsTokens(inp, ts, 0, lit[..h.hlit], dist[..h.hdist], rest);
  }

  lemma DynamicEnds(inp: seq<byte>, ts: seq<Token>, lit: seq<nat>, dist: seq<nat>, h: Header)
    requires DynamicOk(inp, ts, lit, dist, h)
    ensures SpellsFrom(inp, ts, 0) && h.hlit <= |lit| && h.hdist <= |dist|
    ensures HasCode(lit[..h.hlit], END_OF_BLOCK)
  {
    hide Spells, CompleteOver, DistanceLengths, HasCode, Accepted, ItemsOk, ItemsCodable, ClCodeOk, Unpack;
    SpelledWholly(inp, ts);
    LitFreqUsed(ts, 0);
    LitHasCode(ts, lit, h.hlit, END_OF_BLOCK);
  }

  // ---------------------------------------------------------------- layouts that do not

  /** The only symbol this code can yield is 0. */
  ghost predicate OnlyZero(dist: seq<nat>) {
    forall i :: 0 < i < |dist| ==> dist[i] == 0
  }

  /** A copy at distance 1 repeats the last byte. */
  lemma {:induction false} CopyIsRun(out: seq<byte>, length: nat)
    requires out != []
    ensures var c := Copy(out, length, 1);
      |c| == |out| + length && forall i :: |out| <= i < |c| ==> c[i] == c[i - 1]
    decreases length
  {
    if length > 0 {
      var out' := out + [out[|out| - 1]];
      CopyIsRun(out', length - 1);
      var c := Copy(out, length, 1);
      assert c[..|out'|] == out';
      assert c[|out|] == out'[|out|] && c[|out| - 1] == out'[|out| - 1];
    }
  }

  /** Reading a match with such a code yields distance 1, if anything. */
  lemma ReadsDistanceOne(lc: nat, lx: nat, dist: seq<nat>, bits: Bits, written: nat)
    requires lc < 29 && lx < Pow2(LengthExtra(lc)) && OnlyZero(dist)
    ensures var r := ReadMatch(lc, dist, Lsb(lx, LengthExtra(lc)) + bits, written);
      r.Some? ==> r.value.0 == LengthBase(lc) + lx && r.value.1 == 1
  {
    TakeBack(lx, LengthExtra(lc), bits);
    assert DistBase(0) == 1 && DistExtra(0) == 0;
  }

  /** So at the first match the decoder either fails or departs from the input. */
  lemma MatchGoesWrong(inp: seq<byte>, p: nat, length: nat, distance: nat, lit: seq<nat>, dist: seq<nat>, rest: Bits)
    requires MatchOk(inp, p, length, distance) && distance != 1
    requires HasCode(lit, 257 + LengthCode(length)) && OnlyZero(dist)
    ensures p + length <= |inp|
    ensures var r := ReadTokens(lit, dist, MatchHead(lit, length) + rest, inp[..p]);
      r.Some? ==> r.value.0 != inp
  {
    hide LengthBase, LengthExtra, LengthCode, SymbolBits, DecodeSymbol, Lsb, Pow2, ReadMatch;
    var lc := LengthCode(length);
    LengthCovered(length);
    var lx := length - LengthBase(lc);
    var after := Lsb(lx, LengthExtra(lc)) + rest;
    assert MatchHead(lit, length) + rest == SymbolBits(lit, 257 + lc) + after;
    DecodeReadsBack(lit, 257 + lc, after);
    ReadsDistanceOne(lc, lx, dist, rest, p);
    var r := ReadMatch(lc, dist, after, p);
    if r.Some? {
      DepartsFromInput(inp, p, length, lit, dist, r.value.2);
    }
  }

  lemma DepartsFromInput(inp: seq<byte>, p: nat, length: nat, lit: seq<nat>, dist: seq<nat>, bits: Bits)
    requires 1 <= p && p + length <= |inp| && !Run(inp, p, length)
    ensures var r := ReadTokens(lit, dist, bits, Copy(inp[..p], length, 1));
      r.Some? ==> r.value.0 != inp
  {
    var c := Copy(inp[..p], length, 1);
    CopyIsRun(inp[..p], length);
    var i :| p <= i < p + length && inp[i] != inp[i - 1];
    hide ReadTokens, Copy;
    if ReadTokens(lit, dist, bits, c).Some? {
      OutputGrows(lit, dist, bits, c);
      var o := ReadTokens(lit, dist, bits, c).value.0;
      assert o[i] == c[i] && o[i - 1] == c[i - 1];
    }
  }

  lemma {:induction false} LoneDistanceGoesWrong(
    inp: seq<byte>, ts: seq<Token>, p: nat, lit: seq<nat>, dist: seq<nat>, rest: Bits, k: nat)
    requires p <= |inp| && SpellsFrom(inp, ts, p) && OnlyZero(dist)
    requires k < |ts| && ts[k].Match?
    requires forall i :: 0 <= i < |ts| ==> HasCode(lit, LitSymbol(ts[i])) && (ts[i].Match? ==> ts[i].distance != 1)
    ensures var r := ReadTokens(lit, dist, TokensBits(ts, lit, dist) + rest, inp[..p]);
      r.Some? ==> r.value.0 != inp
    decreases |ts|
  {
    hide HasCode, MatchHead, MatchTail, MatchOk, ReadTokens, LiteralBits, LengthCode, OnlyZero;
    var after := TokensBits(ts[1..], lit, dist) + rest;
    assert HasCode(lit, LitSymbol(ts[0]));
    match ts[0] {
      case Literal(b) =>
        assert TokensBits(ts, lit, dist) + rest == TokenBits(ts[0], lit, dist) + after;
        ReadsLiteral(inp, p, b, lit, dist, after);
        LoneDistanceGoesWrong(inp, ts[1..], p + 1, lit, dist, rest, k - 1);
      case Match(length, distance) =>
        var tail := MatchTail(dist, distance) + after;
        assert TokensBits(ts, lit, dist) + rest == MatchHead(lit, length) + tail;
        MatchGoesWrong(inp, p, length, distance, lit, dist, tail);
    }
  }

  lemma FarDistance(distance: nat)
    requires DistanceCode(distance) != 0
    ensures distance != 1
  {
    assert DIST_BASE[1] == 2;
    assert forall c :: 1 <= c < 30 ==> DIST_BASE[c] >= 2;
  }

  lemma LoneDistanceFacts(ts: seq<Token>) returns (k: nat)
    requires LoneDistance(DistFreq(ts))
    ensures k < |ts| && ts[k].Match?
    ensures forall i :: 0 <= i < |ts| && ts[i].Match? ==> ts[i].distance != 1
  {
    var u := Used(DistFreq(ts));
    UsedIsUsed(DistFreq(ts), u[0]);
    k := DistFreqComes(ts, u[0]);
    forall i | 0 <= i < |ts| && ts[i].Match? ensures ts[i].distance != 1 {
      DistFreqUsed(ts, i);
      UsedIsUsed(DistFreq(ts), DistanceCode(ts[i].distance));
      FarDistance(ts[i].distance);
    }
  }

  lemma LoneDynamic(inp: seq<byte>, ts: seq<Token>, lit: seq<nat>, dist: seq<nat>, h: Header, rest: Bits)
    requires DynamicOk(inp, ts, lit, dist, h) && LoneDistance(DistFreq(ts))
    ensures ReadBlocks(PlanBits(DynamicPlan(ts, lit, dist, h), inp) + rest, []) != Some(inp)
  {
    hide DynamicOk, LoneDistance, HasCode, TokensBits, LiteralBits, ReadTokens, ReadBlocks, PlanBits, SpellsFrom,
         OnlyZero;
    hide LitSymbol;
    DynamicBody(inp, ts, lit, dist, h, rest);
    DynamicEnds(inp, ts, lit, dist, h);
    LoneCodes(inp, ts, lit, dist, h);
    var k := LoneDistanceFacts(ts);
    assert inp[..0] == [];
    LoneDistanceGoesWrong(inp, ts, 0, lit[..h.hlit], dist[..h.hdist],
                          LiteralBits(lit[..h.hlit], END_OF_BLOCK) + rest, k);
  }

  lemma LoneCodes(inp: seq<byte>, ts: seq<Token>, lit: seq<nat>, dist: seq<nat>, h: Header)
    requires DynamicOk(inp, ts, lit, dist, h) && LoneDistance(DistFreq(ts))
    ensures OnlyZero(dist[..h.hdist])
    ensures forall i :: 0 <= i < |ts| ==> HasCode(lit[..h.hlit], LitSymbol(ts[i]))
  {
    hide Spells, CompleteOver, HasCode, Accepted, ItemsOk, ItemsCodable, ClCodeOk, Unpack, LitSymbol;
    forall i: nat | i < |ts| ensures HasCode(lit[..h.hlit], LitSymbol(ts[i])) {
      LitFreqUsed(ts, i);
      LitHasCode(ts, lit, h.hlit, LitSymbol(ts[i]));
    }
  }

  /** Round trip holds for every valid layout but the lossy one, and fails for that one always. */
  lemma RoundTripExactly(plan: Plan, inp: seq<byte>, rest: Bits)
    requires ValidPlan(plan, inp) && (plan.StoredPlan? ==> rest == [])
    ensures Inflate(PlanBits(plan, inp) + rest) == Some(inp) <==> !Lossy(plan)
  {
    hide ReadBlocks;
    match plan
    case StoredPlan =>
      ReadsStoredBits(inp, []);
      assert StoredBits(inp) + [] == StoredBits(inp) && [] + inp == inp;
    case FixedPlan(ts) =>
      ReadsFixed(inp, ts, rest);
    case DynamicPlan(ts, lit, dist, h) =>
      if LoneDistance(DistFreq(ts)) {
        LoneDynamic(inp, ts, lit, dist, h, rest);
      } else {
        ReadsDynamic(inp, ts, lit, dist, h, rest);
      }
  }
}
