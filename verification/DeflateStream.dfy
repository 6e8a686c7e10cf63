/** `deflate_compress` of `C-Deflate/src/deflate.c`: the choice of layout, and how far the result
    can be from the input. */
module DeflateStream {
  import opened Options
  import opened DeflateBits
  import opened DeflateTables
  import opened HuffmanCodes
  import opened HuffmanLengths
  import opened Lz77
  import opened Lz77Chains
  import opened SymbolCounts
  import opened DeflateFormat
  import opened DeflateHeader
  import opened DeflateFixed
  import opened DeflatePlan
  import opened DeflateEmit
  import opened DeflateStored
  import opened HeaderEmit
  import opened DeflateDynamic
  import opened DeflatePrepare
  import opened DeflateRoundTrip

  /** `deflate_bound`. */
  function Bound(n: nat): nat {
    n + (n / 65535 + 1) * 5 + 8
  }

  ghost predicate Shaped(plan: Plan) {
    plan.DynamicPlan? ==> HeaderShaped(plan.h)
  }

  /** The layout chosen, given the dynamic candidate: stored unless a compressed block is shorter
      than one stored block would be, and fixed unless dynamic is shorter. */
  function Cheapest(inp: seq<byte>, dyn: Plan): (plan: Plan)
    requires dyn.DynamicPlan? && Shaped(dyn)
    ensures Shaped(plan)
  {
    var fixedCost := |PlanBits(FixedPlan(dyn.ts), inp)|;
    var dynCost := |PlanBits(dyn, inp)|;
    var storedCost := 3 + 32 + |inp| * 8;
    if storedCost <= fixedCost && storedCost <= dynCost then StoredPlan
    else if fixedCost <= dynCost then FixedPlan(dyn.ts)
    else dyn
  }

  /** Levels outside 0..9 mean the default. */
  function LevelOf(level: int): (l: nat)
    ensures l <= 9 && (l == 0 <==> level == 0)
  {
    if level < 0 || level > 9 then DF_LEVEL_DEFAULT else level
  }

  /** The layout `deflate_compress` settles on. */
  function PlanOf(inp: seq<byte>, level: int): (plan: Plan)
    ensures Shaped(plan)
  {
    if inp == [] || level == 0 then StoredPlan
    else Cheapest(inp, DynamicOf(TokensOf(inp, LevelOf(level))))
  }

  lemma CheapestIsValid(inp: seq<byte>, ts: seq<Token>)
    requires inp != [] && Spells(inp, ts, |inp|)
    ensures ValidPlan(Cheapest(inp, DynamicOf(ts)), inp)
  {
    hide Spells, ValidPlan, PlanBits, DynamicOf, Accepted, Writable;
    DynamicIsValid(inp, ts);
    OthersAreValid(inp, ts);
  }

  lemma OthersAreValid(inp: seq<byte>, ts: seq<Token>)
    requires Spells(inp, ts, |inp|)
    ensures ValidPlan(StoredPlan, inp) && ValidPlan(FixedPlan(ts), inp)
  {
    hide Spells;
  }

  lemma PlanIsValid(inp: seq<byte>, level: int)
    ensures ValidPlan(PlanOf(inp, level), inp)
  {
    hide Spells, Cheapest, DynamicOf, TokensOf, LevelOf;
    if inp != [] && level != 0 {
      TokensSpell(inp, LevelOf(level));
      CheapestIsValid(inp, TokensOf(inp, LevelOf(level)));
    }
  }

  /** The inputs, at each level, that do not survive: all matches of the parse share one distance
      symbol, it is not symbol 0, and the dynamic layout is strictly shorter than the other two. */
  ghost predicate Lost(inp: seq<byte>, level: int) {
    && inp != [] && level != 0
    && var ts := TokensOf(inp, LevelOf(level));
    && OneFarSymbol(ts)
    && |PlanBits(DynamicOf(ts), inp)| < |PlanBits(FixedPlan(ts), inp)|
    && |PlanBits(DynamicOf(ts), inp)| < 3 + 32 + |inp| * 8
  }

  /** Losing the input is a matter of its parse and of the three costs. */
  lemma LostIsLossy(inp: seq<byte>, level: int)
    ensures Lost(inp, level) <==> Lossy(PlanOf(inp, level))
  {
    hide PlanBits, TokensOf, DynamicOf, DistFreq, OneFarSymbol, LoneDistance, LevelOf, Cheapest;
    if inp != [] && level != 0 {
      var ts := TokensOf(inp, LevelOf(level));
      LoneMeans(ts);
      DynamicIsChosen(inp, DynamicOf(ts));
    }
  }

  lemma DynamicIsChosen(inp: seq<byte>, dyn: Plan)
    requires dyn.DynamicPlan? && Shaped(dyn)
    ensures Cheapest(inp, dyn).DynamicPlan? ==> Cheapest(inp, dyn) == dyn
    ensures Cheapest(inp, dyn).DynamicPlan? <==>
      |PlanBits(dyn, inp)| < |PlanBits(FixedPlan(dyn.ts), inp)| && |PlanBits(dyn, inp)| < 3 + 32 + |inp| * 8
  {
    hide PlanBits;
  }

  // ---------------------------------------------------------------- how long the output is

  /** The bytes a layout takes, the last one padded. */
  ghost function PlanSize(plan: Plan, inp: seq<byte>): (n: nat)
    requires Shaped(plan)
  {
    (|PlanBits(plan, inp)| + 7) / 8
  }

  lemma {:induction false} StoredSizeBound(n: nat)
    ensures StoredSize(n) <= n + (n / 65535 + 1) * 5
  {
    if n > 65535 {
      StoredSizeBound(n - 65535);
      assert (n - 65535) / 65535 == n / 65535 - 1;
    }
  }

  /** No output is longer than the bound, however the input compresses. */
  lemma SizeBound(inp: seq<byte>, level: int)
    ensures PlanSize(PlanOf(inp, level), inp) <= Bound(|inp|)
  {
    hide PlanBits, StoredSize, DynamicOf, TokensOf, LevelOf;
    if PlanOf(inp, level).StoredPlan? {
      StoredBitsLength(inp);
      StoredSizeBound(|inp|);
      StoredPlanBits(inp);
    }
  }

  /** Headers of stored blocks after the first, which the estimate leaves out. */
  function Unestimated(inp: seq<byte>): nat {
    if inp == [] then 0 else 5 * ((|inp| - 1) / 65535)
  }

  lemma {:induction false} StoredSizeIs(n: nat)
    requires n > 0
    ensures StoredSize(n) == n + 5 + 5 * ((n - 1) / 65535)
  {
    if n > 65535 {
      StoredSizeIs(n - 65535);
      assert (n - 65535 - 1) / 65535 == (n - 1) / 65535 - 1;
    }
  }

  /** The layout is the smallest of the three: exactly so up to 65535 bytes, and beyond, if it is the
      stored one, up to the block headers the estimate leaves out. */
  lemma SmallestIsChosen(inp: seq<byte>, level: int)
    requires inp != [] && level != 0
    ensures var ts, plan := TokensOf(inp, LevelOf(level)), PlanOf(inp, level);
      var size := PlanSize(plan, inp);
      && PlanSize(StoredPlan, inp) == |inp| + 5 + Unestimated(inp)
      && size <= PlanSize(StoredPlan, inp)
      && size <= PlanSize(FixedPlan(ts), inp) + (if plan.StoredPlan? then Unestimated(inp) else 0)
      && size <= PlanSize(DynamicOf(ts), inp) + (if plan.StoredPlan? then Unestimated(inp) else 0)
  {
    hide PlanBits, StoredSize, DynamicOf, TokensOf, LevelOf;
    StoredPlanBits(inp);
    StoredBitsLength(inp);
    StoredSizeIs(|inp|);
  }

  /** And so none is smaller for an input of one stored block. */
  lemma SmallestOfAll(inp: seq<byte>, level: int)
    requires inp != [] && level != 0 && |inp| <= 65535
    ensures var ts, size := TokensOf(inp, LevelOf(level)), PlanSize(PlanOf(inp, level), inp);
      size <= |inp| + 5 && size <= PlanSize(FixedPlan(ts), inp) && size <= PlanSize(DynamicOf(ts), inp)
  {
    hide PlanSize, PlanOf, DynamicOf, TokensOf, LevelOf;
    SmallestIsChosen(inp, level);
  }

  /** Level 0, and nothing to compress: five bytes for each block of at most 65535, at least one block.
      A level out of range compresses as level 6. */
  lemma UncompressedSize(inp: seq<byte>, level: int)
    ensures inp == [] || level == 0 ==> PlanSize(PlanOf(inp, level), inp) == |inp| + 5 + Unestimated(inp)
    ensures level < 0 || level > 9 ==> PlanOf(inp, level) == PlanOf(inp, 6)
  {
    hide PlanBits, DynamicOf, TokensOf, Cheapest;
    StoredPlanBits(inp);
    StoredBitsLength(inp);
    if inp != [] { StoredSizeIs(|inp|); }
  }

  lemma StoredPlanBits(inp: seq<byte>)
    ensures PlanBits(StoredPlan, inp) == StoredBits(inp)
  {}

  // ---------------------------------------------------------------- compression

  /** What the caller gets for a layout: its bits in whole bytes, or an error when they do not fit. */
  ghost predicate Emitted(plan: Plan, inp: seq<byte>, out: seq<byte>, result: int)
    requires Shaped(plan)
  {
    if PlanSize(plan, inp) > |out| then result == DF_ERR_OUTPUT
    else
      && result == PlanSize(plan, inp)
      && ByteBits(out[..result]) == PlanBits(plan, inp) + Zeros(Padding(|PlanBits(plan, inp)|))
  }

  method Conclude(w: BitWriter, ghost plan: Plan, ghost inp: seq<byte>) returns (result: int)
    requires w.Valid() && Shaped(plan) && w.written == PlanBits(plan, inp)
    modifies w, w.out
    ensures Emitted(plan, inp, w.out[..], result)
  {
    hide PlanBits, ByteBits, Zeros;
    ghost var n := |w.written|;
    var size := w.Finish();
    result := if w.overflow then DF_ERR_OUTPUT else size;
    PaddedSize(n);
    assert w.out[..][..size] == w.out[..size];
  }

  lemma PaddedSize(n: nat)
    ensures n + Padding(n) == 8 * ((n + 7) / 8)
  {}

  method CompressTokens(w: BitWriter, inp: seq<byte>, ts: seq<Token>)
    requires w.Valid() && w.written == [] && inp != [] && Spells(inp, ts, |inp|)
    modifies w, w.out
    ensures w.Valid() && w.written == PlanBits(Cheapest(inp, DynamicOf(ts)), inp)
  {
    hide Spells, CodesFor, Accepted, StoredBits, BlockBits, HeaderBits, BlockHead, ValidPlan, DynamicOf, Sized,
         Writable,
         Optimal, TreeDepth, Used;
    SpelledSized(inp, ts);
    FixedLitAccepted();
    FixedDistAccepted();
    var fixLit, fixDist := FixedLit(), FixedDist();
    var fixedBits := TokenCost(ts, fixLit, fixDist);
    fixedBits := 3 + fixedBits;

    var lit, dist, h := PrepareDynamic(inp, ts);
    WritableShaped(h);
    var headerBits := HeaderCost(h);
    var dynamicBits := TokenCost(ts, lit, dist);
    dynamicBits := headerBits + dynamicBits;
    var storedBits := 3 + 32 + |inp| * 8;

    if storedBits <= fixedBits && storedBits <= dynamicBits {
      EmitAllStored(w, inp);
    } else if fixedBits <= dynamicBits {
      EmitFixed(w, ts, fixLit, fixDist);
    } else {
      EmitDynamic(w, ts, lit, dist, h);
    }
  }

  method EmitFixed(w: BitWriter, ts: seq<Token>, lit: seq<nat>, dist: seq<nat>)
    requires w.Valid() && w.written == [] && lit == FixedLit() && dist == FixedDist()
    requires forall i :: 0 <= i < |ts| ==> Sized(ts[i])
    modifies w, w.out
    ensures w.Valid() && w.written == BlockHead(true, 1) + BlockBits(ts, lit, dist)
  {
    hide BlockBits, FixedLit, FixedDist, CodesFor, Accepted, Sized, Lsb;
    FixedLitAccepted();
    FixedDistAccepted();
    var litCodes := CodesOf(lit);
    var distCodes := CodesOf(dist);
    EmitBlockHead(w, 1);
    EmitTokens(w, ts, lit, litCodes, dist, distCodes);
  }

  method EmitDynamic(w: BitWriter, ts: seq<Token>, lit: seq<nat>, dist: seq<nat>, h: Header)
    requires w.Valid() && w.written == [] && Writable(h) && Accepted(lit) && Accepted(dist) && Accepted(h.cl)
    requires |lit| == NUM_LITERALS && |dist| == NUM_DISTANCES
    requires forall i :: 0 <= i < |ts| ==> Sized(ts[i])
    modifies w, w.out
    ensures HeaderShaped(h)
    ensures w.Valid() && w.written == BlockHead(true, 2) + HeaderBits(h) + BlockBits(ts, lit, dist)
  {
    hide BlockBits, HeaderBits, CodesFor, Accepted, Sized, Lsb, BlockHead;
    var litCodes := CodesOf(lit);
    var distCodes := CodesOf(dist);
    var clCodes := CodesOf(h.cl);
    EmitBlockHead(w, 2);
    EmitHeader(w, h, clCodes);
    EmitTokens(w, ts, lit, litCodes, dist, distCodes);
  }

  /** BFINAL and BTYPE. */
  method EmitBlockHead(w: BitWriter, kind: nat)
    requires w.Valid()
    modifies w, w.out
    ensures w.Valid() && w.written == old(w.written) + BlockHead(true, kind)
  {
    hide Lsb;
    w.PutBits(1, 1);
    w.PutBits(kind, 2);
  }

  lemma WritableShaped(h: Header)
    requires Writable(h)
    ensures HeaderShaped(h)
  {}

  lemma {:induction false} SpelledSized(inp: seq<byte>, ts: seq<Token>)
    requires Spells(inp, ts, |inp|)
    ensures forall i :: 0 <= i < |ts| ==> Sized(ts[i])
  {
    SpelledSizedTo(inp, ts, |inp|);
  }

  lemma {:induction false} SpelledSizedTo(inp: seq<byte>, ts: seq<Token>, p: nat)
    requires Spells(inp, ts, p)
    ensures forall i :: 0 <= i < |ts| ==> Sized(ts[i])
  {
    if ts != [] {
      var n := |ts| - 1;
      SpelledSizedTo(inp, ts[..n], p - Size(ts[n]));
      forall i | 0 <= i < |ts| ensures Sized(ts[i]) {
        if i < n { assert ts[..n][i] == ts[i]; }
      }
    }
  }

  /** `deflate_compress`: the layout the level and the costs settle on, whole, or an error. */
  method Compress(inp: seq<byte>, out: array<byte>, level: int) returns (result: int)
    modifies out
    ensures Emitted(PlanOf(inp, level), inp, out[..], result)
  {
    hide Spells, PlanBits, Shaped, Emitted, TokensOf, DynamicOf, Cheapest;
    var lvl := if level < 0 || level > 9 then DF_LEVEL_DEFAULT else level;
    var w := new BitWriter(out);
    if inp == [] {
      EmitStored(w, inp, true);
      EmptyStored(w.written);
    } else if lvl == DF_LEVEL_STORE {
      EmitAllStored(w, inp);
      StoredPlanBits(inp);
    } else {
      var tokens := Parse(inp, lvl);
      TokensSpell(inp, lvl);
      CompressTokens(w, inp, tokens);
    }
    result := Conclude(w, PlanOf(inp, level), inp);
  }

  lemma EmptyStored(bits: Bits)
    requires bits == [] + (BlockHead(true, 0) + StoredBody([]))
    ensures bits == PlanBits(StoredPlan, [])
  {
    hide BlockHead, StoredBody;
    StoredPlanBits([]);
  }

  // ---------------------------------------------------------------- round trip

  /** What the compressed bytes decompress to. */
  lemma EmittedRoundTrip(inp: seq<byte>, level: int, out: seq<byte>, result: int)
    requires Emitted(PlanOf(inp, level), inp, out, result) && result >= 0
    ensures result <= |out| && (Inflate(ByteBits(out[..result])) == Some(inp) <==> !Lost(inp, level))
  {
    hide PlanOf, PlanBits, ValidPlan, Inflate, Lossy, Lost, Zeros, ByteBits, StoredBits, Padding;
    PlanIsValid(inp, level);
    LostIsLossy(inp, level);
    var plan := PlanOf(inp, level);
    var pad := Zeros(Padding(|PlanBits(plan, inp)|));
    if plan.StoredPlan? {
      StoredPlanBits(inp);
      StoredBitsLength(inp);
      NoPadding(StoredSize(|inp|));
    }
    RoundTripExactly(plan, inp, pad);
  }

  lemma NoPadding(n: nat)
    ensures Padding(8 * n) == 0
  {}
}
