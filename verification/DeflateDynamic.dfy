/** The dynamic candidate of `deflate_compress` in `C-Deflate/src/deflate.c`, as a function of the
    tokens: its codes, its header, and why it is a valid layout. */
module DeflateDynamic {
  import opened DeflateBits
  import opened DeflateTables
  import opened HuffmanCodes
  import opened HuffmanKraft
  import opened HuffmanDepth
  import opened HuffmanLengths
  import opened CodeLengths
  import opened Lz77
  import opened SymbolCounts
  import opened DeflateEncoding
  import opened DeflateHeader
  import opened DeflatePlan
  import opened HeaderEmit

  // ---------------------------------------------------------------- literals and distances

  function LitLengthsOf(freq: seq<nat>): (ls: seq<nat>)
    requires |freq| == NUM_LITERALS
    ensures |ls| == NUM_LITERALS
  {
    AlphabetsFit(|freq|);
    CodeFor(freq, MAX_CODE_BITS)
  }

  /** At least one distance code is always transmitted. */
  function DistLengthsOf(freq: seq<nat>): (ls: seq<nat>)
    requires |freq| == NUM_DISTANCES
    ensures |ls| == NUM_DISTANCES
  {
    AlphabetsFit(|freq|);
    var ls := CodeFor(freq, MAX_CODE_BITS);
    if exists i :: 0 <= i < |ls| && ls[i] > 0 then ls else ls[0 := 1]
  }

  lemma UsedHasLength(freq: seq<nat>, ls: seq<nat>, x: nat)
    requires CompleteOver(freq, ls, MAX_CODE_BITS) && x < |freq| && freq[x] > 0
    ensures |ls| == |freq| && ls[x] > 0
  {}

  lemma CompleteIsSome(freq: seq<nat>, ls: seq<nat>)
    requires Limited(freq, ls, MAX_CODE_BITS)
    ensures |Used(freq)| >= 2 ==> exists i :: 0 <= i < |ls| && ls[i] > 0
  {
    if |Used(freq)| >= 2 {
      UsedIsUsed(freq, Used(freq)[0]);
      UsedHasLength(freq, ls, Used(freq)[0]);
    }
  }

  lemma LitComplete(ts: seq<Token>)
    requires ts != []
    ensures var lit := LitLengthsOf(LitFreq(ts));
      CompleteOver(LitFreq(ts), lit, MAX_CODE_BITS) && lit[END_OF_BLOCK] > 0
  {
    hide LitFreq, CompleteOver, LitSymbol, CodeFor;
    LitFreqUsed(ts, 0);
    TwoUsed(LitFreq(ts), END_OF_BLOCK, LitSymbol(ts[0]));
    AlphabetsFit(|LitFreq(ts)|);
    CodeIsLimited(LitFreq(ts), MAX_CODE_BITS);
    UsedHasLength(LitFreq(ts), LitLengthsOf(LitFreq(ts)), END_OF_BLOCK);
  }

  lemma DistOk(freq: seq<nat>)
    requires |freq| == NUM_DISTANCES
    ensures DistanceLengths(freq, DistLengthsOf(freq))
  {
    hide CompleteOver, CodeFor;
    AlphabetsFit(|freq|);
    var ls := CodeFor(freq, MAX_CODE_BITS);
    CodeIsLimited(freq, MAX_CODE_BITS);
    CompleteIsSome(freq, ls);
    assert |Used(freq)| < 2 ==> DistLengthsOf(freq) == FirstBit();
  }

  lemma DistanceAccepted(freq: seq<nat>, dist: seq<nat>)
    requires |freq| == NUM_DISTANCES && DistanceLengths(freq, dist)
    ensures |dist| == NUM_DISTANCES && Accepted(dist)
  {
    if |Used(freq)| >= 2 {
      CompleteIsAccepted(freq, dist, MAX_CODE_BITS);
    } else {
      FirstBitIsAccepted(dist);
    }
  }

  /** How many symbols to transmit: unused ones at the end are dropped, down to `least`. */
  function Trimmed(s: seq<nat>, least: nat, n: nat): (t: nat)
    requires least <= n <= |s|
    ensures least <= t <= n && (t > least ==> s[t - 1] != 0)
    ensures forall i :: t <= i < n ==> s[i] == 0
  {
    if n > least && s[n - 1] == 0 then Trimmed(s, least, n - 1) else n
  }

  // ---------------------------------------------------------------- the code-length code

  function ItemFreq(items: seq<Item>): (s: seq<nat>)
    ensures |s| == NUM_CODELEN
  {
    if items == [] then Copies(0, NUM_CODELEN)
    else
      var s := ItemFreq(items[..|items| - 1]);
      var sym := items[|items| - 1].sym;
      if sym < NUM_CODELEN then Bump(s, sym) else s
  }

  lemma {:induction false} ItemFreqUsed(items: seq<Item>, i: nat)
    requires i < |items| && items[i].sym < NUM_CODELEN
    ensures ItemFreq(items)[items[i].sym] > 0
  {
    var n := |items| - 1;
    if i < n { ItemFreqUsed(items[..n], i); }
  }

  function ClLengthsOf(items: seq<Item>): (cl: seq<nat>)
    ensures |cl| == NUM_CODELEN
  {
    AlphabetsFit(|ItemFreq(items)|);
    CodeFor(ItemFreq(items), MAX_CL_BITS)
  }

  /** How many of the code-length lengths to transmit, in their own order. */
  function ClTrimmed(cl: seq<nat>, n: nat): (t: nat)
    requires |cl| == NUM_CODELEN && 4 <= n <= NUM_CODELEN
    ensures 4 <= t <= n && (t > 4 ==> cl[Order(t - 1)] != 0)
    ensures forall i :: t <= i < n ==> cl[Order(i)] == 0
  {
    if n > 4 && cl[Order(n - 1)] == 0 then ClTrimmed(cl, n - 1) else n
  }

  /** Items all of one symbol spell a constant sequence of lengths. */
  lemma {:induction false} OneSymbolSpells(items: seq<Item>, s: nat)
    requires s != 16 && forall i :: 0 <= i < |items| ==> items[i].sym == s
    ensures Constant(Unpack(items), 0, |Unpack(items)|, if s < 16 then s else 0)
  {
    if items != [] {
      OneSymbolSpells(items[..|items| - 1], s);
    }
  }

  /** Two different code-length symbols always occur, so the code-length code is never degenerate. */
  lemma TwoSymbols(items: seq<Item>, ls: seq<nat>) returns (k: nat)
    requires ItemsOk(items) && Unpack(items) == ls && |ls| >= 4 && (exists i :: 0 <= i < |ls| && ls[i] > 0)
    requires ls[0] > 0 && Constant(ls, 0, |ls|, ls[0]) ==> |items| >= 2 && items[1].sym == 16
    ensures k < |items| && items[k].sym != items[0].sym
  {
    var s := items[0].sym;
    if forall i :: 0 <= i < |items| ==> items[i].sym == s {
      OneSymbolSpells(items, s);
      assert false;
    } else {
      k :| 0 <= k < |items| && items[k].sym != s;
    }
  }

  lemma ClOk(items: seq<Item>, ls: seq<nat>)
    requires ItemsOk(items) && Unpack(items) == ls && |ls| >= 4 && (exists i :: 0 <= i < |ls| && ls[i] > 0)
    requires ls[0] > 0 && Constant(ls, 0, |ls|, ls[0]) ==> |items| >= 2 && items[1].sym == 16
    ensures var cl := ClLengthsOf(items);
      ItemsCodable(items, cl) && Accepted(cl) && forall j :: 0 <= j < NUM_CODELEN ==> cl[j] < 8
  {
    hide Unpack, ItemFreq, Accepted, Constant, CompleteOver, HasCode, FitsLimit, CodeFor;
    var k := TwoSymbols(items, ls);
    ItemFreqUsed(items, 0);
    ItemFreqUsed(items, k);
    var freq := ItemFreq(items);
    TwoUsed(freq, items[0].sym, items[k].sym);
    AlphabetsFit(|freq|);
    CodeIsLimited(freq, MAX_CL_BITS);
    ShortLengths(freq, ClLengthsOf(items));
    ItemsHaveCodes(items, ClLengthsOf(items));
  }

  lemma ShortLengths(freq: seq<nat>, cl: seq<nat>)
    requires CompleteOver(freq, cl, MAX_CL_BITS)
    ensures Accepted(cl) && |cl| == |freq| && forall j :: 0 <= j < |cl| ==> cl[j] < 8
  {
    CompleteIsAccepted(freq, cl, MAX_CL_BITS);
  }

  lemma ItemsHaveCodes(items: seq<Item>, cl: seq<nat>)
    requires ItemsOk(items) && CompleteOver(ItemFreq(items), cl, MAX_CL_BITS)
    ensures ItemsCodable(items, cl)
  {
    CompleteIsAccepted(ItemFreq(items), cl, MAX_CL_BITS);
    forall i | 0 <= i < |items| ensures HasCode(cl, items[i].sym) {
      ItemFreqUsed(items, i);
      hide ItemFreq, Accepted;
      AcceptedHasCode(cl, items[i].sym);
    }
  }

  // ---------------------------------------------------------------- the whole candidate

  /** The header for two codes. */
  function HeaderOf(lit: seq<nat>, dist: seq<nat>): (h: Header)
    requires |lit| == NUM_LITERALS && |dist| == NUM_DISTANCES
    ensures HeaderShaped(h)
  {
    var hlit := Trimmed(lit, 257, |lit|);
    var hdist := Trimmed(dist, 1, |dist|);
    var items := ItemsOf(lit[..hlit] + dist[..hdist]);
    var cl := ClLengthsOf(items);
    Header(hlit, hdist, ClTrimmed(cl, NUM_CODELEN), cl, items)
  }

  lemma HeaderIsOk(lit: seq<nat>, dist: seq<nat>)
    requires |lit| == NUM_LITERALS && |dist| == NUM_DISTANCES && Accepted(lit) && Accepted(dist)
    requires lit[END_OF_BLOCK] > 0
    ensures HeaderOk(HeaderOf(lit, dist), lit, dist)
  {
    hide Unpack, Left, ItemOk, HasCode, Constant, ItemsOf, ItemsOk, ItemsCodable, ClLengthsOf, ClTrimmed, Order;
    var h := HeaderOf(lit, dist);
    var combined := lit[..h.hlit] + dist[..h.hdist];
    assert combined[END_OF_BLOCK] > 0;
    ItemsUnpack(combined);
    if combined[0] > 0 && Constant(combined, 0, |combined|, combined[0]) { ConstantRepeats(combined); }
    ClOk(h.items, combined);
  }

  lemma HeaderWritable(h: Header, lit: seq<nat>, dist: seq<nat>)
    requires HeaderOk(h, lit, dist)
    ensures Writable(h)
  {}

  /** The dynamic layout for these tokens. */
  function DynamicOf(ts: seq<Token>): (dyn: Plan)
    ensures dyn.DynamicPlan? && dyn.ts == ts && HeaderShaped(dyn.h)
    ensures |dyn.lit| == NUM_LITERALS && |dyn.dist| == NUM_DISTANCES
  {
    var lit, dist := LitLengthsOf(LitFreq(ts)), DistLengthsOf(DistFreq(ts));
    DynamicPlan(ts, lit, dist, HeaderOf(lit, dist))
  }

  /** Whatever the tokens, the dynamic candidate is a valid layout. */
  lemma DynamicIsValid(inp: seq<byte>, ts: seq<Token>)
    requires inp != [] && Spells(inp, ts, |inp|)
    ensures var dyn := DynamicOf(ts);
      ValidPlan(dyn, inp) && Writable(dyn.h) && Accepted(dyn.lit) && Accepted(dyn.dist) && Accepted(dyn.h.cl)
  {
    hide Spells, CompleteOver, DistanceLengths, Accepted, Writable, ItemsOk, ItemsCodable, LitFreq, DistFreq,
         LitLengthsOf, DistLengthsOf, HeaderOf;
    SomeTokens(inp, ts);
    var dyn := DynamicOf(ts);
    LitComplete(ts);
    CompleteIsAccepted(LitFreq(ts), dyn.lit, MAX_CODE_BITS);
    DistOk(DistFreq(ts));
    DistanceAccepted(DistFreq(ts), dyn.dist);
    HeaderIsOk(dyn.lit, dyn.dist);
    HeaderWritable(dyn.h, dyn.lit, dyn.dist);
  }

  lemma SomeTokens(inp: seq<byte>, ts: seq<Token>)
    requires inp != [] && Spells(inp, ts, |inp|)
    ensures ts != []
  {}

  /** The code for the code lengths is optimal for the items that are written with it. */
  lemma ClIsOptimal(items: seq<Item>)
    requires |Used(ItemFreq(items))| >= 2 && TreeDepth(ItemFreq(items)) <= MAX_CL_BITS
    ensures Optimal(ItemFreq(items), ClLengthsOf(items))
  {
    hide ItemFreq, Used, TreeDepth, CodeFor, Optimal, FitsLimit;
    AlphabetsFit(|ItemFreq(items)|);
    CodeIsOptimal(ItemFreq(items), MAX_CL_BITS);
  }

  /** The other two codes are optimal, each over the symbols that occur, unless a tree is deeper than
      15. */
  lemma DynamicIsOptimal(ts: seq<Token>)
    ensures var lit := DynamicOf(ts).lit;
      ts != [] && TreeDepth(LitFreq(ts)) <= MAX_CODE_BITS ==> Optimal(LitFreq(ts), lit)
    ensures var dist := DynamicOf(ts).dist;
      |Used(DistFreq(ts))| >= 2 && TreeDepth(DistFreq(ts)) <= MAX_CODE_BITS ==> Optimal(DistFreq(ts), dist)
  {
    hide LitFreq, DistFreq, Used, TreeDepth, CodeFor, Optimal, FitsLimit, LitSymbol, HeaderOf, CompleteOver;
    AlphabetsFit(NUM_LITERALS);
    AlphabetsFit(NUM_DISTANCES);
    if ts != [] && TreeDepth(LitFreq(ts)) <= MAX_CODE_BITS {
      LitFreqUsed(ts, 0);
      TwoUsed(LitFreq(ts), END_OF_BLOCK, LitSymbol(ts[0]));
      CodeIsOptimal(LitFreq(ts), MAX_CODE_BITS);
    }
    if |Used(DistFreq(ts))| >= 2 && TreeDepth(DistFreq(ts)) <= MAX_CODE_BITS {
      CodeIsOptimal(DistFreq(ts), MAX_CODE_BITS);
      CodeIsLimited(DistFreq(ts), MAX_CODE_BITS);
      CompleteIsSome(DistFreq(ts), CodeFor(DistFreq(ts), MAX_CODE_BITS));
    }
  }

  // ---------------------------------------------------------------- the distance symbols that occur

  /** All matches share one distance symbol, and it is not symbol 0. */
  ghost predicate OneFarSymbol(ts: seq<Token>) {
    exists i :: 0 <= i < |ts| && ts[i].Match? && DistanceCode(ts[i].distance) != 0 && SharesSymbol(ts, i)
  }

  ghost predicate SharesSymbol(ts: seq<Token>, i: nat) {
    i < |ts| && ts[i].Match? &&
    forall j :: 0 <= j < |ts| && ts[j].Match? ==> DistanceCode(ts[j].distance) == DistanceCode(ts[i].distance)
  }

  lemma LoneIsShared(ts: seq<Token>)
    requires LoneDistance(DistFreq(ts))
    ensures OneFarSymbol(ts)
  {
    hide DistFreq, DistanceCode, Used;
    var freq := DistFreq(ts);
    var u := Used(freq);
    RankIsIndex(freq, 0);
    var i := DistFreqComes(ts, u[0]);
    forall j | 0 <= j < |ts| && ts[j].Match? ensures DistanceCode(ts[j].distance) == u[0] {
      DistFreqUsed(ts, j);
      UsedIsUsed(freq, DistanceCode(ts[j].distance));
    }
    assert SharesSymbol(ts, i);
  }

  lemma SharedIsLone(ts: seq<Token>)
    requires OneFarSymbol(ts)
    ensures LoneDistance(DistFreq(ts))
  {
    hide DistFreq, DistanceCode, Used;
    var u := Used(DistFreq(ts));
    UsedAscends(DistFreq(ts));
    assert |u| > 1 ==> u[0] < u[1];
    var i :| 0 <= i < |ts| && ts[i].Match? && DistanceCode(ts[i].distance) != 0 && SharesSymbol(ts, i);
    DistFreqUsed(ts, i);
    UsedIsUsed(DistFreq(ts), DistanceCode(ts[i].distance));
    forall k | 0 <= k < |u| ensures u[k] == DistanceCode(ts[i].distance) {
      RankIsIndex(DistFreq(ts), k);
      var _ := DistFreqComes(ts, u[k]);
    }
  }

  /** A lone distance symbol in the counts is one that all matches share. */
  lemma LoneMeans(ts: seq<Token>)
    ensures LoneDistance(DistFreq(ts)) <==> OneFarSymbol(ts)
  {
    hide LoneDistance, OneFarSymbol;
    if LoneDistance(DistFreq(ts)) { LoneIsShared(ts); }
    if OneFarSymbol(ts) { SharedIsLone(ts); }
  }
}
