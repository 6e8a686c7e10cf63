/** An input that `C-Deflate/src/deflate.c` loses at every level but 0: two bytes in turn, 2066 in all.
    Every match lies two bytes back, which is distance symbol 1 alone, and that symbol goes without
    a code. */
module DeflateLossy {
  import opened Options
  import opened DeflateBits
  import opened DeflateTables
  import opened HuffmanOptimality
  import opened HuffmanTree
  import opened HuffmanDepth
  import opened HuffmanLengths
  import opened CodeLengths
  import opened Lz77
  import opened SymbolCounts
  import opened DeflateFormat
  import opened DeflateEncoding
  import opened DeflateHeader
  import opened DeflatePlan
  import opened HeaderEmit
  import opened DeflateEmit
  import opened DeflateDynamic
  import opened DeflateStream
  import opened DeflateRoundTrip

  function Alternating(): (s: seq<byte>)
    ensures |s| == 2066
  {
    seq(2066, i requires 0 <= i < 2066 => i % 2)
  }

  // ---------------------------------------------------------------- the parse

  lemma {:induction false} XorZero(a: nat)
    ensures Xor(a, 0) == a && Xor(0, a) == a
  {
    if a > 0 { XorZero(a / 2); }
  }

  lemma XorOdd(a: nat)
    requires a % 2 == 0
    ensures Xor(a, 1) == a + 1
  {
    XorZero(a / 2);
    assert Xor(a, 1) == 1 + 2 * Xor(a / 2, 0);
  }

  /** Even positions hash alike, odd ones alike, and the two differ. */
  lemma Hashes(p: nat)
    requires p + 3 <= 2066
    ensures Hash3(Alternating(), p) == if p % 2 == 0 then 32 else 1025
  {
    hide Xor;
    XorZero(32);
    XorZero(1024);
    XorOdd(1024);
    var inp := Alternating();
    assert inp[p] == p % 2 && inp[p + 1] == (p + 1) % 2 && inp[p + 2] == (p + 2) % 2;
    hide Alternating;
    if p % 2 == 0 {
      assert inp[p] == 0 && inp[p + 1] == 1 && inp[p + 2] == 0;
    } else {
      assert inp[p] == 1 && inp[p + 1] == 0 && inp[p + 2] == 1;
    }
  }

  /** So the byte two back heads the chain. */
  lemma TwoBack(p: nat)
    requires p + 3 <= 2066
    ensures Newest(Alternating(), p, Hash3(Alternating(), p)) == if p < 2 then -1 else p - 2
  {
    hide Alternating, Hash3;
    Hashes(p);
    if p >= 1 { Hashes(p - 1); }
    if p >= 2 { Hashes(p - 2); }
  }

  lemma {:induction false} RepeatsToTheEnd(p: nat, limit: nat, len: nat)
    requires 2 <= p && len <= limit && p + limit <= 2066
    ensures Reach(Alternating(), p, limit, 2, len) == limit
    decreases limit - len
  {
    if len < limit { RepeatsToTheEnd(p, limit, len + 1); }
  }

  /** One candidate that matches as far as it can ends the search. */
  lemma FoundAtOnce(inp: seq<byte>, pos: nat, maxLen: nat, good: nat, candidate: nat, chain: nat)
    requires candidate < pos && pos + maxLen <= |inp| && pos - candidate <= WINDOW_SIZE && chain >= 1 && maxLen >= 3
    requires Reach(inp, pos, maxLen, pos - candidate, 0) == maxLen
    ensures Along(inp, pos, maxLen, good, candidate, chain, Found(0, 0)) == Found(maxLen, pos - candidate)
  {
    hide Reach, Newest, Hash3;
  }

  /** At every level the match found is the longest possible, two bytes back. */
  lemma Matches(p: nat, cfg: LevelConfig)
    requires p + 3 <= 2066 && cfg.maxChain >= 1
    ensures MatchHere(Alternating(), p, cfg) ==
      if p < 2 then Found(0, 0) else Found(if p + 258 <= 2066 then 258 else 2066 - p, 2)
  {
    hide Alternating, Hash3, Newest, Reach, MatchOk;
    TwoBack(p);
    if p >= 2 {
      var maxLen := Longest(Alternating(), p);
      RepeatsToTheEnd(p, maxLen, 0);
      FoundAtOnce(Alternating(), p, maxLen, cfg.goodLength, p - 2, cfg.maxChain);
      hide Along;
    }
  }

  /** Two literals and `k` of the longest matches. */
  function Tokens(k: nat): (ts: seq<Token>)
    ensures |ts| == 2 + k
  {
    if k == 0 then [Literal(0), Literal(1)] else Tokens(k - 1) + [Match(258, 2)]
  }

  lemma GreedyMatch(k: nat, cfg: LevelConfig)
    requires k < 8 && cfg.maxChain >= 1
    ensures Greedy(Alternating(), 2 + 258 * k, cfg) == [Match(258, 2)] + Greedy(Alternating(), 2 + 258 * (k + 1), cfg)
  {
    hide Alternating, MatchHere;
    Matches(2 + 258 * k, cfg);
  }

  lemma NothingMore(cfg: LevelConfig)
    requires cfg.maxChain >= 1
    ensures Greedy(Alternating(), 2066, cfg) == [] && Lazy(Alternating(), 2066, Found(0, 0), cfg) == []
  {}

  lemma {:induction false} GreedyGoesOn(k: nat, cfg: LevelConfig)
    requires k <= 8 && cfg.maxChain >= 1
    ensures Tokens(k) + Greedy(Alternating(), 2 + 258 * k, cfg) == Tokens(8)
    decreases 8 - k
  {
    hide Alternating, MatchHere, Greedy;
    if k == 8 {
      NothingMore(cfg);
      assert Tokens(k) + [] == Tokens(k);
    } else {
      GreedyMatch(k, cfg);
      GreedyGoesOn(k + 1, cfg);
      assert Tokens(k) + [Match(258, 2)] == Tokens(k + 1);
    }
  }

  lemma {:induction false} LazyGoesOn(k: nat, cfg: LevelConfig)
    requires k <= 8 && cfg.maxChain >= 1
    ensures Tokens(k) + Lazy(Alternating(), 2 + 258 * k, Found(0, 0), cfg) == Tokens(8)
    decreases 8 - k
  {
    hide Alternating, MatchHere, Lazy;
    if k == 8 {
      NothingMore(cfg);
      assert Tokens(k) + [] == Tokens(k);
    } else {
      LazyMatch(k, cfg);
      LazyGoesOn(k + 1, cfg);
      assert Tokens(k) + [Match(258, 2)] == Tokens(k + 1);
    }
  }

  /** A match held back for one byte is not beaten there. */
  lemma LazyMatch(k: nat, cfg: LevelConfig)
    requires k < 8 && cfg.maxChain >= 1
    ensures Lazy(Alternating(), 2 + 258 * k, Found(0, 0), cfg) ==
      [Match(258, 2)] + Lazy(Alternating(), 2 + 258 * (k + 1), Found(0, 0), cfg)
  {
    hide Alternating, MatchHere;
    var p := 2 + 258 * k;
    Matches(p, cfg);
    Matches(p + 1, cfg);
    assert Lazy(Alternating(), p, Found(0, 0), cfg) == Lazy(Alternating(), p + 1, Found(258, 2), cfg);
  }

  /** Nothing is to be found for the first two bytes. */
  lemma FirstBytes(p: nat, cfg: LevelConfig)
    requires p < 2 && cfg.maxChain >= 1
    ensures Greedy(Alternating(), p, cfg) == [Literal(p)] + Greedy(Alternating(), p + 1, cfg)
    ensures Lazy(Alternating(), p, Found(0, 0), cfg) == [Literal(p)] + Lazy(Alternating(), p + 1, Found(0, 0), cfg)
  {
    hide MatchHere, MatchOk;
    Matches(p, cfg);
    assert Alternating()[p] == p;
    hide Alternating;
  }

  lemma FirstTokens()
    ensures Tokens(0) == [Literal(0)] + [Literal(1)]
  {}

  lemma FirstGreedy(cfg: LevelConfig)
    requires cfg.maxChain >= 1
    ensures Greedy(Alternating(), 0, cfg) == Tokens(0) + Greedy(Alternating(), 2, cfg)
  {
    hide Greedy, Alternating, Tokens;
    FirstTokens();
    FirstBytes(0, cfg);
    FirstBytes(1, cfg);
    Regroup([Literal(0)], [Literal(1)], Greedy(Alternating(), 2, cfg));
  }

  lemma FirstLazy(cfg: LevelConfig)
    requires cfg.maxChain >= 1
    ensures Lazy(Alternating(), 0, Found(0, 0), cfg) == Tokens(0) + Lazy(Alternating(), 2, Found(0, 0), cfg)
  {
    hide Lazy, Alternating, Tokens;
    FirstTokens();
    FirstBytes(0, cfg);
    FirstBytes(1, cfg);
    Regroup([Literal(0)], [Literal(1)], Lazy(Alternating(), 2, Found(0, 0), cfg));
  }

  /** The parse, the same at every level. */
  lemma Parsed(level: nat)
    requires 1 <= level <= 9
    ensures TokensOf(Alternating(), level) == Tokens(8)
  {
    hide Greedy, Lazy, Alternating;
    FirstGreedy(Level(level));
    FirstLazy(Level(level));
    GreedyGoesOn(0, Level(level));
    LazyGoesOn(0, Level(level));
  }

  // ---------------------------------------------------------------- what is counted

  lemma SymbolsOfMatch()
    ensures LengthCode(258) == 28 && DistanceCode(2) == 1
    ensures LengthBase(28) == 258 && LengthExtra(28) == 0 && DistBase(1) == 2 && DistExtra(1) == 0
  {
    DistanceTwo();
    hide DistanceCode;
  }

  lemma DistanceTwo()
    ensures DistanceCode(2) == 1
  {
    assert DIST_BASE[1] == 2;
    assert forall c :: 2 <= c < 30 ==> DIST_BASE[c] >= 3;
    hide LastNotAbove;
  }

  function Counts(k: nat): (s: seq<nat>)
    ensures |s| == NUM_LITERALS
  {
    seq(NUM_LITERALS, i => if i < 2 then 1 else if i == 285 then k else 0)
  }

  function DistCounts(k: nat): (s: seq<nat>)
    ensures |s| == NUM_DISTANCES
  {
    seq(NUM_DISTANCES, i => if i == 1 then k else 0)
  }

  lemma {:induction false} TokensCounted(k: nat)
    ensures LitCounts(Tokens(k)) == Counts(k) && DistFreq(Tokens(k)) == DistCounts(k)
  {
    hide LengthCode, DistanceCode, LitCounts, DistFreq;
    SymbolsOfMatch();
    var ts := Tokens(k);
    assert ts[..k + 2] == ts;
    CountStep(ts, k + 1);
    if k == 0 {
      CountStep(ts, 0);
      NothingCounted(ts);
      assert Bump(Bump(Copies(0, NUM_LITERALS), 0), 1) == Counts(0);
      assert Copies(0, NUM_DISTANCES) == DistCounts(0);
    } else {
      TokensCounted(k - 1);
      assert ts[..k + 1] == Tokens(k - 1);
      assert Bump(Counts(k - 1), 285) == Counts(k);
      assert Bump(DistCounts(k - 1), 1) == DistCounts(k);
    }
  }

  lemma {:induction false} ZerosUnused(freqs: seq<nat>, n: nat)
    ensures UsedFreqs(freqs + Copies(0, n)) == UsedFreqs(freqs)
  {
    hide UsedFreqs;
    if n == 0 {
      assert freqs + Copies(0, n) == freqs;
    } else {
      ZerosUnused(freqs, n - 1);
      assert freqs + Copies(0, n) == freqs + Copies(0, n - 1) + [0];
      UsedFreqsAppend(freqs + Copies(0, n - 1), 0);
    }
  }

  /** The one distance symbol is not symbol 0. */
  lemma OneFar()
    ensures OneFarSymbol(Tokens(8)) && DistLengthsOf(DistFreq(Tokens(8))) == FirstBit()
  {
    hide Used, DistFreq, DistLengthsOf, DistanceCode;
    SymbolsOfMatch();
    TokensAre(8);
    assert Tokens(8)[2].Match? && SharesSymbol(Tokens(8), 2);
    LoneMeans(Tokens(8));
    DistOk(DistFreq(Tokens(8)));
  }

  lemma {:induction false} TokensAre(k: nat)
    ensures forall i :: 0 <= i < 2 + k ==> Tokens(k)[i] == if i == 0 then Literal(0) else if i == 1 then Literal(1)
      else Match(258, 2)
  {
    if k > 0 { TokensAre(k - 1); }
  }

  // ---------------------------------------------------------------- the trees

  /** One round of merging, its two selections given. */
  lemma MergeIs(f: Forest, a: nat, b: nat)
    requires Mergeable(f) && a < |f.heap| && b < |f.heap| - 1
    requires forall i :: 0 <= i < |f.heap| ==> f.nodes[f.heap[a]].freq <= f.nodes[f.heap[i]].freq
    requires forall i :: 0 <= i < a ==> f.nodes[f.heap[a]].freq < f.nodes[f.heap[i]].freq
    requires var h := RemoveAt(f.heap, a);
      && (forall i :: 0 <= i < |h| ==> f.nodes[h[b]].freq <= f.nodes[h[i]].freq)
      && (forall i :: 0 <= i < b ==> f.nodes[h[b]].freq < f.nodes[h[i]].freq)
    ensures var h := RemoveAt(f.heap, a); Merge(f) == Join(f, f.heap[a], h[b], RemoveAt(h, b))
  {
    ArgMinUnique(Weights(f.nodes, f.heap), a);
    ArgMinUnique(Weights(f.nodes, RemoveAt(f.heap, a)), b);
  }

  function Leaf(w: nat): TreeNode {
    TreeNode(w, -1, -1)
  }

  lemma DepthsOfSeven(t: Forest)
    requires Linked(t) && t.par == [4, 4, 5, 6, 5, 6, -1]
    ensures Depth(t, 0) == 3 && Depth(t, 1) == 3 && Depth(t, 2) == 2 && Depth(t, 3) == 1
  {
    assert Depth(t, 6) == 0;
    assert Depth(t, 5) == 1 && Depth(t, 3) == 1;
    assert Depth(t, 2) == 2 && Depth(t, 4) == 2;
  }

  /** Four weights whose first two merge first, then the third joins them, then the fourth. */
  lemma FourLeaves(ws: seq<nat>, t: Forest)
    requires |ws| == 4 && t == Final(Sow(ws)) && t.par == [4, 4, 5, 6, 5, 6, -1]
    ensures LeafDepths(ws) == [3, 3, 2, 1] && Largest(LeafDepths(ws)) == 3
  {
    hide Depth, Final;
    DepthsOfSeven(t);
    assert Sow(ws).heap == [0, 1, 2, 3];
    hide Sow;
    var ls := LeafDepths(ws);
    assert ls[0] == 3 && ls[1] == 3 && ls[2] == 2 && ls[3] == 1;
    hide LeafDepths;
    LargestOfFour(ls);
  }

  lemma LargestOfFour(ls: seq<nat>)
    requires ls == [3, 3, 2, 1]
    ensures Largest(ls) == 3
  {
    hide Largest;
    assert ls[0] == 3;
  }

  function LitForest(k: nat): Forest {
    var (a, b, c) := (TreeNode(2, 0, 1), TreeNode(3, 2, 4), TreeNode(11, 5, 3));
    if k == 0 then Forest([Leaf(1), Leaf(1), Leaf(1), Leaf(8)], [0, 1, 2, 3], [-1, -1, -1, -1])
    else if k == 1 then Forest([Leaf(1), Leaf(1), Leaf(1), Leaf(8), a], [3, 2, 4], [4, 4, -1, -1, -1])
    else if k == 2 then Forest([Leaf(1), Leaf(1), Leaf(1), Leaf(8), a, b], [3, 5], [4, 4, 5, -1, 5, -1])
    else Forest([Leaf(1), Leaf(1), Leaf(1), Leaf(8), a, b, c], [6], [4, 4, 5, 6, 5, 6, -1])
  }

  function ClForest(k: nat): Forest {
    var (a, b, c) := (TreeNode(3, 1, 0), TreeNode(5, 2, 4), TreeNode(8, 3, 5));
    if k == 0 then Forest([Leaf(2), Leaf(1), Leaf(2), Leaf(3)], [0, 1, 2, 3], [-1, -1, -1, -1])
    else if k == 1 then Forest([Leaf(2), Leaf(1), Leaf(2), Leaf(3), a], [2, 3, 4], [4, 4, -1, -1, -1])
    else if k == 2 then Forest([Leaf(2), Leaf(1), Leaf(2), Leaf(3), a, b], [3, 5], [4, 4, 5, -1, 5, -1])
    else Forest([Leaf(2), Leaf(1), Leaf(2), Leaf(3), a, b, c], [6], [4, 4, 5, 6, 5, 6, -1])
  }

  lemma LitMergesFirst()
    ensures Mergeable(LitForest(0)) && Merge(LitForest(0)) == LitForest(1)
  {
    hide Merge;
    MergeStep(LitForest(0), 0, 1, LitForest(1));
  }

  lemma LitMergesSecond()
    ensures Mergeable(LitForest(1)) && Merge(LitForest(1)) == LitForest(2)
  {
    hide Merge;
    MergeStep(LitForest(1), 1, 1, LitForest(2));
  }

  lemma LitMergesThird()
    ensures Mergeable(LitForest(2)) && Merge(LitForest(2)) == LitForest(3)
  {
    hide Merge;
    MergeStep(LitForest(2), 1, 0, LitForest(3));
  }

  lemma ClMergesFirst()
    ensures Mergeable(ClForest(0)) && Merge(ClForest(0)) == ClForest(1)
  {
    hide Merge;
    MergeStep(ClForest(0), 1, 0, ClForest(1));
  }

  lemma ClMergesSecond()
    ensures Mergeable(ClForest(1)) && Merge(ClForest(1)) == ClForest(2)
  {
    hide Merge;
    MergeStep(ClForest(1), 0, 0, ClForest(2));
  }

  lemma ClMergesThird()
    ensures Mergeable(ClForest(2)) && Merge(ClForest(2)) == ClForest(3)
  {
    hide Merge;
    MergeStep(ClForest(2), 0, 0, ClForest(3));
  }

  lemma LitTree()
    ensures LeafDepths([1, 1, 1, 8]) == [3, 3, 2, 1] && Largest(LeafDepths([1, 1, 1, 8])) == 3
  {
    assert Sow([1, 1, 1, 8]) == LitForest(0);
    assert LitForest(3).par == [4, 4, 5, 6, 5, 6, -1] && LitForest(3).heap == [6];
    hide Merge, Sow, Depth, LitForest, Final, Largest, LeafDepths;
    LitMergesFirst();
    LitMergesSecond();
    LitMergesThird();
    Finishes(LitForest(0), LitForest(1), LitForest(2), LitForest(3));
    FourLeaves([1, 1, 1, 8], LitForest(3));
  }

  lemma ClTree()
    ensures LeafDepths([2, 1, 2, 3]) == [3, 3, 2, 1] && Largest(LeafDepths([2, 1, 2, 3])) == 3
  {
    assert Sow([2, 1, 2, 3]) == ClForest(0);
    assert ClForest(3).par == [4, 4, 5, 6, 5, 6, -1] && ClForest(3).heap == [6];
    hide Merge, Sow, Depth, ClForest, Final, Largest, LeafDepths;
    ClMergesFirst();
    ClMergesSecond();
    ClMergesThird();
    Finishes(ClForest(0), ClForest(1), ClForest(2), ClForest(3));
    FourLeaves([2, 1, 2, 3], ClForest(3));
  }

  lemma MergeStep(f: Forest, a: nat, b: nat, g: Forest)
    requires Linked(f) && Indexed(f.nodes, f.heap) && |f.heap| >= 2 && a < |f.heap| && b < |f.heap| - 1
    requires forall i :: 0 <= i < |f.heap| ==> f.nodes[f.heap[a]].freq <= f.nodes[f.heap[i]].freq
    requires forall i :: 0 <= i < a ==> f.nodes[f.heap[a]].freq < f.nodes[f.heap[i]].freq
    requires var h := RemoveAt(f.heap, a);
      && (forall i :: 0 <= i < |h| ==> f.nodes[h[b]].freq <= f.nodes[h[i]].freq)
      && (forall i :: 0 <= i < b ==> f.nodes[h[b]].freq < f.nodes[h[i]].freq)
      && g == Join(f, f.heap[a], h[b], RemoveAt(h, b))
    ensures Mergeable(f) && Merge(f) == g
  {
    MergeIs(f, a, b);
  }

  lemma Finishes(f0: Forest, f1: Forest, f2: Forest, f3: Forest)
    requires Mergeable(f0) && Mergeable(f1) && Mergeable(f2) && |f3.heap| == 1
    requires Merge(f0) == f1 && Merge(f1) == f2 && Merge(f2) == f3
    ensures Final(f0) == f3
  {
    hide Merge, Linked, Indexed;
    assert Final(f2) == Final(f3) && Final(f1) == Final(f2) && Final(f0) == Final(f1);
  }

  // ---------------------------------------------------------------- the codes

  /** Three bits for the two literals, two for the end of block, one for the match length. */
  function Lit(): (s: seq<nat>)
    ensures |s| == NUM_LITERALS
  {
    [3, 3] + Copies(0, 254) + [2] + Copies(0, 28) + [1]
  }

  lemma LitAt(i: nat)
    requires i < NUM_LITERALS
    ensures Lit()[i] == if i < 2 then 3 else if i == 256 then 2 else if i == 285 then 1 else 0
  {}

  function LitCounted(): (s: seq<nat>)
    ensures |s| == NUM_LITERALS
  {
    [1, 1] + Copies(0, 254) + [1] + Copies(0, 28) + [8]
  }

  lemma NoneUsed()
    ensures UsedFreqs([]) == []
  {}

  lemma UsedOnes()
    ensures UsedFreqs([]) == [] && UsedFreqs([1]) == [1] && UsedFreqs([1, 1]) == [1, 1]
  {
    NoneUsed();
    hide UsedFreqs;
    var none: seq<nat> := [];
    UsedFreqsAppend(none, 1);
    UsedFreqsAppend([1], 1);
    assert none + [1] == [1] && [1] + [1] == [1, 1];
  }

  /** The literals in use. */
  lemma LitUsed()
    ensures UsedFreqs(LitCounted()) == [1, 1, 1, 8]
    ensures var b := [1, 1] + Copies(0, 254);
      UsedFreqs(b) == [1, 1] && UsedFreqs(b + [1] + Copies(0, 28)) == [1, 1, 1]
  {
    hide UsedFreqs, Copies;
    UsedOnes();
    var b := [1, 1] + Copies(0, 254);
    UsedBehind([1, 1], 254, 1);
    UsedBehind(b + [1], 28, 8);
    assert [1, 1] + [1] == [1, 1, 1] && [1, 1, 1] + [8] == [1, 1, 1, 8];
    assert LitCounted() == b + [1] + Copies(0, 28) + [8];
  }

  /** A weight behind a run of zeros. */
  lemma UsedBehind(freqs: seq<nat>, n: nat, w: nat)
    requires w > 0
    ensures UsedFreqs(freqs + Copies(0, n)) == UsedFreqs(freqs)
    ensures UsedFreqs(freqs + Copies(0, n) + [w]) == UsedFreqs(freqs) + [w]
  {
    hide UsedFreqs, Copies;
    ZerosUnused(freqs, n);
    UsedFreqsAppend(freqs + Copies(0, n), w);
  }

  /** How many come before each. */
  lemma LitRanks()
    ensures var c := LitCounted(); Rank(c, 0) == 0 && Rank(c, 1) == 1 && Rank(c, 256) == 2 && Rank(c, 285) == 3
  {
    hide UsedFreqs, Copies, Rank, Used;
    var c, b := LitCounted(), [1, 1] + Copies(0, 254);
    LitUsed();
    UsedOnes();
    assert c[..0] == [] && c[..1] == [1] && c[..256] == b && c[..285] == b + [1] + Copies(0, 28);
    RankCounts(c, 0);
    RankCounts(c, 1);
    RankCounts(c, 256);
    RankCounts(c, 285);
  }

  lemma RankCounts(freqs: seq<nat>, x: nat)
    requires x < |freqs|
    ensures Rank(freqs, x) == |UsedFreqs(freqs[..x])|
  {}

  lemma LitCode()
    ensures LitLengthsOf(LitFreq(Tokens(8))) == Lit()
  {
    hide LitCounts, Copies, UsedFreqs, Used, Rank, LeafDepths, Largest, Tokens, Unlimited, FitsLimit;
    TokensCounted(8);
    LitFreqIs(LitFreq(Tokens(8)));
    LitUsed();
    LitTree();
    AlphabetsFit(NUM_LITERALS);
    LitSpread();
  }

  lemma LitFreqIs(freq: seq<nat>)
    requires freq == Bump(Counts(8), END_OF_BLOCK)
    ensures freq == LitCounted()
  {}

  lemma LitSpread()
    ensures Unlimited(LitCounted()) == Lit()
  {
    hide UsedFreqs, Used, Rank, LeafDepths, Largest;
    LitUsed();
    LitRanks();
    LitTree();
    var ls := Unlimited(LitCounted());
    forall i: nat | i < NUM_LITERALS ensures ls[i] == Lit()[i] { LitAt(i); }
  }

  // ---------------------------------------------------------------- the header

  /** Three bits for the code-length symbols 1 and 2, two for 3, one for 18. */
  function Cl(): (s: seq<nat>)
    ensures |s| == NUM_CODELEN
  {
    [0, 3, 3, 2] + Copies(0, 14) + [1]
  }

  function Items(): seq<Item> {
    [Item(3, 0), Item(3, 0), Item(18, 127), Item(18, 105), Item(2, 0), Item(18, 17), Item(1, 0), Item(1, 0)]
  }

  function Head(): (h: Header)
    ensures HeaderShaped(h)
  {
    Header(286, 1, 18, Cl(), Items())
  }

  lemma {:induction false} RunIs(ls: seq<nat>, i: nat, k: nat, run: nat)
    requires i < |ls| && k <= run && Constant(ls, i, run, ls[i]) && (i + run < |ls| ==> ls[i + run] != ls[i])
    ensures RunFrom(ls, i, k) == run
    decreases run - k
  {
    if k < run { RunIs(ls, i, k + 1, run); }
  }

  lemma StartsWithRun(ls: seq<nat>, i: nat)
    requires i < |ls|
    ensures ItemsFrom(ls, i) == RunItems(ls[i], RunFrom(ls, i, 1)) + ItemsFrom(ls, i + RunFrom(ls, i, 1))
  {
    hide RunItems;
  }

  lemma ItemsAt(ls: seq<nat>, i: nat, run: nat, v: nat)
    requires i < |ls| && run >= 1 && Constant(ls, i, run, v) && (i + run < |ls| ==> ls[i + run] != v)
    ensures ItemsFrom(ls, i) == RunItems(v, run) + ItemsFrom(ls, i + run)
  {
    hide RunItems, ItemsFrom;
    RunIs(ls, i, 1, run);
    StartsWithRun(ls, i);
  }

  lemma RunsPacked()
    ensures RunItems(3, 2) == [Item(3, 0), Item(3, 0)] && RunItems(0, 254) == [Item(18, 127), Item(18, 105)]
    ensures RunItems(2, 1) == [Item(2, 0)] && RunItems(0, 28) == [Item(18, 17)] &&
      RunItems(1, 2) == [Item(1, 0), Item(1, 0)]
  {
    assert ZeroItems(0) == [];
    assert ZeroItems(116) == [Item(18, 105)] + ZeroItems(0);
    assert ZeroItems(254) == [Item(18, 127)] + ZeroItems(116);
    assert ZeroItems(28) == [Item(18, 17)] + ZeroItems(0);
    assert RepeatItems(3, 1) == [Item(3, 0)] && RepeatItems(2, 0) == [] && RepeatItems(1, 1) == [Item(1, 0)];
  }

  /** The lengths transmitted: those of the literals, and one for the distances. */
  function Sent(): (ls: seq<nat>)
    ensures |ls| == 287
  {
    Lit() + [1]
  }

  /** Where the runs among them are. */
  lemma SentRuns()
    ensures var ls := Sent();
      && Constant(ls, 0, 2, 3) && Constant(ls, 2, 254, 0) && Constant(ls, 256, 1, 2)
      && Constant(ls, 257, 28, 0) && Constant(ls, 285, 2, 1)
      && ls[2] == 0 && ls[256] == 2 && ls[257] == 0 && ls[285] == 1
  {
    var ls := Sent();
    forall i: nat | i < 286
      ensures ls[i] == if i < 2 then 3 else if i == 256 then 2 else if i == 285 then 1 else 0
    {
      LitAt(i);
    }
    assert ls[286] == 1;
    hide Sent;
  }

  lemma Packs()
    ensures ItemsOf(Sent()) == Items()
  {
    hide Sent, RunItems, ItemsFrom, Constant;
    var ls := Sent();
    SentRuns();
    ItemsAt(ls, 0, 2, 3);
    ItemsAt(ls, 2, 254, 0);
    ItemsAt(ls, 256, 1, 2);
    ItemsAt(ls, 257, 28, 0);
    ItemsAt(ls, 285, 2, 1);
    NothingLeft(ls, []);
    RunsPacked();
  }

  /** How often each code-length symbol occurs among the items. */
  function ClCounted(): (s: seq<nat>)
    ensures |s| == NUM_CODELEN
  {
    [0, 2, 1, 2] + Copies(0, 14) + [3]
  }

  lemma ItemsCounted()
    ensures ItemFreq(Items()) == ClCounted()
  {
    var it := Items();
    CountMore([], Item(3, 0));
    CountMore(it[..1], Item(3, 0));
    CountMore(it[..2], Item(18, 127));
    CountMore(it[..3], Item(18, 105));
    CountMore(it[..4], Item(2, 0));
    CountMore(it[..5], Item(18, 17));
    CountMore(it[..6], Item(1, 0));
    CountMore(it[..7], Item(1, 0));
    NoneCounted();
    hide ItemFreq;
    assert it[..0] == [] && it[..8] == it;
    assert it[..1] == [Item(3, 0)] && it[..2] == it[..1] + [Item(3, 0)] && it[..3] == it[..2] + [Item(18, 127)];
    assert it[..4] == it[..3] + [Item(18, 105)] && it[..5] == it[..4] + [Item(2, 0)];
    assert it[..6] == it[..5] + [Item(18, 17)] && it[..7] == it[..6] + [Item(1, 0)] && it == it[..7] + [Item(1, 0)];
  }

  lemma NoneCounted()
    ensures ItemFreq([]) == Copies(0, NUM_CODELEN)
  {}

  lemma CountMore(items: seq<Item>, it: Item)
    requires it.sym < NUM_CODELEN
    ensures ItemFreq(items + [it]) == Bump(ItemFreq(items), it.sym)
  {
    assert (items + [it])[..|items|] == items;
  }

  lemma ClPrefixesUsed()
    ensures UsedFreqs([0]) == [] && UsedFreqs([0, 2]) == [2] && UsedFreqs([0, 2, 1]) == [2, 1]
    ensures UsedFreqs([0, 2, 1, 2]) == [2, 1, 2]
  {
    hide UsedFreqs;
    NoneUsed();
    OneMoreUsed([], 0, [0]);
    OneMoreUsed([0], 2, [0, 2]);
    OneMoreUsed([0, 2], 1, [0, 2, 1]);
    OneMoreUsed([0, 2, 1], 2, [0, 2, 1, 2]);
  }

  lemma OneMoreUsed(freqs: seq<nat>, w: nat, more: seq<nat>)
    requires more == freqs + [w]
    ensures UsedFreqs(more) == if w == 0 then UsedFreqs(freqs) else UsedFreqs(freqs) + [w]
  {
    UsedFreqsAppend(freqs, w);
  }

  lemma ClUsed()
    ensures UsedFreqs(ClCounted()) == [2, 1, 2, 3] && UsedFreqs([0, 2, 1, 2] + Copies(0, 14)) == [2, 1, 2]
  {
    hide UsedFreqs, Copies;
    ClPrefixesUsed();
    ZerosUnused([0, 2, 1, 2], 14);
    UsedFreqsAppend([0, 2, 1, 2] + Copies(0, 14), 3);
  }

  lemma ClRanks()
    ensures var c := ClCounted(); Rank(c, 1) == 0 && Rank(c, 2) == 1 && Rank(c, 3) == 2 && Rank(c, 18) == 3
  {
    hide UsedFreqs, Copies, Rank, Used;
    var c := ClCounted();
    ClUsed();
    ClPrefixesUsed();
    assert c[..1] == [0] && c[..2] == [0, 2] && c[..3] == [0, 2, 1] && c[..18] == [0, 2, 1, 2] + Copies(0, 14);
    RankCounts(c, 1);
    RankCounts(c, 2);
    RankCounts(c, 3);
    RankCounts(c, 18);
  }

  lemma ClCodeIs()
    ensures ClLengthsOf(Items()) == Cl()
  {
    hide UsedFreqs, Used, Rank, LeafDepths, Largest, ItemFreq, Items;
    ItemsCounted();
    ClUsed();
    ClRanks();
    ClTree();
    var freq := ItemFreq(Items());
    var ls := Unlimited(freq);
    assert ls == CodeFor(freq, MAX_CL_BITS) by { AlphabetsFit(|freq|); }
    assert ls == Cl();
  }

  lemma HeadIs()
    ensures HeaderOf(Lit(), FirstBit()) == Head()
  {
    hide ItemsOf, ClLengthsOf, Items;
    LitAt(285);
    var h := HeaderOf(Lit(), FirstBit());
    assert h.hlit == 286 && h.hdist == 1;
    assert Lit()[..286] + FirstBit()[..1] == Sent();
    Packs();
    ClCodeIs();
    assert Order(18) == 15 && Order(17) == 1 && Cl()[15] == 0 && Cl()[1] == 3;
  }

  /** The dynamic candidate. */
  lemma Candidate()
    ensures DynamicOf(Tokens(8)) == DynamicPlan(Tokens(8), Lit(), FirstBit(), Head())
  {
    hide LitLengthsOf, DistLengthsOf, LitFreq, DistFreq, HeaderOf;
    LitCode();
    OneFar();
    HeadIs();
  }

  // ---------------------------------------------------------------- the costs

  lemma MatchCost(lit: seq<nat>, dist: seq<nat>)
    requires |lit| == NUM_LITERALS && |dist| == NUM_DISTANCES
    ensures |TokenBits(Match(258, 2), lit, dist)| == lit[285] + dist[1]
  {
    SymbolsOfMatch();
    hide LengthCode, DistanceCode;
  }

  lemma {:induction false} TokensCost(k: nat, lit: seq<nat>, dist: seq<nat>)
    requires |lit| == NUM_LITERALS && |dist| == NUM_DISTANCES
    ensures |TokensBits(Tokens(k), lit, dist)| == lit[0] + lit[1] + k * (lit[285] + dist[1])
  {
    hide TokensBits, TokenBits;
    if k == 0 {
      LiteralsCost(lit, dist);
    } else {
      TokensCost(k - 1, lit, dist);
      TokensBitsMore(Tokens(k - 1), Match(258, 2), lit, dist);
      MatchCost(lit, dist);
      OneMoreTime(k, lit[285] + dist[1]);
    }
  }

  lemma OneMoreTime(k: nat, c: nat)
    requires k > 0
    ensures k * c == (k - 1) * c + c
  {}

  lemma LiteralsCost(lit: seq<nat>, dist: seq<nat>)
    requires |lit| == NUM_LITERALS && |dist| == NUM_DISTANCES
    ensures |TokensBits([Literal(0), Literal(1)], lit, dist)| == lit[0] + lit[1]
  {
    assert [Literal(0), Literal(1)][1..] == [Literal(1)] && [Literal(1)][1..] == [];
    CostOfSymbol(lit, 0);
    CostOfSymbol(lit, 1);
    hide LiteralBits;
    assert TokensBits([Literal(1)], lit, dist) == TokenBits(Literal(1), lit, dist) + TokensBits([], lit, dist);
  }

  lemma ItemsCost()
    ensures |ItemsBits(Items(), Cl())| == 37
  {
    hide ItemBits, Cl, ItemsBits;
    var items, cl := Items(), Cl();
    ClAt();
    assert items[8..] == [] && items[0..] == items;
    NoItemsBits(cl);
    forall i: nat | i < 8
      ensures |ItemsBits(items[i..], cl)| == ItemCosts(items[i].sym) + |ItemsBits(items[i + 1..], cl)|
    {
      ItemCost(items[i], cl);
      SevenBits(items, cl, i);
    }
    hide Items;
    Adds(items, cl);
  }

  /** The bits of an item: its symbol's code, and its extra bits. */
  function ItemCosts(sym: nat): nat {
    if sym == 18 then 1 + 7 else if sym == 3 then 2 else 3
  }

  lemma Adds(items: seq<Item>, cl: seq<nat>)
    requires items == Items() && ItemsBits(items[8..], cl) == []
    requires forall i: nat {:trigger items[i]} :: i < 8 ==>
      |ItemsBits(items[i..], cl)| == ItemCosts(items[i].sym) + |ItemsBits(items[i + 1..], cl)|
    ensures |ItemsBits(items[0..], cl)| == 37
  {
    hide ItemsBits;
    assert items[7].sym == 1 && items[6].sym == 1 && items[5].sym == 18 && items[4].sym == 2;
    assert items[3].sym == 18 && items[2].sym == 18 && items[1].sym == 3 && items[0].sym == 3;
  }

  lemma SevenBits(items: seq<Item>, cl: seq<nat>, i: nat)
    requires i < |items|
    ensures |ItemsBits(items[i..], cl)| == |ItemBits(items[i], cl)| + |ItemsBits(items[i + 1..], cl)|
  {
    assert items[i..][1..] == items[i + 1..];
  }

  lemma ClAt()
    ensures var cl := Cl(); |cl| == 19 && cl[1] == 3 && cl[2] == 3 && cl[3] == 2 && cl[18] == 1
  {}

  lemma Costs()
    ensures var inp, ts := Alternating(), Tokens(8);
      && HeaderShaped(Head())
      && |PlanBits(DynamicPlan(ts, Lit(), FirstBit(), Head()), inp)| == 124
      && |PlanBits(FixedPlan(ts), inp)| == 130
  {
    hide TokensBits, HeaderBits, Tokens, Lit, FirstBit, FixedLit, FixedDist;
    TokensCost(8, Lit(), FirstBit());
    TokensCost(8, FixedLit(), FixedDist());
    LitAt(0);
    LitAt(1);
    LitAt(256);
    LitAt(285);
    FixedAt();
    FirstBitAt();
    HeaderTakes();
  }

  lemma HeaderTakes()
    ensures HeaderShaped(Head()) && |HeaderBits(Head())| == 105
  {
    hide ClBits, ItemsBits, Lsb, Items, Cl;
    ClBitsLength(Cl(), 0, 18);
    ItemsCost();
  }

  lemma FixedAt()
    ensures var s := FixedLit(); s[0] == 8 && s[1] == 8 && s[256] == 7 && s[285] == 8
    ensures FixedDist()[1] == 5
  {}

  lemma FirstBitAt()
    ensures FirstBit()[1] == 0
  {}

  // ---------------------------------------------------------------- the result

  /** At every level but 0 the input is lost: the layout chosen is the dynamic one, its only distance
      symbol has no code, and what it writes does not decompress to the input. */
  lemma LossyInput() returns (inp: seq<byte>)
    ensures |inp| == 2066 && (forall i :: 0 <= i < |inp| ==> inp[i] == i % 2)
    ensures forall level: int :: level != 0 ==>
      Lost(inp, level) && Lossy(PlanOf(inp, level)) && Inflate(PlanBits(PlanOf(inp, level), inp)) != Some(inp)
  {
    inp := Alternating();
    forall level: int | level != 0
      ensures Lost(inp, level) && Lossy(PlanOf(inp, level))
      ensures Inflate(PlanBits(PlanOf(inp, level), inp)) != Some(inp)
    {
      LostAt(level);
    }
  }

  lemma LostAt(level: int)
    requires level != 0
    ensures var inp := Alternating();
      Lost(inp, level) && Lossy(PlanOf(inp, level)) && Inflate(PlanBits(PlanOf(inp, level), inp)) != Some(inp)
  {
    hide PlanBits, Inflate, Lost, Alternating, PlanOf, ValidPlan, Lossy;
    var inp := Alternating();
    var none: Bits := [];
    AlternatingLost(level);
    LostIsLossy(inp, level);
    PlanIsValid(inp, level);
    NotStored(PlanOf(inp, level));
    RoundTripExactly(PlanOf(inp, level), inp, none);
    assert PlanBits(PlanOf(inp, level), inp) + none == PlanBits(PlanOf(inp, level), inp);
  }

  lemma AlternatingLost(level: int)
    requires level != 0
    ensures Lost(Alternating(), level)
  {
    hide PlanBits, TokensOf, DynamicOf, OneFarSymbol, Tokens, Lit, FirstBit, Head, Alternating;
    Parsed(LevelOf(level));
    OneFar();
    Candidate();
    Costs();
  }

  lemma NotStored(plan: Plan)
    requires Lossy(plan)
    ensures !plan.StoredPlan?
  {}
}
