/** The code lengths that `huff_build_lengths` of `C-Deflate/src/huffman.c` gives to symbols, as a
    function of their frequencies and the limit, and what they promise. */
module HuffmanLengths {
  import opened Arithmetic
  import opened HuffmanOptimality
  import opened HuffmanTree
  import opened HuffmanDepth

  // ---------------------------------------------------------------- the symbols in use

  /** The symbols that occur, in order. */
  function Used(freqs: seq<nat>): (u: seq<nat>)
    ensures |u| <= |freqs|
    ensures forall i :: 0 <= i < |u| ==> u[i] < |freqs|
  {
    if freqs == [] then [] else
    var n := |freqs| - 1;
    if freqs[n] == 0 then Used(freqs[..n]) else Used(freqs[..n]) + [n]
  }

  ghost predicate Ascends(u: seq<nat>) {
    forall i, j :: 0 <= i < j < |u| ==> u[i] < u[j]
  }

  lemma {:induction false} UsedAscends(freqs: seq<nat>)
    ensures Ascends(Used(freqs))
  {
    if freqs != [] {
      var n := |freqs| - 1;
      UsedAscends(freqs[..n]);
      var v := Used(freqs[..n]);
      assert forall i :: 0 <= i < |v| ==> v[i] < |freqs[..n]|;
    }
  }

  /** `Used` lists exactly the symbols of non-zero frequency. */
  lemma {:induction false} UsedIsUsed(freqs: seq<nat>, x: nat)
    requires x < |freqs|
    ensures freqs[x] > 0 ==> x in Used(freqs)
    ensures freqs[x] == 0 ==> x !in Used(freqs)
  {
    var n := |freqs| - 1;
    var u := Used(freqs[..n]);
    if x < n {
      UsedIsUsed(freqs[..n], x);
      if freqs[n] != 0 && x in u {
        var i :| 0 <= i < |u| && u[i] == x;
        assert (u + [n])[i] == x;
      }
    } else if freqs[n] != 0 {
      assert (u + [n])[|u|] == n;
    }
  }

  /** The frequencies of the symbols that occur. */
  function UsedFreqs(freqs: seq<nat>): (ws: seq<nat>)
    ensures |ws| == |Used(freqs)|
    ensures forall i :: 0 <= i < |ws| ==> ws[i] == freqs[Used(freqs)[i]]
  {
    seq(|Used(freqs)|, i requires 0 <= i < |Used(freqs)| => freqs[Used(freqs)[i]])
  }

  lemma UsedFreqsAppend(freqs: seq<nat>, w: nat)
    ensures UsedFreqs(freqs + [w]) == if w == 0 then UsedFreqs(freqs) else UsedFreqs(freqs) + [w]
  {
    var fs := freqs + [w];
    assert fs[..|freqs|] == freqs;
    assert Used(fs) == if w == 0 then Used(freqs) else Used(freqs) + [|freqs|];
  }

  // ---------------------------------------------------------------- the tree over them

  /** One leaf for every weight, nothing merged yet. */
  function Sow(ws: seq<nat>): (f: Forest)
    ensures Linked(f) && Indexed(f.nodes, f.heap) && |f.heap| == |f.nodes| == |ws|
  {
    Forest(seq(|ws|, i requires 0 <= i < |ws| => TreeNode(ws[i], -1, -1)), seq(|ws|, i => i), seq(|ws|, _ => -1))
  }

  /** How deep each leaf ends up when all are merged into one tree. */
  function LeafDepths(ws: seq<nat>): (ls: seq<nat>)
    requires ws != []
    ensures |ls| == |ws|
  {
    Depths(Final(Sow(ws)), Sow(ws).heap)
  }

  function Largest(ls: seq<nat>): (m: nat)
    requires ls != []
    ensures (forall i :: 0 <= i < |ls| ==> ls[i] <= m) && m in ls
  {
    ls[ArgMax(ls)]
  }

  /** The longest code the tree gives, with no limit: what `build_once` returns. */
  function TreeDepth(freqs: seq<nat>): nat {
    var ws := UsedFreqs(freqs);
    if |ws| <= 1 then |ws| else Largest(LeafDepths(ws))
  }

  /** A complete code of least cost for `ws`; equal weights never reach deep. */
  ghost predicate TreeCode(ws: seq<nat>, ls: seq<nat>) {
    && |ls| == |ws| >= 2
    && (forall i :: 0 <= i < |ls| ==> 1 <= ls[i])
    && CompleteCode(ws, ls, GreedyCost(ws))
    && (Within(ws, 1) && Sum(ws) == |ws| ==> Pow3(Largest(ls)) <= Pow2(Largest(ls)) * |ws|)
  }

  /** A forest of `m` leaves with these weights. */
  ghost predicate Sown(f: Forest, m: nat, ws: seq<nat>) {
    && HeapOfRoots(f) && LightChildren(f) && m == |f.heap| == |f.nodes| >= 2
    && Weights(f.nodes, f.heap) == ws
    && (forall j :: 0 <= j < m ==> f.heap[j] == j)
  }

  /** The leaf depths of a finished tree. */
  ghost predicate Harvested(t: Forest, m: nat, ls: seq<nat>, maxLen: nat) {
    && Grown(t, m) && |ls| == m <= |t.nodes| && |t.heap| == 1
    && (forall j :: 0 <= j < m ==> ls[j] == Depth(t, j) && 1 <= ls[j] <= maxLen)
    && (exists j :: 0 <= j < m && ls[j] == maxLen)
  }

  lemma SowIsSown(ws: seq<nat>)
    requires |ws| >= 2
    ensures Sown(Sow(ws), |ws|, ws) && Grown(Sow(ws), |ws|)
  {
    var f := Sow(ws);
    forall x | 0 <= x < |ws| ensures x in f.heap { assert f.heap[x] == x; }
  }

  lemma SownFacts(f: Forest, m: nat, ws: seq<nat>)
    requires Sown(f, m, ws) && Grown(f, m)
    ensures HeapOfRoots(f) && |f.heap| == m >= 2
    ensures Grown(Final(f), m) && m <= |Final(f).nodes|
  {
    FinalGrown(f, m);
  }

  /** Leaves are the first `m` nodes, and with two or more of them none is a root. */
  lemma LeafIsEarly(t: Forest, m: nat, x: nat)
    requires Grown(t, m) && |t.heap| == 1 && m >= 2 && x < |t.nodes| && t.nodes[x].left < 0
    ensures x < m && Depth(t, x) >= 1
  {
    var k := |t.nodes| - 1;
    assert x >= m ==> Branch(t, x);
    assert k >= m && t.par[k] == -1 && k in t.heap;
  }

  lemma HarvestOf(ws: seq<nat>)
    requires |ws| >= 2
    ensures Sown(Sow(ws), |ws|, ws)
    ensures Harvested(Final(Sow(ws)), |ws|, LeafDepths(ws), Largest(LeafDepths(ws)))
  {
    hide Final, Depth, Weights, HeapOfRoots, LightChildren, Largest, Branch, Roots, Hangs;
    var m, f, ls := |ws|, Sow(ws), LeafDepths(ws);
    SowIsSown(ws);
    SownFacts(f, m, ws);
    hide Sow;
    forall j: nat | j < m ensures ls[j] == Depth(Final(f), j) >= 1 {
      LeafIsEarly(Final(f), m, j);
    }
  }

  lemma LeavesComplete(f: Forest, m: nat, ws: seq<nat>, ls: seq<nat>, maxLen: nat)
    requires Sown(f, m, ws) && Harvested(Final(f), m, ls, maxLen)
    ensures CompleteCode(ws, ls, GreedyCost(ws))
  {
    hide CompleteCode, LightChildren, Grown, GreedyCost, Depth, Final, Weights;
    FinalIsComplete(f);
    assert Depths(Final(f), f.heap) == ls;
  }

  lemma DepthOfFlatTree(f: Forest, m: nat, ws: seq<nat>, ls: seq<nat>, maxLen: nat)
    requires Sown(f, m, ws) && Harvested(Final(f), m, ls, maxLen)
    requires Within(ws, 1) && Sum(ws) == m
    ensures Pow3(maxLen) <= Pow2(maxLen) * m
  {
    var t := Final(f);
    FinalIsLight(f, 1);
    FinalExtends(f);
    var j :| 0 <= j < m && ls[j] == maxLen;
    assert ws[j] == t.nodes[j].freq >= 1;
    SumOfOne(Weights(t.nodes, t.heap));
    hide HeapOfRoots, Extends;
    DepthCostsWeight(t, m, j);
    MulAtLeastProduct(Pow3(maxLen), 1, t.nodes[j].freq);
  }

  lemma SumOfOne(ws: seq<nat>)
    requires |ws| == 1
    ensures Sum(ws) == ws[0]
  {}

  /** What the tree over two or more weights gives. */
  lemma TreeGivesCode(ws: seq<nat>)
    requires |ws| >= 2
    ensures TreeCode(ws, LeafDepths(ws))
  {
    hide CompleteCode, Grown, Depth, GreedyCost, Within, Pow2, Pow3, Sum, Sow, Sown, Final, LeafDepths, Largest;
    var m, f, ls := |ws|, Sow(ws), LeafDepths(ws);
    HarvestOf(ws);
    LeavesComplete(f, m, ws, ls, Largest(ls));
    if Within(ws, 1) && Sum(ws) == |ws| {
      DepthOfFlatTree(f, m, ws, ls, Largest(ls));
    }
  }

  // ---------------------------------------------------------------- lengths for symbols

  /** The lengths of the given symbols. */
  function Picked(ls: seq<nat>, u: seq<nat>): (r: seq<nat>)
    requires forall i :: 0 <= i < |u| ==> u[i] < |ls|
    ensures |r| == |u| && forall i :: 0 <= i < |r| ==> r[i] == ls[u[i]]
  {
    seq(|u|, i requires 0 <= i < |u| => ls[u[i]])
  }

  /** A complete code, in Kraft's sense, over exactly the symbols that occur. */
  ghost predicate CompleteOver(freqs: seq<nat>, lengths: seq<nat>, limit: nat) {
    && |lengths| == |freqs|
    && (forall x :: 0 <= x < |freqs| && freqs[x] == 0 ==> lengths[x] == 0)
    && (forall x :: 0 <= x < |freqs| && freqs[x] > 0 ==> 1 <= lengths[x] <= limit)
    && Bounded(Picked(lengths, Used(freqs)), limit)
    && Kraft(Picked(lengths, Used(freqs)), limit) == Pow2(limit)
  }

  /** No prefix code for the symbols that occur spends fewer bits. */
  ghost predicate Optimal(freqs: seq<nat>, lengths: seq<nat>)
    requires |lengths| == |freqs|
  {
    forall ls: seq<nat>, top: nat ::
      |ls| == |freqs| && Bounded(Picked(ls, Used(freqs)), top) && Kraft(Picked(ls, Used(freqs)), top) <= Pow2(top)
      ==> Cost(freqs, lengths) <= Cost(freqs, ls)
  }

  /** What the lengths are when fewer than two symbols occur: a lone symbol gets its bit only if it
      is symbol 0. */
  ghost predicate Degenerate(freqs: seq<nat>, lengths: seq<nat>) {
    && |lengths| == |freqs|
    && forall x :: 0 <= x < |lengths| ==> lengths[x] == if x == 0 && freqs[0] > 0 then 1 else 0
  }

  lemma PickedAppend(fs: seq<nat>, w: nat, ls: seq<nat>, l: nat)
    requires |fs| == |ls|
    ensures Picked(ls + [l], Used(fs + [w])) ==
      if w == 0 then Picked(ls, Used(fs)) else Picked(ls, Used(fs)) + [l]
  {
    assert (fs + [w])[..|fs|] == fs;
    assert Used(fs + [w]) == if w == 0 then Used(fs) else Used(fs) + [|fs|];
  }

  lemma {:induction false} PickedCost(freqs: seq<nat>, ls: seq<nat>)
    requires |ls| == |freqs|
    ensures Cost(freqs, ls) == Cost(UsedFreqs(freqs), Picked(ls, Used(freqs)))
  {
    if freqs == [] {
      assert Products(freqs, ls) == [] && Products(UsedFreqs(freqs), Picked(ls, Used(freqs))) == [];
    } else {
      hide Cost, UsedFreqs, Used, Picked;
      var n := |freqs| - 1;
      PickedCost(freqs[..n], ls[..n]);
      assert freqs[..n] + [freqs[n]] == freqs && ls[..n] + [ls[n]] == ls;
      CostAppend(freqs[..n], ls[..n], freqs[n], ls[n]);
      UsedFreqsAppend(freqs[..n], freqs[n]);
      PickedAppend(freqs[..n], freqs[n], ls[..n], ls[n]);
      if freqs[n] != 0 {
        CostAppend(UsedFreqs(freqs[..n]), Picked(ls[..n], Used(freqs[..n])), freqs[n], ls[n]);
      } else {
        assert freqs[n] * ls[n] == 0;
      }
    }
  }

  lemma TreeCodeIsOptimal(freqs: seq<nat>, lengths: seq<nat>)
    requires |lengths| == |freqs| && TreeCode(UsedFreqs(freqs), Picked(lengths, Used(freqs)))
    ensures Optimal(freqs, lengths)
  {
    PickedCost(freqs, lengths);
    forall ls: seq<nat>, top: nat |
      |ls| == |freqs| && Bounded(Picked(ls, Used(freqs)), top) && Kraft(Picked(ls, Used(freqs)), top) <= Pow2(top)
      ensures Cost(freqs, lengths) <= Cost(freqs, ls)
    {
      PickedCost(freqs, ls);
      GreedyIsOptimal(UsedFreqs(freqs), Picked(ls, Used(freqs)), top);
    }
  }

  /** What `build_once` leaves: with two or more used symbols, entry `j` is the depth of the `j`-th
      used symbol's leaf; with exactly one, its 1-bit length stands at the symbol's own index. */
  function LeafLengths(freqs: seq<nat>): (ls: seq<nat>)
    ensures |ls| == |freqs|
  {
    var u := Used(freqs);
    if |u| <= 1 then seq(|freqs|, x => if |u| == 1 && x == u[0] then 1 else 0)
    else LeafDepths(UsedFreqs(freqs)) + seq(|freqs| - |u|, _ => 0)
  }

  /** Leaf lengths, in creation order, mapped back onto symbols. */
  function Spread(freqs: seq<nat>, leaf: seq<nat>): (ls: seq<nat>)
    requires |leaf| == |freqs|
    ensures |ls| == |freqs|
  {
    seq(|freqs|, x requires 0 <= x < |freqs| => if freqs[x] == 0 then 0 else leaf[Rank(freqs, x)])
  }

  /** How many used symbols come before `x`. */
  function Rank(freqs: seq<nat>, x: nat): (r: nat)
    requires x < |freqs|
    ensures r < |freqs|
  {
    |Used(freqs[..x])|
  }

  lemma {:induction false} RankIsIndex(freqs: seq<nat>, i: nat)
    requires i < |Used(freqs)|
    ensures Rank(freqs, Used(freqs)[i]) == i && freqs[Used(freqs)[i]] > 0
    decreases |freqs|
  {
    var n := |freqs| - 1;
    var v := Used(freqs[..n]);
    if i < |v| {
      RankIsIndex(freqs[..n], i);
      assert freqs[..n][..v[i]] == freqs[..v[i]];
    } else {
      assert Used(freqs)[i] == n;
    }
  }

  /** `lengths` is nothing but the leaf lengths of the used symbols. */
  ghost predicate IsSpread(freqs: seq<nat>, leaf: seq<nat>, lengths: seq<nat>) {
    && |lengths| == |leaf| == |freqs|
    && (forall x :: 0 <= x < |freqs| && freqs[x] == 0 ==> lengths[x] == 0)
    && Picked(lengths, Used(freqs)) == leaf[..|Used(freqs)|]
  }

  lemma SpreadIs(freqs: seq<nat>, leaf: seq<nat>)
    requires |leaf| == |freqs|
    ensures IsSpread(freqs, leaf, Spread(freqs, leaf))
  {
    hide Used, Rank;
    forall i: nat | i < |Used(freqs)| ensures Spread(freqs, leaf)[Used(freqs)[i]] == leaf[i] {
      RankIsIndex(freqs, i);
    }
  }

  lemma SpreadUnique(freqs: seq<nat>, leaf: seq<nat>, lengths: seq<nat>)
    requires IsSpread(freqs, leaf, lengths)
    ensures lengths == Spread(freqs, leaf)
  {
    SpreadIs(freqs, leaf);
    var ls, u := Spread(freqs, leaf), Used(freqs);
    hide Used, Spread;
    forall x: nat | x < |freqs| ensures lengths[x] == ls[x] {
      UsedIsUsed(freqs, x);
      if freqs[x] > 0 {
        var i :| 0 <= i < |u| && u[i] == x;
        assert Picked(lengths, u)[i] == lengths[x] && Picked(ls, u)[i] == ls[x];
      }
    }
  }

  /** The lengths one tree gives. */
  function Unlimited(freqs: seq<nat>): (ls: seq<nat>)
    ensures |ls| == |freqs|
  {
    Spread(freqs, LeafLengths(freqs))
  }

  /** Lengths fit to transmit: a complete code of bounded length, or a degenerate alphabet. */
  ghost predicate Limited(freqs: seq<nat>, lengths: seq<nat>, limit: nat) {
    if |Used(freqs)| >= 2 then CompleteOver(freqs, lengths, limit) else Degenerate(freqs, lengths)
  }

  lemma UnlimitedIsComplete(freqs: seq<nat>, limit: nat)
    requires |Used(freqs)| >= 2 && TreeDepth(freqs) <= limit
    ensures CompleteOver(freqs, Unlimited(freqs), limit) && Optimal(freqs, Unlimited(freqs))
  {
    hide GreedyCost, Optimal, Cost, Kraft, Used, Spread, LeafDepths, Largest, UsedFreqs, Pow3, Within, Sum;
    var lengths, leaf, ws := Unlimited(freqs), LeafLengths(freqs), UsedFreqs(freqs);
    SpreadIs(freqs, leaf);
    TreeGivesCode(ws);
    assert leaf[..|Used(freqs)|] == LeafDepths(ws);
    TreeCodeIsOptimal(freqs, lengths);
    forall x: nat | x < |freqs| && freqs[x] > 0 ensures 1 <= lengths[x] <= limit {
      UsedIsUsed(freqs, x);
      var i :| 0 <= i < |Used(freqs)| && Used(freqs)[i] == x;
      assert Picked(lengths, Used(freqs))[i] == lengths[x];
    }
  }

  lemma UnlimitedIsDegenerate(freqs: seq<nat>)
    requires |Used(freqs)| <= 1
    ensures Degenerate(freqs, Unlimited(freqs))
  {
    var lengths := Unlimited(freqs);
    SpreadIs(freqs, LeafLengths(freqs));
    assert IsSpread(freqs, LeafLengths(freqs), lengths);
    hide Used, Unlimited, LeafLengths;
    forall x: nat | x < |freqs| ensures lengths[x] == if x == 0 && freqs[0] > 0 then 1 else 0 {
      UsedIsUsed(freqs, x);
      if freqs[x] > 0 { OnlySymbol(freqs, lengths, x); }
    }
  }

  lemma OnlySymbol(freqs: seq<nat>, lengths: seq<nat>, x: nat)
    requires |Used(freqs)| <= 1 && x in Used(freqs) && x < |freqs| && IsSpread(freqs, LeafLengths(freqs), lengths)
    ensures lengths[x] == if x == 0 then 1 else 0
  {
    hide Used;
    var u := Used(freqs);
    assert x == u[0] && Picked(lengths, u)[0] == lengths[x];
    assert LeafLengths(freqs)[..1][0] == LeafLengths(freqs)[0];
  }

  // ---------------------------------------------------------------- halving

  /** Scaling frequencies without changing which are zero leaves the same symbols in use. */
  lemma {:induction false} SameUsed(freqs: seq<nat>, scaled: seq<nat>)
    requires |freqs| == |scaled| && forall x :: 0 <= x < |freqs| ==> (freqs[x] == 0 <==> scaled[x] == 0)
    ensures Used(freqs) == Used(scaled)
  {
    if freqs != [] {
      var n := |freqs| - 1;
      SameUsed(freqs[..n], scaled[..n]);
    }
  }

  function Halved(s: seq<nat>): (r: seq<nat>)
    ensures |r| == |s| && forall i :: 0 <= i < |r| ==> r[i] == if s[i] == 0 then 0 else (s[i] + 1) / 2
  {
    seq(|s|, i requires 0 <= i < |s| => if s[i] == 0 then 0 else (s[i] + 1) / 2)
  }

  lemma {:induction false} HalvingShrinks(s: seq<nat>)
    ensures Sum(Halved(s)) <= Sum(s)
    ensures (exists i :: 0 <= i < |s| && s[i] >= 2) ==> Sum(Halved(s)) < Sum(s)
  {
    if s != [] {
      var n := |s| - 1;
      HalvingShrinks(s[..n]);
      assert Halved(s)[..n] == Halved(s[..n]);
      if i :| 0 <= i < |s| && s[i] >= 2 && i < n { assert s[..n][i] >= 2; }
    }
  }

  lemma {:induction false} SumNonNegative(s: seq<nat>)
    ensures Sum(s) >= 0
  {
    if s != [] { SumNonNegative(s[..|s| - 1]); }
  }

  lemma {:induction false} SumOfOnes(ws: seq<nat>)
    requires forall i :: 0 <= i < |ws| ==> ws[i] == 1
    ensures Sum(ws) == |ws|
  {
    if ws != [] { SumOfOnes(ws[..|ws| - 1]); }
  }

  lemma FitsFewer(k: nat, n: nat, limit: nat)
    requires k <= n && FitsLimit(n, limit)
    ensures FitsLimit(k, limit)
  {
    hide Pow2, Pow3;
    MulAtLeastProduct(Pow2(limit + 1), k, n);
  }

  lemma FlatTree(ws: seq<nat>)
    requires |ws| >= 2 && forall j :: 0 <= j < |ws| ==> ws[j] == 1
    ensures Pow3(Largest(LeafDepths(ws))) <= Pow2(Largest(LeafDepths(ws))) * |ws|
  {
    hide LeafDepths, CompleteCode, Largest, Pow2, Pow3, Sum;
    TreeGivesCode(ws);
    SumOfOnes(ws);
  }

  /** Equal frequencies give no code longer than the limit. */
  lemma FlatTreeFits(ws: seq<nat>, n: nat, limit: nat)
    requires 2 <= |ws| <= n && FitsLimit(n, limit) && forall j :: 0 <= j < |ws| ==> ws[j] == 1
    ensures Largest(LeafDepths(ws)) <= limit
  {
    hide LeafDepths, Largest, Pow2, Pow3, FitsLimit;
    FlatTree(ws);
    FitsFewer(|ws|, n, limit);
    DepthWithinLimit(Largest(LeafDepths(ws)), |ws|, limit);
  }

  lemma UsedAtLeastOne(freqs: seq<nat>)
    ensures forall j :: 0 <= j < |UsedFreqs(freqs)| ==> UsedFreqs(freqs)[j] >= 1
  {
    forall j | 0 <= j < |UsedFreqs(freqs)| ensures UsedFreqs(freqs)[j] >= 1 {
      RankIsIndex(freqs, j);
    }
  }

  /** While a code is too long some frequency can still be halved: flat frequencies always fit. */
  lemma TooLongMeansUneven(freqs: seq<nat>, limit: nat)
    requires TreeDepth(freqs) > limit >= 1 && FitsLimit(|freqs|, limit)
    ensures exists i :: 0 <= i < |freqs| && freqs[i] >= 2
  {
    hide LeafDepths, Largest, FitsLimit, Used;
    var ws := UsedFreqs(freqs);
    UsedAtLeastOne(freqs);
    if forall j :: 0 <= j < |ws| ==> ws[j] == 1 {
      FlatTreeFits(ws, |freqs|, limit);
      assert false;
    } else {
      var j :| 0 <= j < |ws| && ws[j] != 1;
      assert freqs[Used(freqs)[j]] >= 2;
    }
  }

  function SumNat(s: seq<nat>): nat {
    SumNonNegative(s);
    Sum(s)
  }

  lemma HalvingGoesOn(freqs: seq<nat>, limit: nat)
    requires TreeDepth(freqs) > limit >= 1 && FitsLimit(|freqs|, limit)
    ensures SumNat(Halved(freqs)) < SumNat(freqs) && Used(Halved(freqs)) == Used(freqs)
  {
    hide TreeDepth, Used, FitsLimit, Sum;
    TooLongMeansUneven(freqs, limit);
    HalvingShrinks(freqs);
    SameUsed(freqs, Halved(freqs));
  }

  /** The lengths for these frequencies within this limit: those of the tree, over frequencies halved
      as long as it is too deep. */
  function CodeFor(freqs: seq<nat>, limit: nat): (ls: seq<nat>)
    requires limit >= 1 && FitsLimit(|freqs|, limit)
    ensures |ls| == |freqs|
    decreases SumNat(freqs)
  {
    if TreeDepth(freqs) <= limit then Unlimited(freqs)
    else
      HalvingGoesOn(freqs, limit);
      CodeFor(Halved(freqs), limit)
  }

  /** With two used symbols each gets 1..limit bits and Kraft's sum is exactly 1. */
  lemma {:induction false} CodeIsLimited(freqs: seq<nat>, limit: nat)
    requires limit >= 1 && FitsLimit(|freqs|, limit)
    ensures Limited(freqs, CodeFor(freqs, limit), limit)
    decreases SumNat(freqs)
  {
    hide Used, Unlimited, TreeDepth, FitsLimit, Kraft, SumNat;
    if TreeDepth(freqs) <= limit {
      if |Used(freqs)| >= 2 { UnlimitedIsComplete(freqs, limit); } else { UnlimitedIsDegenerate(freqs); }
    } else {
      HalvingGoesOn(freqs, limit);
      CodeIsLimited(Halved(freqs), limit);
    }
  }

  /** No prefix code is cheaper, unless the tree had to be cut down to the limit. */
  lemma CodeIsOptimal(freqs: seq<nat>, limit: nat)
    requires limit >= 1 && FitsLimit(|freqs|, limit)
    requires |Used(freqs)| >= 2 && TreeDepth(freqs) <= limit
    ensures Optimal(freqs, CodeFor(freqs, limit))
  {
    UnlimitedIsComplete(freqs, limit);
  }
}
