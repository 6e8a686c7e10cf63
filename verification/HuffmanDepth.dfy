/** How deep a Huffman tree over equal frequencies can be: why halving the frequencies ends. */
module HuffmanDepth {
  import opened Arithmetic
  import opened HuffmanOptimality
  import opened HuffmanTree

  // ---------------------------------------------------------------- how deep a flat tree can be

  /** No weight is more than twice another: all lie between `lo` and its double. */
  ghost predicate Within(ws: seq<nat>, lo: nat) {
    forall i :: 0 <= i < |ws| ==> lo <= ws[i] <= 2 * lo
  }

  lemma MergedWithin(ws: seq<nat>, lo: nat) returns (lo': nat)
    requires |ws| >= 2 && Within(ws, lo)
    ensures Within(Merged(ws), lo')
    ensures var a := ArgMin(ws); var ws1 := RemoveAt(ws, a); var b := ArgMin(ws1);
      3 * ws[a] <= 2 * (ws[a] + ws1[b]) && 3 * ws1[b] <= 2 * (ws[a] + ws1[b])
  {
    var a := ArgMin(ws);
    var ws1 := RemoveAt(ws, a);
    lo' := ws1[ArgMin(ws1)];
  }

  /** Every child weighs at most two thirds of its parent. */
  ghost predicate LightChildren(f: Forest)
    requires Linked(f)
  {
    forall x :: 0 <= x < |f.nodes| && f.par[x] != -1 ==> 3 * f.nodes[x].freq <= 2 * f.nodes[f.par[x]].freq
  }

  lemma MergeKeepsLight(f: Forest, lo: nat) returns (lo': nat)
    requires Mergeable(f) && HeapOfRoots(f) && LightChildren(f) && Within(Weights(f.nodes, f.heap), lo)
    ensures LightChildren(Merge(f)) && HeapOfRoots(Merge(f))
    ensures Within(Weights(Merge(f).nodes, Merge(f).heap), lo')
    ensures Sum(Weights(Merge(f).nodes, Merge(f).heap)) == Sum(Weights(f.nodes, f.heap))
  {
    hide Within, Sum, Merged, HeapOfRoots, LightChildren;
    MergeExtends(f);
    MergeWeights(f);
    lo' := MergedWithin(Weights(f.nodes, f.heap), lo);
    MergedSum(Weights(f.nodes, f.heap));
    RemoveCommutes(f, f.heap, First(f));
    NewBranchIsLight(f);
  }

  lemma NewBranchIsLight(f: Forest)
    requires Mergeable(f) && HeapOfRoots(f) && LightChildren(f)
    requires var x, y := f.nodes[f.heap[First(f)]].freq, f.nodes[Others(f)[Second(f)]].freq;
      3 * x <= 2 * (x + y) && 3 * y <= 2 * (x + y)
    ensures LightChildren(Merge(f))
  {
    var g, x, y := Merge(f), f.heap[First(f)], Others(f)[Second(f)];
    forall z | 0 <= z < |g.nodes| && g.par[z] != -1
      ensures 3 * g.nodes[z].freq <= 2 * g.nodes[g.par[z]].freq
    {
      if z != x && z != y { assert f.par[z] == g.par[z]; }
    }
  }

  lemma MergedSum(ws: seq<nat>)
    requires |ws| >= 2
    ensures Sum(Merged(ws)) == Sum(ws)
  {
    var a := ArgMin(ws);
    var ws1 := RemoveAt(ws, a);
    var b := ArgMin(ws1);
    SumRemove(ws, a);
    SumRemove(ws1, b);
    SumAppend(RemoveAt(ws1, b), ws[a] + ws1[b]);
  }

  lemma {:induction false} FinalIsLight(f: Forest, lo: nat)
    requires HeapOfRoots(f) && LightChildren(f) && |f.heap| >= 1 && Within(Weights(f.nodes, f.heap), lo)
    ensures LightChildren(Final(f))
    ensures Sum(Weights(Final(f).nodes, Final(f).heap)) == Sum(Weights(f.nodes, f.heap))
    decreases |f.heap|
  {
    if |f.heap| > 1 {
      hide HeapOfRoots, LightChildren, Within, Merge, Weights, Sum;
      var lo' := MergeKeepsLight(f, lo);
      FinalIsLight(Merge(f), lo');
    }
  }

  function Pow3(n: nat): nat { if n == 0 then 1 else 3 * Pow3(n - 1) }

  /** Down a light tree weight falls by a third at each level. */
  lemma {:induction false} DepthCostsWeight(t: Forest, m: nat, x: nat)
    requires Grown(t, m) && |t.heap| == 1 && LightChildren(t) && x < |t.nodes|
    ensures t.heap[0] < |t.nodes|
    ensures Pow3(Depth(t, x)) * t.nodes[x].freq <= Pow2(Depth(t, x)) * t.nodes[t.heap[0]].freq
    decreases |t.nodes| - x
  {
    if t.par[x] == -1 {
      assert x in t.heap && x == t.heap[0];
    } else {
      var p := t.par[x];
      DepthCostsWeight(t, m, p);
      OneLevel(Pow3(Depth(t, p)), Pow2(Depth(t, p)), t.nodes[x].freq, t.nodes[p].freq, t.nodes[t.heap[0]].freq);
    }
  }

  lemma OneLevel(a: nat, b: nat, w: nat, wp: nat, wr: nat)
    requires 3 * w <= 2 * wp && a * wp <= b * wr
    ensures (3 * a) * w <= (2 * b) * wr
  {
    MulAtLeastProduct(a, 3 * w, 2 * wp);
    assert (3 * a) * w == a * (3 * w);
    assert a * (2 * wp) == 2 * (a * wp);
    assert (2 * b) * wr == 2 * (b * wr);
  }

  /** With `n` symbols of equal weight, no code is longer than `limit`. */
  ghost predicate FitsLimit(n: nat, limit: nat) {
    Pow3(limit + 1) > Pow2(limit + 1) * n
  }

  lemma {:induction false} DepthWithinLimit(d: nat, n: nat, limit: nat)
    requires FitsLimit(n, limit) && Pow3(d) <= Pow2(d) * n
    ensures d <= limit
  {
    if d > limit { FitsDeeper(limit + 1, d, n); }
  }

  lemma {:induction false} FitsDeeper(c: nat, d: nat, n: nat)
    requires c <= d && Pow3(c) > Pow2(c) * n
    ensures Pow3(d) > Pow2(d) * n
  {
    if c < d {
      FitsDeeper(c, d - 1, n);
      MulAssociates(2, Pow2(d - 1), n);
    }
  }

  /** The two alphabets in use: literals and distances under 15 bits, code lengths under 7. */
  lemma AlphabetsFit(n: nat)
    ensures n <= 286 ==> FitsLimit(n, 15)
    ensures n <= 19 ==> FitsLimit(n, 7)
  {
    assert Pow3(8) == 6561 && Pow2(8) == 256;
    assert Pow3(16) == 43046721 && Pow2(16) == 65536;
  }
}
