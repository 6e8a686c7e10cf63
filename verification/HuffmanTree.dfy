/** Building a Huffman tree by repeated selection, and the depths its leaves end at:
    `build_once` of `C-Deflate/src/huffman.c`. */
module HuffmanTree {
  import opened Arithmetic
  import opened HuffmanOptimality

  /** A tree node in creation order; leaves have `left < 0`. */
  datatype TreeNode = TreeNode(freq: nat, left: int, right: int)

  /** The nodes made so far, the roots still to merge, and each node's parent (-1 for a root). */
  datatype Forest = Forest(nodes: seq<TreeNode>, heap: seq<nat>, par: seq<int>)

  ghost predicate Linked(f: Forest) {
    && |f.par| == |f.nodes|
    && (forall x :: 0 <= x < |f.par| ==> f.par[x] == -1 || x < f.par[x] < |f.nodes|)
  }

  /** `m` leaves first, then the merged nodes, each hanging off at most one other. */
  ghost predicate Grown(f: Forest, m: nat) {
    && Linked(f)
    && |f.nodes| + |f.heap| == 2 * m && m <= |f.nodes|
    && (forall x :: 0 <= x < m ==> f.nodes[x].left < 0 && f.nodes[x].right < 0)
    && (forall x :: m <= x < |f.nodes| ==> Branch(f, x))
    && (forall x :: 0 <= x < |f.nodes| && f.par[x] != -1 ==> Hangs(f, x))
    && Roots(f)
  }

  /** The heap lists exactly the nodes without a parent, once each. */
  ghost predicate Roots(f: Forest)
    requires Linked(f)
  {
    && Distinct(f.heap)
    && (forall i :: 0 <= i < |f.heap| ==> f.heap[i] < |f.nodes| && f.par[f.heap[i]] == -1)
    && (forall x :: 0 <= x < |f.nodes| && f.par[x] == -1 ==> x in f.heap)
  }

  ghost predicate Distinct(h: seq<nat>) {
    forall i, j :: 0 <= i < j < |h| ==> h[i] != h[j]
  }

  ghost predicate Branch(f: Forest, x: nat)
    requires Linked(f) && x < |f.nodes|
  {
    var n := f.nodes[x];
    && 0 <= n.left < x && 0 <= n.right < x && n.left != n.right
    && f.par[n.left] == x && f.par[n.right] == x
    && n.freq == f.nodes[n.left].freq + f.nodes[n.right].freq
  }

  ghost predicate Hangs(f: Forest, x: nat)
    requires Linked(f) && x < |f.nodes| && f.par[x] != -1
  {
    var n := f.nodes[f.par[x]];
    n.left == x || n.right == x
  }

  ghost predicate Indexed(nodes: seq<TreeNode>, heap: seq<nat>) {
    forall i :: 0 <= i < |heap| ==> heap[i] < |nodes|
  }

  function Weights(nodes: seq<TreeNode>, heap: seq<nat>): (r: seq<nat>)
    requires Indexed(nodes, heap)
    ensures |r| == |heap| && forall i :: 0 <= i < |r| ==> r[i] == nodes[heap[i]].freq
  {
    seq(|heap|, i requires 0 <= i < |heap| => nodes[heap[i]].freq)
  }

  /** Hangs the roots `x` and `y` under a new node; `rest` holds the other roots. */
  function Join(f: Forest, x: nat, y: nat, rest: seq<nat>): Forest
    requires x < |f.nodes| == |f.par| && y < |f.nodes|
  {
    Forest(f.nodes + [TreeNode(f.nodes[x].freq + f.nodes[y].freq, x, y)],
           rest + [|f.nodes|],
           f.par[x := |f.nodes|][y := |f.nodes|] + [-1])
  }

  ghost predicate Mergeable(f: Forest) {
    Linked(f) && Indexed(f.nodes, f.heap) && |f.heap| >= 2
  }

  /** Where the selection loop finds the lightest root, and what it leaves. */
  function First(f: Forest): (a: nat)
    requires Mergeable(f)
    ensures a < |f.heap|
  {
    ArgMin(Weights(f.nodes, f.heap))
  }

  function Others(f: Forest): (h: seq<nat>)
    requires Mergeable(f)
    ensures |h| == |f.heap| - 1 && Indexed(f.nodes, h)
  {
    RemoveAt(f.heap, First(f))
  }

  /** Where it finds the lightest of those. */
  function Second(f: Forest): (b: nat)
    requires Mergeable(f)
    ensures b < |f.heap| - 1
  {
    ArgMin(Weights(f.nodes, Others(f)))
  }

  function Rest(f: Forest): (h: seq<nat>)
    requires Mergeable(f)
    ensures |h| == |f.heap| - 2 && Indexed(f.nodes, h)
  {
    RemoveAt(Others(f), Second(f))
  }

  /** One round of the selection loop. */
  function Merge(f: Forest): (g: Forest)
    requires Mergeable(f)
    ensures |g.heap| == |f.heap| - 1 && |g.nodes| == |f.nodes| + 1
    ensures Linked(g) && Indexed(g.nodes, g.heap)
  {
    Join(f, f.heap[First(f)], Others(f)[Second(f)], Rest(f))
  }

  lemma RemovedDistinct(h: seq<nat>, a: nat)
    requires a < |h| && Distinct(h)
    ensures var r := RemoveAt(h, a);
      && Distinct(r)
      && (forall i :: 0 <= i < |r| ==> r[i] in h && r[i] != h[a])
      && (forall x :: x in h && x != h[a] ==> x in r)
  {
    var r := RemoveAt(h, a);
    forall x | x in h && x != h[a] ensures x in r {
      var i :| 0 <= i < |h| && h[i] == x;
      if i == |h| - 1 { assert r[a] == x; } else { assert r[i] == x; }
    }
  }

  /** The rest of the roots, after `x` and `y` are taken. */
  ghost predicate TakesTwo(h: seq<nat>, x: nat, y: nat, rest: seq<nat>) {
    && x in h && y in h && x != y && |rest| + 2 == |h|
    && Distinct(rest)
    && (forall i :: 0 <= i < |rest| ==> rest[i] in h && rest[i] != x && rest[i] != y)
    && (forall z :: z in h && z != x && z != y ==> z in rest)
  }

  lemma RemoveTwice(h: seq<nat>, a: nat, b: nat)
    requires Distinct(h) && a < |h| && b < |h| - 1
    ensures var h1 := RemoveAt(h, a); TakesTwo(h, h[a], h1[b], RemoveAt(h1, b))
  {
    RemovedDistinct(h, a);
    RemovedDistinct(RemoveAt(h, a), b);
  }

  lemma JoinRoots(f: Forest, m: nat, x: nat, y: nat, rest: seq<nat>)
    requires Grown(f, m) && TakesTwo(f.heap, x, y, rest)
    ensures x < |f.nodes| && y < |f.nodes| && Linked(Join(f, x, y, rest)) && Roots(Join(f, x, y, rest))
  {
    var g := Join(f, x, y, rest);
    var k := |f.nodes|;
    forall z | 0 <= z < |g.nodes| && g.par[z] == -1 ensures z in g.heap {
      if z == k { assert g.heap[|rest|] == k; } else { assert z in f.heap && z in rest; }
    }
  }

  lemma JoinGrown(f: Forest, m: nat, x: nat, y: nat, rest: seq<nat>)
    requires Grown(f, m) && TakesTwo(f.heap, x, y, rest)
    ensures x < |f.nodes| && y < |f.nodes| && Grown(Join(f, x, y, rest), m)
  {
    JoinRoots(f, m, x, y, rest);
    hide Roots, Distinct;
    var g := Join(f, x, y, rest);
    forall z | m <= z < |g.nodes| ensures Branch(g, z) {
      if z < |f.nodes| { assert Branch(f, z); }
    }
    forall z | 0 <= z < |g.nodes| && g.par[z] != -1 ensures Hangs(g, z) {
      if z != x && z != y { assert Hangs(f, z); }
    }
  }

  lemma MergeGrown(f: Forest, m: nat)
    requires Grown(f, m) && |f.heap| >= 2
    ensures Mergeable(f) && Grown(Merge(f), m)
  {
    RemoveTwice(f.heap, First(f), Second(f));
    JoinGrown(f, m, f.heap[First(f)], Others(f)[Second(f)], Rest(f));
  }

  // ---------------------------------------------------------------- the finished tree

  /** All rounds of the selection loop. */
  function Final(f: Forest): (g: Forest)
    requires Linked(f) && Indexed(f.nodes, f.heap) && |f.heap| >= 1
    ensures Linked(g) && Indexed(g.nodes, g.heap) && |g.heap| == 1 && |g.nodes| >= |f.nodes|
    decreases |f.heap|
  {
    if |f.heap| == 1 then f else Final(Merge(f))
  }

  lemma {:induction false} FinalGrown(f: Forest, m: nat)
    requires Grown(f, m) && |f.heap| >= 1
    ensures Linked(f) && Indexed(f.nodes, f.heap) && Grown(Final(f), m)
    decreases |f.heap|
  {
    if |f.heap| > 1 {
      MergeGrown(f, m);
      FinalGrown(Merge(f), m);
    }
  }

  /** Merging only adds: nodes and parent links, once made, stay. */
  ghost predicate Extends(f: Forest, g: Forest)
    requires Linked(f) && Linked(g)
  {
    && |f.nodes| <= |g.nodes|
    && (forall x :: 0 <= x < |f.nodes| ==> g.nodes[x] == f.nodes[x])
    && (forall x :: 0 <= x < |f.nodes| && f.par[x] != -1 ==> g.par[x] == f.par[x])
  }

  ghost predicate HeapOfRoots(f: Forest) {
    Linked(f) && Indexed(f.nodes, f.heap) && Distinct(f.heap) &&
    forall i :: 0 <= i < |f.heap| ==> f.par[f.heap[i]] == -1
  }

  lemma MergeExtends(f: Forest)
    requires Mergeable(f) && HeapOfRoots(f)
    ensures Extends(f, Merge(f)) && HeapOfRoots(Merge(f))
  {
    RemoveTwice(f.heap, First(f), Second(f));
    JoinExtends(f, f.heap[First(f)], Others(f)[Second(f)], Rest(f));
  }

  lemma JoinExtends(f: Forest, x: nat, y: nat, rest: seq<nat>)
    requires HeapOfRoots(f) && TakesTwo(f.heap, x, y, rest)
    ensures x < |f.nodes| && y < |f.nodes|
    ensures HeapOfRoots(Join(f, x, y, rest)) && Extends(f, Join(f, x, y, rest))
  {
    assert f.par[x] == -1 && f.par[y] == -1;
  }

  lemma ExtendsTransitive(f: Forest, g: Forest, h: Forest)
    requires Linked(f) && Linked(g) && Linked(h) && Extends(f, g) && Extends(g, h)
    ensures Extends(f, h)
  {}

  lemma {:induction false} FinalExtends(f: Forest)
    requires HeapOfRoots(f) && |f.heap| >= 1
    ensures Extends(f, Final(f)) && HeapOfRoots(Final(f))
    decreases |f.heap|
  {
    if |f.heap| > 1 {
      MergeExtends(f);
      FinalExtends(Merge(f));
      ExtendsTransitive(f, Merge(f), Final(f));
    }
  }

  /** Links followed up to a root. */
  function Depth(f: Forest, x: nat): nat
    requires Linked(f) && x < |f.nodes|
    decreases |f.nodes| - x
  {
    if f.par[x] == -1 then 0 else 1 + Depth(f, f.par[x])
  }

  function Depths(f: Forest, heap: seq<nat>): (r: seq<nat>)
    requires Linked(f) && Indexed(f.nodes, heap)
    ensures |r| == |heap| && forall i :: 0 <= i < |r| ==> r[i] == Depth(f, heap[i])
  {
    seq(|heap|, i requires 0 <= i < |heap| => Depth(f, heap[i]))
  }

  /** Lengths that make a complete code, costing `cost` for these weights. */
  ghost predicate CompleteCode(ws: seq<nat>, ls: seq<nat>, cost: int) {
    && |ls| == |ws|
    && Cost(ws, ls) == cost
    && (forall top: nat :: Bounded(ls, top) ==> Kraft(ls, top) == Pow2(top))
  }

  /** Splitting an item of length `d` into two of length `d + 1` keeps Kraft's sum and adds the
      item's weight to the cost. */
  lemma SplitSums(ws: seq<nat>, ls: seq<nat>, a: nat, b: nat, d: nat, top: nat)
    requires |ws| == |ls| >= 2 && a < |ws| && b < |ws| - 1
    requires ls[a] == d + 1 && RemoveAt(ls, a)[b] == d + 1
    requires Bounded(ls, top)
    ensures var ws2 := RemoveAt(RemoveAt(ws, a), b); var ls2 := RemoveAt(RemoveAt(ls, a), b);
      var w := ws[a] + RemoveAt(ws, a)[b];
      && Cost(ws, ls) == Cost(ws2 + [w], ls2 + [d]) + w
      && Bounded(ls2 + [d], top)
      && Kraft(ls, top) == Kraft(ls2 + [d], top)
  {
    hide Cost, Kraft;
    var ws1, ls1 := RemoveAt(ws, a), RemoveAt(ls, a);
    var ws2, ls2 := RemoveAt(ws1, b), RemoveAt(ls1, b);
    var w := ws[a] + ws1[b];
    CostRemove(ws, ls, a);
    CostRemove(ws1, ls1, b);
    CostAppend(ws2, ls2, w, d);
    Distribute(d + 1, ws[a], ws1[b]);
    Distribute(w, d, 1);
    KraftRemove(ls, top, a);
    KraftRemove(ls1, top, b);
    assert d <= top;
    KraftAppend(ls2, top, d);
    assert Pow2(top - d) == 2 * Pow2(top - (d + 1));
  }

  lemma RemoveCommutes(f: Forest, heap: seq<nat>, a: nat)
    requires Linked(f) && Indexed(f.nodes, heap) && a < |heap|
    ensures Weights(f.nodes, RemoveAt(heap, a)) == RemoveAt(Weights(f.nodes, heap), a)
    ensures Depths(f, RemoveAt(heap, a)) == RemoveAt(Depths(f, heap), a)
  {}

  lemma AppendCommutes(f: Forest, heap: seq<nat>, k: nat)
    requires Linked(f) && Indexed(f.nodes, heap) && k < |f.nodes|
    ensures Weights(f.nodes, heap + [k]) == Weights(f.nodes, heap) + [f.nodes[k].freq]
    ensures Depths(f, heap + [k]) == Depths(f, heap) + [Depth(f, k)]
  {}

  lemma WeightsExtend(f: Forest, g: Forest, heap: seq<nat>)
    requires Linked(f) && Linked(g) && Extends(f, g) && Indexed(f.nodes, heap)
    ensures Weights(g.nodes, heap) == Weights(f.nodes, heap)
  {}

  /** The merged item, and its two parts, in lists of weights and of lengths. */
  ghost predicate Splits(ws: seq<nat>, ls: seq<nat>, a: nat, b: nat, ws': seq<nat>, ls': seq<nat>) {
    && |ws| == |ls| >= 2 && a < |ws| && b < |ws| - 1
    && |ls'| == |ls| - 1
    && var d := ls'[|ls'| - 1];
    && ls[a] == d + 1 && RemoveAt(ls, a)[b] == d + 1
    && ls' == RemoveAt(RemoveAt(ls, a), b) + [d]
    && ws' == RemoveAt(RemoveAt(ws, a), b) + [ws[a] + RemoveAt(ws, a)[b]]
  }

  lemma SplitKeepsComplete(ws: seq<nat>, ls: seq<nat>, a: nat, b: nat, ws': seq<nat>, ls': seq<nat>, cost: int)
    requires Splits(ws, ls, a, b, ws', ls') && CompleteCode(ws', ls', cost)
    ensures CompleteCode(ws, ls, cost + ws'[|ws'| - 1])
  {
    hide Cost, Kraft;
    var d := ls'[|ls'| - 1];
    forall top: nat | Bounded(ls, top) ensures Kraft(ls, top) == Pow2(top) {
      SplitSums(ws, ls, a, b, d, top);
    }
    var top := ls[ArgMax(ls)];
    SplitSums(ws, ls, a, b, d, top);
  }

  lemma MergeLinks(f: Forest)
    requires Mergeable(f)
    ensures var g := Merge(f);
      && g.par[f.heap[First(f)]] == |f.nodes| && g.par[Others(f)[Second(f)]] == |f.nodes|
      && g.nodes[|f.nodes|].freq == f.nodes[f.heap[First(f)]].freq + f.nodes[Others(f)[Second(f)]].freq
  {}

  /** One merge, seen from a tree `t` that extends it. */
  lemma MergeSplits(f: Forest, t: Forest)
    requires Mergeable(f) && Linked(t) && Extends(f, t) && Extends(Merge(f), t)
    ensures Indexed(t.nodes, f.heap) && Indexed(t.nodes, Merge(f).heap)
    ensures Splits(Weights(t.nodes, f.heap), Depths(t, f.heap), First(f), Second(f),
                   Weights(t.nodes, Merge(f).heap), Depths(t, Merge(f).heap))
  {
    hide Weights, Depths, Depth, Merge, First, Second, Others, Rest, Extends;
    MergedParts(f);
    MergedFits(f, t);
    MergedDepths(f, t);
    RemoveCommutes(t, f.heap, First(f));
    RemoveCommutes(t, Others(f), Second(f));
    AppendCommutes(t, Rest(f), |f.nodes|);
  }

  lemma MergedParts(f: Forest)
    requires Mergeable(f)
    ensures Others(f) == RemoveAt(f.heap, First(f)) && Rest(f) == RemoveAt(Others(f), Second(f))
    ensures Merge(f).heap == Rest(f) + [|f.nodes|] && |Merge(f).nodes| == |f.nodes| + 1
  {}

  lemma MergedFits(f: Forest, t: Forest)
    requires Mergeable(f) && Linked(t) && Extends(f, t) && Extends(Merge(f), t)
    ensures |t.nodes| > |f.nodes|
  {}

  /** The two merged nodes lie one level below the new one. */
  lemma MergedDepths(f: Forest, t: Forest)
    requires Mergeable(f) && Linked(t) && Extends(f, t) && Extends(Merge(f), t)
    ensures var (x, y, k) := (f.heap[First(f)], Others(f)[Second(f)], |f.nodes|);
      && Depth(t, x) == Depth(t, y) == Depth(t, k) + 1
      && t.nodes[k].freq == t.nodes[x].freq + t.nodes[y].freq
  {
    MergeLinks(f);
  }

  /** The weights of the heap evolve exactly as in the bare greedy merge. */
  lemma MergeWeights(f: Forest)
    requires Mergeable(f) && Extends(f, Merge(f))
    ensures Weights(Merge(f).nodes, Merge(f).heap) == Merged(Weights(f.nodes, f.heap))
  {
    MergeLinks(f);
    RemoveCommutes(f, f.heap, First(f));
    RemoveCommutes(f, Others(f), Second(f));
    WeightsExtend(f, Merge(f), Rest(f));
    AppendCommutes(Merge(f), Rest(f), |f.nodes|);
  }

  /** The depths in the finished tree make a complete code whose cost is that of the merges. */
  lemma {:induction false} FinalIsComplete(f: Forest)
    requires HeapOfRoots(f) && |f.heap| >= 1
    ensures Extends(f, Final(f))
    ensures CompleteCode(Weights(f.nodes, f.heap), Depths(Final(f), f.heap), GreedyCost(Weights(f.nodes, f.heap)))
    decreases |f.heap|
  {
    hide CompleteCode, Extends, Merge, Merged, MergeWeight, Weights, Depths, Depth, First, Second, Others, Rest;
    FinalExtends(f);
    if |f.heap| == 1 {
      RootIsComplete(f);
    } else {
      hide HeapOfRoots;
      MergeExtends(f);
      FinalIsComplete(Merge(f));
      UnmergeComplete(f, Final(f), GreedyCost(Weights(Merge(f).nodes, Merge(f).heap)));
      MergeWeights(f);
    }
  }

  lemma RootIsComplete(f: Forest)
    requires HeapOfRoots(f) && |f.heap| == 1
    ensures CompleteCode(Weights(f.nodes, f.heap), Depths(f, f.heap), GreedyCost(Weights(f.nodes, f.heap)))
  {
    SingleIsComplete(Weights(f.nodes, f.heap), Depths(f, f.heap));
  }

  lemma UnmergeComplete(f: Forest, t: Forest, cost: int)
    requires Mergeable(f) && Linked(t) && Extends(f, Merge(f)) && Extends(Merge(f), t)
    requires CompleteCode(Weights(Merge(f).nodes, Merge(f).heap), Depths(t, Merge(f).heap), cost)
    ensures Extends(f, t)
    ensures CompleteCode(Weights(f.nodes, f.heap), Depths(t, f.heap),
                         cost + MergeWeight(Weights(f.nodes, f.heap)))
  {
    hide CompleteCode, Splits, Extends, Merge, Merged, Weights, Depths, First, Second, Others, Rest, Join;
    var g := Merge(f);
    ExtendsTransitive(f, g, t);
    MergeSplits(f, t);
    MergeWeights(f);
    WeightsExtend(f, t, f.heap);
    WeightsExtend(g, t, g.heap);
    SplitKeepsComplete(Weights(t.nodes, f.heap), Depths(t, f.heap), First(f), Second(f),
                       Weights(t.nodes, g.heap), Depths(t, g.heap), cost);
  }

  lemma SingleIsComplete(ws: seq<nat>, ls: seq<nat>)
    requires |ws| == |ls| == 1 && ls[0] == 0
    ensures CompleteCode(ws, ls, 0)
  {
    assert Products(ws, ls) == [0];
    assert Sum([0]) == 0;
    forall top: nat | Bounded(ls, top) ensures Kraft(ls, top) == Pow2(top) {
      assert Shares(ls, top) == [Pow2(top)];
      assert Sum([Pow2(top)]) == Pow2(top);
    }
  }
}
