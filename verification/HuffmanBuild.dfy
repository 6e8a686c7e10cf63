/** `build_once` and `huff_build_lengths` of `C-Deflate/src/huffman.c`: the loops that find the code
    lengths `HuffmanLengths` specifies. */
module HuffmanBuild {
  import opened HuffmanOptimality
  import opened HuffmanTree
  import opened HuffmanWalk
  import opened HuffmanDepth
  import opened HuffmanLengths

  // ---------------------------------------------------------------- build_once

  ghost predicate Planted(freqs: seq<nat>, nodes: seq<TreeNode>, heap: seq<nat>) {
    && |nodes| == |heap| == |Used(freqs)|
    && (forall j :: 0 <= j < |nodes| ==> nodes[j] == TreeNode(UsedFreqs(freqs)[j], -1, -1) && heap[j] == j)
  }

  /** One leaf for every symbol that occurs, in symbol order. */
  method PlantLeaves(freqs: seq<nat>) returns (nodes: seq<TreeNode>, heap: seq<nat>)
    ensures Planted(freqs, nodes, heap)
  {
    hide Planted, Used, UsedFreqs;
    nodes, heap := [], [];
    NothingPlanted();
    assert freqs[..0] == [];
    for i := 0 to |freqs|
      invariant Planted(freqs[..i], nodes, heap)
    {
      PlantStep(freqs, i, nodes, heap);
      if freqs[i] != 0 {
        var k: nat := |nodes|;
        nodes, heap := nodes + [TreeNode(freqs[i], -1, -1)], heap + [k];
      }
    }
    assert freqs[..|freqs|] == freqs;
  }

  lemma NothingPlanted()
    ensures Planted([], [], [])
  {}

  lemma PlantStep(freqs: seq<nat>, i: nat, nodes: seq<TreeNode>, heap: seq<nat>)
    requires i < |freqs| && Planted(freqs[..i], nodes, heap)
    ensures if freqs[i] == 0 then Planted(freqs[..i + 1], nodes, heap)
            else Planted(freqs[..i + 1], nodes + [TreeNode(freqs[i], -1, -1)], heap + [|nodes|])
  {
    hide Used;
    UsedFreqsAppend(freqs[..i], freqs[i]);
    assert freqs[..i + 1] == freqs[..i] + [freqs[i]];
    hide UsedFreqs;
  }

  /** The index of the lightest heap entry, the first of equals. */
  method SelectLightest(nodes: seq<TreeNode>, heap: seq<nat>) returns (a: nat)
    requires Indexed(nodes, heap) && heap != []
    ensures a == ArgMin(Weights(nodes, heap)) && a < |heap|
  {
    a := 0;
    for i := 1 to |heap|
      invariant a < i
      invariant forall k :: 0 <= k < i ==> nodes[heap[a]].freq <= nodes[heap[k]].freq
      invariant forall k :: 0 <= k < a ==> nodes[heap[a]].freq < nodes[heap[k]].freq
    {
      if nodes[heap[i]].freq < nodes[heap[a]].freq { a := i; }
    }
    ArgMinUnique(Weights(nodes, heap), a);
  }

  method MergeAll(nodes0: seq<TreeNode>, heap0: seq<nat>, ghost f0: Forest, ghost m: nat)
    returns (nodes: seq<TreeNode>, root: nat)
    requires Grown(f0, m) && f0.nodes == nodes0 && f0.heap == heap0 && heap0 != []
    ensures Linked(f0) && Indexed(f0.nodes, f0.heap)
    ensures Final(f0).nodes == nodes && Final(f0).heap == [root]
  {
    hide Grown, Merge, Linked, Mergeable, Indexed, Final;
    FinalGrown(f0, m);
    var heap := heap0;
    nodes := nodes0;
    ghost var f := f0;
    while |heap| > 1
      invariant Grown(f, m) && Linked(f) && Indexed(f.nodes, f.heap) && |heap| >= 1
      invariant f.nodes == nodes && f.heap == heap
      invariant Final(f) == Final(f0)
    {
      MergeGrown(f, m);
      FinalGoesOn(f);
      ghost var g := Merge(f);
      nodes, heap := MergeOnce(nodes, heap, f);
      f := g;
    }
    FinalStays(f);
    root := heap[0];
  }

  lemma FinalGoesOn(f: Forest)
    requires Mergeable(f)
    ensures Linked(f) && Indexed(f.nodes, f.heap) && Linked(Merge(f)) && Indexed(Merge(f).nodes, Merge(f).heap)
    ensures Final(f) == Final(Merge(f))
  {
    hide Merge, Linked, Indexed;
  }

  lemma FinalStays(f: Forest)
    requires Linked(f) && Indexed(f.nodes, f.heap) && |f.heap| == 1
    ensures Final(f) == f
  {
    hide Merge, Linked, Indexed;
  }

  /** Take the two lightest roots out and put their sum in. */
  method MergeOnce(nodes: seq<TreeNode>, heap: seq<nat>, ghost f: Forest)
    returns (nodes': seq<TreeNode>, heap': seq<nat>)
    requires Mergeable(f) && f.nodes == nodes && f.heap == heap
    ensures nodes' == Merge(f).nodes && heap' == Merge(f).heap
  {
    hide Weights, ArgMin;
    var a := SelectLightest(nodes, heap);
    var first := heap[a];
    var h1 := heap[a := heap[|heap| - 1]][..|heap| - 1];
    assert h1 == Others(f);
    var b := SelectLightest(nodes, h1);
    var second := h1[b];
    var h2 := h1[b := h1[|h1| - 1]][..|h1| - 1];
    nodes' := nodes + [TreeNode(nodes[first].freq + nodes[second].freq, first, second)];
    heap' := h2 + [|nodes|];
  }

  lemma PlantedIsSow(freqs: seq<nat>, nodes: seq<TreeNode>, heap: seq<nat>)
    requires Planted(freqs, nodes, heap)
    ensures Sow(UsedFreqs(freqs)).nodes == nodes && Sow(UsedFreqs(freqs)).heap == heap
  {
    hide Used, UsedFreqs;
  }

  /** `build_once`. */
  method BuildOnce(freqs: seq<nat>) returns (maxLen: nat, lengths: seq<nat>)
    ensures maxLen == TreeDepth(freqs) && lengths == LeafLengths(freqs)
  {
    hide Used, LeafDepths, Largest, Planted;
    var nodes, heap := PlantLeaves(freqs);
    PlantedSizes(freqs, nodes, heap);
    var m := |heap|;
    lengths := seq(|freqs|, _ => 0);
    if m == 0 { return 0, lengths; }
    if m == 1 {
      lengths := OneBitForTheOnly(freqs);
      return 1, lengths;
    }
    maxLen, lengths := BuildTree(freqs, nodes, heap);
  }

  lemma PlantedSizes(freqs: seq<nat>, nodes: seq<TreeNode>, heap: seq<nat>)
    requires Planted(freqs, nodes, heap)
    ensures |heap| == |Used(freqs)| == |UsedFreqs(freqs)|
  {}

  method OneBitForTheOnly(freqs: seq<nat>) returns (lengths: seq<nat>)
    requires |Used(freqs)| == 1
    ensures lengths == LeafLengths(freqs)
  {
    lengths := seq(|freqs|, _ => 0);
    ghost var only := Used(freqs)[0];
    UsedIsUsed(freqs, only);
    for i := 0 to |freqs|
      invariant i <= only && |lengths| == |freqs|
      invariant forall k :: 0 <= k < |lengths| ==> lengths[k] == 0
    {
      UsedIsUsed(freqs, i);
      if freqs[i] != 0 {
        lengths := lengths[i := 1];
        return;
      }
    }
  }

  method BuildTree(freqs: seq<nat>, nodes: seq<TreeNode>, heap: seq<nat>)
    returns (maxLen: nat, lengths: seq<nat>)
    requires Planted(freqs, nodes, heap) && |heap| >= 2
    ensures maxLen == TreeDepth(freqs) && lengths == LeafLengths(freqs)
  {
    var m := |heap|;
    ghost var ws := UsedFreqs(freqs);
    ghost var f := Sow(ws);
    PlantedSizes(freqs, nodes, heap);
    PlantedIsSow(freqs, nodes, heap);
    SowIsSown(ws);
    SownFacts(f, m, ws);
    hide Grown, Sown, Planted, Used, UsedFreqs, Depth, Sow, TreeDepth, LeafLengths;
    var all, root := MergeAll(nodes, heap, f, m);
    maxLen, lengths := WalkTree(all, root, |freqs|, m, Final(f));
    HarvestedLengths(freqs, ws, lengths, maxLen);
  }

  /** What the walk recorded is what the tree's depths specify. */
  lemma HarvestedLengths(freqs: seq<nat>, ws: seq<nat>, lengths: seq<nat>, maxLen: nat)
    requires ws == UsedFreqs(freqs) && |ws| >= 2 && |lengths| == |freqs| && |Final(Sow(ws)).nodes| >= |ws|
    requires forall x :: 0 <= x < |ws| ==> lengths[x] == Depth(Final(Sow(ws)), x) <= maxLen
    requires exists x :: 0 <= x < |ws| && lengths[x] == maxLen
    requires forall x :: |ws| <= x < |lengths| ==> lengths[x] == 0
    ensures maxLen == TreeDepth(freqs) && lengths == LeafLengths(freqs)
  {
    hide Used, UsedFreqs, Depth, Final;
    var ls := LeafDepths(ws);
    forall x: nat | x < |ws| ensures ls[x] == lengths[x] {
      assert Sow(ws).heap[x] == x;
    }
    hide Sow, LeafDepths;
    var x :| 0 <= x < |ws| && lengths[x] == maxLen;
    assert ls[x] == maxLen && forall i :: 0 <= i < |ls| ==> ls[i] <= maxLen;
  }

  // ---------------------------------------------------------------- huff_build_lengths

  /** Maps leaf lengths, in creation order, back onto symbols. */
  method SpreadLengths(freqs: seq<nat>, leaf: seq<nat>) returns (lengths: seq<nat>)
    requires |leaf| == |freqs|
    ensures lengths == Spread(freqs, leaf)
  {
    hide Spread;
    var used := UsedSymbols(freqs);
    UsedAscends(freqs);
    lengths := seq(|freqs|, _ => 0);
    for i := 0 to |used|
      invariant |lengths| == |freqs|
      invariant forall k :: 0 <= k < i ==> lengths[used[k]] == leaf[k]
      invariant forall x :: 0 <= x < |freqs| && x !in used[..i] ==> lengths[x] == 0
    {
      assert used[..i + 1] == used[..i] + [used[i]];
      lengths := lengths[used[i] := leaf[i]];
    }
    assert used[..|used|] == used;
    forall x: nat | x < |freqs| && freqs[x] == 0 ensures lengths[x] == 0 { UsedIsUsed(freqs, x); }
    SpreadUnique(freqs, leaf, lengths);
  }

  method UsedSymbols(freqs: seq<nat>) returns (used: seq<nat>)
    ensures used == Used(freqs)
  {
    used := [];
    for i := 0 to |freqs|
      invariant used == Used(freqs[..i])
    {
      assert freqs[..i + 1][..i] == freqs[..i];
      if freqs[i] != 0 { used := used + [i]; }
    }
    assert freqs[..|freqs|] == freqs;
  }

  /** `huff_build_lengths`: rebuild on halved frequencies until nothing exceeds the limit.  It ends
      for both limits in use. */
  method BuildLengths(freqs: seq<nat>, limit: nat) returns (lengths: seq<nat>)
    requires limit >= 1 && FitsLimit(|freqs|, limit)
    ensures lengths == CodeFor(freqs, limit)
    ensures Limited(freqs, lengths, limit)
    ensures |Used(freqs)| >= 2 && TreeDepth(freqs) <= limit ==> Optimal(freqs, lengths)
  {
    hide Limited, Optimal, Used, FitsLimit, TreeDepth, LeafLengths, Spread, SumNat;
    CodeIsLimited(freqs, limit);
    if |Used(freqs)| >= 2 && TreeDepth(freqs) <= limit { CodeIsOptimal(freqs, limit); }
    var scaled := freqs;
    while true
      invariant |scaled| == |freqs| && CodeFor(scaled, limit) == CodeFor(freqs, limit)
      decreases SumNat(scaled)
    {
      var maxLen, leaf := BuildOnce(scaled);
      lengths := SpreadLengths(scaled, leaf);
      if maxLen <= limit { return; }
      HalvingGoesOn(scaled, limit);
      scaled := Halve(scaled);
    }
  }

  method Halve(s: seq<nat>) returns (r: seq<nat>)
    ensures r == Halved(s)
  {
    r := s;
    for i := 0 to |s|
      invariant |r| == |s|
      invariant forall k :: 0 <= k < |s| ==> r[k] == if k < i then Halved(s)[k] else s[k]
    {
      if r[i] != 0 { r := r[i := (r[i] + 1) / 2]; }
    }
  }
}
