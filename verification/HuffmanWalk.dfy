/** The explicit-stack walk of `build_once` in `C-Deflate/src/huffman.c`: it visits every node once
    and records each leaf's depth. */
module HuffmanWalk {
  import opened HuffmanTree
  import opened HuffmanLengths

  // ---------------------------------------------------------------- walking the tree

  /** The explicit-stack walk: `ids` and `ds` are the stacked nodes and their depths, `done` the
      nodes already visited.  What has been reached is visited or stacked, and nothing else is. */
  ghost predicate Walking(t: Forest, ids: seq<nat>, ds: seq<nat>, done: set<nat>)
    requires Linked(t)
  {
    && |ids| == |ds|
    && Distinct(ids)
    && (forall i :: 0 <= i < |ids| ==> Stacked(t, ids[i], ds[i], done))
    && (forall x :: x in done ==> x < |t.nodes| && Reached(t, done, x))
    && Covered(t, ids, done)
  }

  ghost predicate Stacked(t: Forest, id: nat, d: nat, done: set<nat>)
    requires Linked(t)
  {
    id < |t.nodes| && id !in done && d == Depth(t, id) && Reached(t, done, id)
  }

  ghost predicate Covered(t: Forest, ids: seq<nat>, done: set<nat>)
    requires Linked(t)
  {
    forall x: nat :: x < |t.nodes| && Reached(t, done, x) ==> x in done || x in ids
  }

  /** A root, or a node whose parent has been visited. */
  ghost predicate Reached(t: Forest, done: set<nat>, x: nat)
    requires Linked(t) && x < |t.nodes|
  {
    t.par[x] == -1 || t.par[x] in done
  }

  ghost predicate Recorded(t: Forest, m: nat, done: set<nat>, lengths: seq<nat>, maxLen: nat)
    requires Linked(t) && m <= |t.nodes| && m <= |lengths|
  {
    && (forall x: nat :: x in done && x < m ==> lengths[x] == Depth(t, x) <= maxLen)
    && (maxLen == 0 || exists x: nat :: x in done && x < m && lengths[x] == maxLen)
    && (forall x :: m <= x < |lengths| ==> lengths[x] == 0)
  }

  /** Replacing the top of a stack by two new entries. */
  function PushTwo(ids: seq<nat>, l: nat, r: nat): (h: seq<nat>)
    requires ids != []
    ensures |h| == |ids| + 1
    ensures forall i :: 0 <= i < |ids| - 1 ==> h[i] == ids[i]
    ensures h[|ids| - 1] == l && h[|ids|] == r
    ensures l in h && r in h
    ensures forall x :: x in ids && x != ids[|ids| - 1] ==> x in h
  {
    var n := |ids| - 1;
    var h := ids[..n] + [l] + [r];
    assert h[n] == l && h[n + 1] == r;
    assert forall i :: 0 <= i < n ==> h[i] == ids[i];
    h
  }

  lemma VisitLeaf(t: Forest, m: nat, ids: seq<nat>, ds: seq<nat>, done: set<nat>)
    requires Grown(t, m) && Walking(t, ids, ds, done) && ids != [] && ids[|ids| - 1] < m
    ensures var n := |ids| - 1; Walking(t, ids[..n], ds[..n], done + {ids[n]})
  {
    var n := |ids| - 1;
    forall x: nat | x < |t.nodes| && Reached(t, done + {ids[n]}, x)
      ensures x in done + {ids[n]} || x in ids[..n]
    {
      if t.par[x] != -1 { assert Hangs(t, x); }
      assert Reached(t, done, x);
    }
    assert forall i :: 0 <= i < n ==> Stacked(t, ids[i], ds[i], done);
  }

  lemma VisitBranch(t: Forest, m: nat, ids: seq<nat>, ds: seq<nat>, done: set<nat>, l: nat, r: nat)
    requires Grown(t, m) && Walking(t, ids, ds, done) && ids != [] && m <= ids[|ids| - 1] < |t.nodes|
    requires Branch(t, ids[|ids| - 1])
    requires l == t.nodes[ids[|ids| - 1]].left && r == t.nodes[ids[|ids| - 1]].right
    ensures var n := |ids| - 1;
      Walking(t, PushTwo(ids, l, r), PushTwo(ds, ds[n] + 1, ds[n] + 1), done + {ids[n]})
  {
    hide Branch, Depth, Covered, Reached, Roots, Hangs;
    var n := |ids| - 1;
    var k, d := ids[n], ds[n];
    var ids', ds', done' := PushTwo(ids, l, r), PushTwo(ds, d + 1, d + 1), done + {k};
    assert Stacked(t, k, d, done);
    NewlyReached(t, m, ids, ds, done, k, l, r);
    ChildrenStacked(t, m, k, d, l, r, done);
    CoveredAfter(t, ids, done, l, r);
    hide Grown;
    VisitedReached(t, done, k);
    forall i | 0 <= i < |ids'| ensures Stacked(t, ids'[i], ds'[i], done') {
      if i < n { StillStacked(t, ids[i], ds[i], done, k); }
    }
    assert Distinct(ids') by { hide Stacked, Linked; }
  }

  lemma VisitedReached(t: Forest, done: set<nat>, k: nat)
    requires Linked(t) && k < |t.nodes| && Reached(t, done, k)
    requires forall x :: x in done ==> x < |t.nodes| && Reached(t, done, x)
    ensures forall x :: x in done + {k} ==> x < |t.nodes| && Reached(t, done + {k}, x)
  {}

  lemma StillStacked(t: Forest, id: nat, d: nat, done: set<nat>, k: nat)
    requires Linked(t) && Stacked(t, id, d, done) && id != k
    ensures Stacked(t, id, d, done + {k})
  {}

  lemma ChildrenStacked(t: Forest, m: nat, k: nat, d: nat, l: nat, r: nat, done: set<nat>)
    requires Grown(t, m) && m <= k < |t.nodes| && Branch(t, k) && Stacked(t, k, d, done)
    requires l == t.nodes[k].left && r == t.nodes[k].right && l !in done && r !in done
    ensures Stacked(t, l, d + 1, done + {k}) && Stacked(t, r, d + 1, done + {k})
  {}

  lemma CoveredAfter(t: Forest, ids: seq<nat>, done: set<nat>, l: nat, r: nat)
    requires Linked(t) && ids != [] && Covered(t, ids, done)
    requires forall x: nat :: x < |t.nodes| && Reached(t, done + {ids[|ids| - 1]}, x) ==>
      x == l || x == r || Reached(t, done, x)
    ensures Covered(t, PushTwo(ids, l, r), done + {ids[|ids| - 1]})
  {}

  /** Visiting a branch reaches its two children, which were not stacked or visited before. */
  lemma NewlyReached(t: Forest, m: nat, ids: seq<nat>, ds: seq<nat>, done: set<nat>, k: nat, l: nat, r: nat)
    requires Grown(t, m) && m <= k < |t.nodes| && Branch(t, k) && k !in done
    requires l == t.nodes[k].left && r == t.nodes[k].right
    requires Walking(t, ids, ds, done)
    ensures l !in done && r !in done && l !in ids && r !in ids && l != r
    ensures forall x: nat :: x < |t.nodes| && Reached(t, done + {k}, x) ==> x == l || x == r || Reached(t, done, x)
  {
    forall x: nat | x < |t.nodes| && Reached(t, done + {k}, x)
      ensures x == l || x == r || Reached(t, done, x)
    {
      if t.par[x] == k { assert Hangs(t, x); }
    }
  }

  lemma {:induction false} AllVisited(t: Forest, ds: seq<nat>, done: set<nat>, x: nat)
    requires Linked(t) && Walking(t, [], ds, done) && x < |t.nodes|
    ensures x in done
    decreases |t.nodes| - x
  {
    if t.par[x] != -1 { AllVisited(t, ds, done, t.par[x]); }
    assert Reached(t, done, x);
  }

  method WalkTree(nodes: seq<TreeNode>, root: nat, n: nat, m: nat, ghost t: Forest)
    returns (maxLen: nat, lengths: seq<nat>)
    requires Grown(t, m) && t.nodes == nodes && t.heap == [root] && 2 <= m <= n
    ensures |lengths| == n && forall x :: 0 <= x < m ==> lengths[x] == Depth(t, x) <= maxLen
    ensures maxLen >= 1 && exists x :: 0 <= x < m && lengths[x] == maxLen
    ensures forall x :: m <= x < n ==> lengths[x] == 0
  {
    lengths := seq(n, _ => 0);
    maxLen := 0;
    var ids, ds := [root], [0];
    ghost var done: set<nat> := {};
    ghost var all := Below(|nodes|);
    WalkStarts(t, m, root);
    hide Grown, Roots, Walking, Recorded, Depth;
    while ids != []
      invariant |lengths| == n && Walking(t, ids, ds, done) && Recorded(t, m, done, lengths, maxLen)
      decreases all - done
    {
      TopOfStack(t, ids, ds, done);
      ghost var idx := ids[|ids| - 1];
      assert idx in all - done;
      lengths, maxLen, ids, ds := VisitTop(nodes, lengths, maxLen, ids, ds, m, t, done);
      done := done + {idx};
    }
    AllRecorded(t, m, ds, done, lengths, maxLen);
  }

  /** The body of the walk: pop a node, record a leaf or push a branch's children. */
  method VisitTop(nodes: seq<TreeNode>, lengths: seq<nat>, maxLen: nat, ids: seq<nat>, ds: seq<nat>,
                  ghost m: nat, ghost t: Forest, ghost done: set<nat>)
    returns (lengths': seq<nat>, maxLen': nat, ids': seq<nat>, ds': seq<nat>)
    requires Grown(t, m) && t.nodes == nodes && |t.heap| == 1 && 2 <= m <= |lengths| && m <= |nodes|
    requires ids != [] && Walking(t, ids, ds, done) && Recorded(t, m, done, lengths, maxLen)
    ensures |lengths'| == |lengths| && Walking(t, ids', ds', done + {ids[|ids| - 1]})
    ensures Recorded(t, m, done + {ids[|ids| - 1]}, lengths', maxLen')
  {
    TopOfStack(t, ids, ds, done);
    hide Grown, Walking, Recorded, Depth;
    var top := |ids| - 1;
    var idx, depth := ids[top], ds[top];
    if nodes[idx].left < 0 {
      LeafIsEarly(t, m, idx);
      VisitLeaf(t, m, ids, ds, done);
      lengths', maxLen' := RecordLeaf(lengths, maxLen, idx, depth, m, t, done);
      ids', ds' := ids[..top], ds[..top];
    } else {
      BranchIsLate(t, m, idx);
      var l: nat, r: nat := nodes[idx].left, nodes[idx].right;
      VisitBranch(t, m, ids, ds, done, l, r);
      lengths', maxLen' := lengths, maxLen;
      BranchRecordsNothing(t, m, done, lengths, maxLen, idx);
      ids', ds' := PushTwo(ids, l, r), PushTwo(ds, depth + 1, depth + 1);
    }
  }

  lemma BranchRecordsNothing(t: Forest, m: nat, done: set<nat>, lengths: seq<nat>, maxLen: nat, idx: nat)
    requires Linked(t) && m <= |t.nodes| && m <= |lengths| && idx >= m
    requires Recorded(t, m, done, lengths, maxLen)
    ensures Recorded(t, m, done + {idx}, lengths, maxLen)
  {}

  lemma WalkStarts(t: Forest, m: nat, root: nat)
    requires Grown(t, m) && t.heap == [root] && m <= |t.nodes|
    ensures Walking(t, [root], [0], {})
    ensures forall lengths: seq<nat> :: m <= |lengths| && (forall x :: m <= x < |lengths| ==> lengths[x] == 0) ==>
      Recorded(t, m, {}, lengths, 0)
  {}

  lemma TopOfStack(t: Forest, ids: seq<nat>, ds: seq<nat>, done: set<nat>)
    requires Linked(t) && ids != [] && Walking(t, ids, ds, done)
    ensures |ds| == |ids|
    ensures var n := |ids| - 1; ids[n] < |t.nodes| && ids[n] !in done && ds[n] == Depth(t, ids[n])
  {}

  lemma AllRecorded(t: Forest, m: nat, ds: seq<nat>, done: set<nat>, lengths: seq<nat>, maxLen: nat)
    requires Grown(t, m) && |t.heap| == 1 && 2 <= m <= |lengths|
    requires Walking(t, [], ds, done) && Recorded(t, m, done, lengths, maxLen)
    ensures forall x :: 0 <= x < m ==> lengths[x] == Depth(t, x) <= maxLen
    ensures maxLen >= 1 && exists x :: 0 <= x < m && lengths[x] == maxLen
    ensures forall x :: m <= x < |lengths| ==> lengths[x] == 0
  {
    forall x: nat | x < m ensures x in done && Depth(t, x) >= 1 {
      AllVisited(t, ds, done, x);
      LeafIsEarly(t, m, x);
    }
    assert 0 in done;
  }

  method RecordLeaf(lengths: seq<nat>, maxLen: nat, idx: nat, depth: nat,
                    ghost m: nat, ghost t: Forest, ghost done: set<nat>)
    returns (lengths': seq<nat>, maxLen': nat)
    requires Linked(t) && m <= |t.nodes| && idx < m <= |lengths| && depth == Depth(t, idx) >= 1
    requires Recorded(t, m, done, lengths, maxLen) && idx !in done
    ensures |lengths'| == |lengths| && Recorded(t, m, done + {idx}, lengths', maxLen')
  {
    lengths' := lengths[idx := if depth != 0 then depth else 1];
    maxLen' := if depth > maxLen then depth else maxLen;
    if depth > maxLen {
      assert lengths'[idx] == maxLen';
    } else if maxLen != 0 {
      ghost var x: nat :| x in done && x < m && lengths[x] == maxLen;
      assert lengths'[x] == maxLen';
    }
  }

  function Below(n: nat): (s: set<nat>)
    ensures forall x: nat :: x in s <==> x < n
  {
    if n == 0 then {} else Below(n - 1) + {n - 1}
  }

  lemma BranchIsLate(t: Forest, m: nat, x: nat)
    requires Grown(t, m) && x < |t.nodes| && t.nodes[x].left >= 0
    ensures x >= m && Branch(t, x)
  {}
}
