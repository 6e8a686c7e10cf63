/** Mending an internal node whose child has run short of keys: `rebalance` of
    `Java-BTree/src/btree/BPlusTree.java`. */
module BTreeRebalance {
  import opened BTreeShape
  import opened BTreeNodes
  import opened BTreeHeap
  import opened BTreeDelete

  /** All is well below `t` but for child `ci`, which is one key short. */
  ghost predicate Starved(t: Tree, ci: nat, lo: Bound, hi: Bound, h: nat, order: nat)
    requires order >= 3
  {
    && t.Inner? && h > 0 && Before(lo, hi) && ChildrenOk(t.children, t.keys, lo, hi, h - 1, order)
    && ci < |t.children| && |t.keys| >= 1 && |t.children[ci].keys| == MinKeys(order) - 1
    && forall i :: 0 <= i < |t.children| && i != ci ==> Full(t.children[i], order)
  }

  /** The same contents in order again, at the cost of at most one key. */
  ghost predicate Mended(t': Tree, t: Tree, lo: Bound, hi: Bound, h: nat, order: nat)
    requires order >= 3
  {
    && t'.Inner? && t'.node == t.node && Ok(t', lo, hi, h, order)
    && |t.keys| - 1 <= |t'.keys| <= |t.keys| && Entries(t') == Entries(t) && Nodes(t') <= Nodes(t)
    && Leaves(t) != [] && Leaves(t') != [] && Leaves(t')[0] == Leaves(t)[0]
  }

  /** The `i`-th child and the one after it replaced by `xs`. */
  function PairSwapped(ts: seq<Tree>, i: nat, xs: seq<Tree>): seq<Tree>
    requires i + 2 <= |ts|
  {
    ts[..i] + xs + ts[i + 2..]
  }

  lemma SeqPair<T>(s: seq<T>, i: nat)
    requires i + 2 <= |s|
    ensures s == s[..i] + [s[i], s[i + 1]] + s[i + 2..]
  {}

  /** The pair at `i` in its windows. */
  lemma ChildPair(ts: seq<Tree>, keys: seq<int>, i: nat, lo: Bound, hi: Bound, h: nat, order: nat)
    requires order >= 3 && ChildrenOk(ts, keys, lo, hi, h, order) && i + 2 <= |ts|
    ensures i + 1 <= |keys| && PairOk(ts[i], ts[i + 1], Lo(keys, i, lo), keys[i], Hi(keys, i + 1, hi), h, order)
  {
    hide Ok;
    assert Ok(ts[i], Lo(keys, i, lo), Hi(keys, i, hi), h, order);
    assert Ok(ts[i + 1], Lo(keys, i + 1, lo), Hi(keys, i + 1, hi), h, order);
  }

  lemma PairShiftedOk(ts: seq<Tree>, keys: seq<int>, i: nat, xs: seq<Tree>, sep: int,
                      lo: Bound, hi: Bound, h: nat, order: nat)
    requires order >= 3 && ChildrenOk(ts, keys, lo, hi, h, order) && i + 2 <= |ts|
    requires |xs| == 2 && i + 1 <= |keys|
    requires PairOk(xs[0], xs[1], Lo(keys, i, lo), sep, Hi(keys, i + 1, hi), h, order)
    ensures ChildrenOk(PairSwapped(ts, i, xs), keys[i := sep], lo, hi, h, order)
  {
    hide Ok;
    Splice(ts, keys, lo, hi, h, order, i, i + 2, xs, [sep]);
    assert keys[..i] + [sep] + keys[i + 1..] == keys[i := sep];
  }

  lemma PairMergedOk(ts: seq<Tree>, keys: seq<int>, i: nat, x: Tree, lo: Bound, hi: Bound, h: nat, order: nat)
    requires order >= 3 && ChildrenOk(ts, keys, lo, hi, h, order) && i + 2 <= |ts| && i + 1 <= |keys|
    requires Ok(x, Lo(keys, i, lo), Hi(keys, i + 1, hi), h, order)
    ensures ChildrenOk(PairSwapped(ts, i, [x]), keys[..i] + keys[i + 1..], lo, hi, h, order)
  {
    hide Ok;
    Splice(ts, keys, lo, hi, h, order, i, i + 2, [x], []);
    assert keys[..i] + [] + keys[i + 1..] == keys[..i] + keys[i + 1..];
  }

  /** What stays the same when a pair is replaced by trees of the same contents and first leaf. */
  lemma PairSwapKeeps(ts: seq<Tree>, i: nat, xs: seq<Tree>)
    requires i + 2 <= |ts| && Flat(xs) == Flat([ts[i], ts[i + 1]]) && NodesOf(xs) <= NodesOf([ts[i], ts[i + 1]])
    requires LeavesOf(xs) != [] && LeavesOf([ts[i], ts[i + 1]]) != []
    requires LeavesOf(xs)[0] == LeavesOf([ts[i], ts[i + 1]])[0]
    ensures Flat(PairSwapped(ts, i, xs)) == Flat(ts) && NodesOf(PairSwapped(ts, i, xs)) <= NodesOf(ts)
    ensures LeavesOf(ts) != [] && LeavesOf(PairSwapped(ts, i, xs)) != []
    ensures LeavesOf(PairSwapped(ts, i, xs))[0] == LeavesOf(ts)[0]
  {
    hide Flat, LeavesOf, NodesOf;
    SeqPair(ts, i);
    ThreeParts(ts[..i], xs, ts[i + 2..]);
    ThreeParts(ts[..i], [ts[i], ts[i + 1]], ts[i + 2..]);
  }

  lemma ThreeParts(a: seq<Tree>, b: seq<Tree>, c: seq<Tree>)
    ensures Flat(a + b + c) == Flat(a) + Flat(b) + Flat(c)
    ensures LeavesOf(a + b + c) == LeavesOf(a) + LeavesOf(b) + LeavesOf(c)
    ensures NodesOf(a + b + c) == NodesOf(a) + NodesOf(b) + NodesOf(c)
  {
    FlatConcat(a + b, c);
    FlatConcat(a, b);
    LeavesConcat(a + b, c);
    LeavesConcat(a, b);
    NodesConcat(a + b, c);
    NodesConcat(a, b);
  }

  /** The neighbours of a pair, and the pair, each on their own. */
  lemma PairInMemory(t: Tree, i: nat, after: Node?)
    requires t.Inner? && i + 2 <= |t.children| && Held([t], after) && Leaves(t.children[i]) != []
    ensures var ts := t.children; var pair := [ts[i], ts[i + 1]];
      && NodeRep(t) && t.node !in NodesOf(ts) && NodesOf(ts) == NodesOf(ts[..i]) + NodesOf(pair) + NodesOf(ts[i + 2..])
      && LeavesOf(pair) != [] && Held(ts[..i], LeavesOf(pair)[0])
      && Held(pair, First(LeavesOf(ts[i + 2..]), after)) && Held(ts[i + 2..], after)
      && NodesOf(ts[..i]) !! NodesOf(pair) && NodesOf(ts[..i]) !! NodesOf(ts[i + 2..])
      && NodesOf(pair) !! NodesOf(ts[i + 2..])
  {
    hide Held, LeavesOf, Leaves, NodesOf, Nodes, NodeRep;
    var ts := t.children;
    HeldInner(t, after);
    SeqPair(ts, i);
    HeldPair(ts[i], ts[i + 1], after);
    HeldThree(ts[..i], [ts[i], ts[i + 1]], ts[i + 2..], after);
  }

  /** Reassembling the node around the replaced pair. */
  lemma PairBack(t: Tree, t': Tree, i: nat, xs: seq<Tree>, after: Node?)
    requires t.Inner? && t'.Inner? && i + 2 <= |t.children| && t'.node == t.node &&
      t'.children == PairSwapped(t.children, i, xs)
    requires NodeRep(t') && t.node !in NodesOf(t.children)
    requires LeavesOf(xs) != [] && Held(t.children[..i], LeavesOf(xs)[0])
    requires Held(xs, First(LeavesOf(t.children[i + 2..]), after)) && Held(t.children[i + 2..], after)
    requires NodesOf(t.children[..i]) !! NodesOf(xs) && NodesOf(xs) !! NodesOf(t.children[i + 2..])
    requires NodesOf(t.children[..i]) !! NodesOf(t.children[i + 2..]) && NodesOf(t'.children) <= NodesOf(t.children)
    ensures Held([t'], after)
  {
    hide Held, LeavesOf, NodesOf, NodeRep;
    HeldThree(t.children[..i], xs, t.children[i + 2..], after);
    HeldInner(t', after);
  }

  // ---------------------------------------------------------------- why the mended node is in order

  /** The pair that takes part in mending child `ci`: its windows, its sizes and its kind. */
  lemma StarvedPair(t: Tree, ci: nat, i: nat, lo: Bound, hi: Bound, h: nat, order: nat)
    requires order >= 3 && Starved(t, ci, lo, hi, h, order) && i <= ci <= i + 1 < |t.children|
    ensures |t.children| == |t.keys| + 1
    ensures var ts, keys := t.children, t.keys;
      && PairOk(ts[i], ts[i + 1], Lo(keys, i, lo), keys[i], Hi(keys, i + 1, hi), h - 1, order)
      && (ts[i].Inner? <==> h > 1) && (ts[i + 1].Inner? <==> h > 1) && Leaves(ts[i]) != []
  {
    var ts, keys := t.children, t.keys;
    ChildPair(ts, keys, i, lo, hi, h - 1, order);
    hide Ok, ChildrenOk, Leaves;
    InnerPositive(ts[i], Lo(keys, i, lo), At(keys[i]), h - 1, order);
    InnerPositive(ts[i + 1], At(keys[i]), Hi(keys, i + 1, hi), h - 1, order);
    SomeLeaf(ts[i], Lo(keys, i, lo), At(keys[i]), h - 1, order);
  }

  lemma AllFullAgain(ts: seq<Tree>, ci: nat, i: nat, xs: seq<Tree>, order: nat)
    requires order >= 3 && i <= ci <= i + 1 < |ts|
    requires forall k :: 0 <= k < |ts| && k != ci ==> Full(ts[k], order)
    requires AllFull(xs, order)
    ensures AllFull(PairSwapped(ts, i, xs), order)
  {
    hide Full;
    var all := PairSwapped(ts, i, xs);
    forall k | 0 <= k < |all| ensures Full(all[k], order) {
      if k >= i + |xs| { assert all[k] == ts[k - |xs| + 2]; }
    }
  }

  lemma ShiftMends(t: Tree, ci: nat, i: nat, xs: seq<Tree>, sep: int, lo: Bound, hi: Bound, h: nat, order: nat)
    requires order >= 3 && Starved(t, ci, lo, hi, h, order) && i <= ci <= i + 1 < |t.children| == |t.keys| + 1
    requires Shifted(xs, t.children[i], t.children[i + 1], Lo(t.keys, i, lo), sep, Hi(t.keys, i + 1, hi), h - 1, order)
    requires Full(xs[0], order) && Full(xs[1], order)
    requires LeavesOf([t.children[i], t.children[i + 1]]) != []
    ensures var t' := Inner(t.node, t.keys[i := sep], PairSwapped(t.children, i, xs));
      Mended(t', t, lo, hi, h, order) && NodesOf(t'.children) <= NodesOf(t.children)
  {
    hide Ok, ChildrenOk, PairOk, Full, Flat, LeavesOf, NodesOf, Entries, Leaves, Nodes;
    var t' := Inner(t.node, t.keys[i := sep], PairSwapped(t.children, i, xs));
    PairShiftedOk(t.children, t.keys, i, xs, sep, lo, hi, h - 1, order);
    AllFullAgain(t.children, ci, i, xs, order);
    InnerOk(t.node, t'.keys, t'.children, lo, hi, h, order);
    PairSwapKeeps(t.children, i, xs);
    InnerParts(t);
    InnerParts(t');
  }

  lemma MergeMends(t: Tree, ci: nat, i: nat, x: Tree, lo: Bound, hi: Bound, h: nat, order: nat)
    requires order >= 3 && Starved(t, ci, lo, hi, h, order) && i <= ci <= i + 1 < |t.children| == |t.keys| + 1
    requires Merged(x, t.children[i], t.children[i + 1], Lo(t.keys, i, lo), Hi(t.keys, i + 1, hi), h - 1, order)
    requires Full(x, order)
    ensures var t' := Inner(t.node, t.keys[..i] + t.keys[i + 1..], PairSwapped(t.children, i, [x]));
      Mended(t', t, lo, hi, h, order) && NodesOf(t'.children) <= NodesOf(t.children)
  {
    hide Ok, ChildrenOk, PairOk, Full, Flat, LeavesOf, NodesOf, Entries, Leaves, Nodes;
    var ts := t.children;
    var t' := Inner(t.node, t.keys[..i] + t.keys[i + 1..], PairSwapped(ts, i, [x]));
    PairMergedOk(ts, t.keys, i, x, lo, hi, h - 1, order);
    AllFullAgain(ts, ci, i, [x], order);
    InnerOk(t.node, t'.keys, t'.children, lo, hi, h, order);
    Singleton(x);
    PairContents(ts[i], ts[i + 1]);
    PairSwapKeeps(ts, i, [x]);
    InnerParts(t);
    InnerParts(t');
  }

  lemma PairContents(l: Tree, r: Tree)
    ensures LeavesOf([l, r]) == Leaves(l) + Leaves(r) && NodesOf([l, r]) == Nodes(l) + Nodes(r)
    ensures l.node in Nodes(l) && r.node in Nodes(r)
  {
    Singleton(r);
    assert [l, r][1..] == [r];
  }

  lemma RootsPairSwapped(ts: seq<Tree>, i: nat, xs: seq<Tree>)
    requires i + 2 <= |ts| && xs != [] && xs[0].node == ts[i].node
    requires |xs| == 1 || (|xs| == 2 && xs[1].node == ts[i + 1].node)
    ensures Roots(PairSwapped(ts, i, xs)) ==
      if |xs| == 2 then Roots(ts) else Roots(ts)[..i + 1] + Roots(ts)[i + 2..]
  {
    hide Roots;
    RootsAroundPair(ts, i, xs);
    var rs := Roots(ts);
    SeqPair(rs, i);
    if |xs| == 2 {
      assert Roots(xs) == [rs[i], rs[i + 1]];
    } else {
      assert Roots(xs) == [rs[i]];
      SeqTake(rs, i);
    }
  }

  lemma SeqTake<T>(s: seq<T>, i: nat)
    requires i < |s|
    ensures s[..i] + [s[i]] == s[..i + 1]
  {}

  lemma RootsAroundPair(ts: seq<Tree>, i: nat, xs: seq<Tree>)
    requires i + 2 <= |ts|
    ensures Roots(PairSwapped(ts, i, xs)) == Roots(ts)[..i] + Roots(xs) + Roots(ts)[i + 2..]
  {
    hide Roots;
    RootsConcat(ts[..i] + xs, ts[i + 2..]);
    RootsConcat(ts[..i], xs);
    RootsCut(ts, i);
    RootsCut(ts, i + 2);
  }

  lemma KindInMemory(l: Tree, r: Tree, after: Node?)
    requires Held([l, r], after)
    ensures l.node.isLeaf == l.Leaf? && r.node.isLeaf == r.Leaf?
    ensures l.node.keys == l.keys && r.node.keys == r.keys
  {
    assert [l, r] == [l] + [r];
    RepConcat([l], [r]);
    RepSingleton(l);
    RepSingleton(r);
  }

  // ---------------------------------------------------------------- the operations

  method BorrowFromLeft(parent: Node, ci: nat, ghost t: Tree, ghost lo: Bound, ghost hi: Bound, ghost h: nat,
                        ghost order: nat, ghost after: Node?)
    returns (ghost t': Tree)
    requires order >= 3 && Starved(t, ci, lo, hi, h, order) && t.node == parent && Held([t], after)
    requires ci > 0 && |t.children[ci - 1].keys| > MinKeys(order)
    modifies Nodes(t)
    ensures Mended(t', t, lo, hi, h, order) && Held([t'], after)
  {
    hide Ok, ChildrenOk, PairOk, Held, Flat, LeavesOf, NodesOf, Entries, Leaves, Nodes, Roots, Mended, Lo, Hi;
    ghost var i := ci - 1;
    ghost var ts, keys := t.children, t.keys;
    ghost var l, c := ts[i], ts[ci];
    StarvedPair(t, ci, i, lo, hi, h, order);
    ghost var lo', hi', rest := Lo(keys, i, lo), Hi(keys, ci, hi), First(LeavesOf(ts[i + 2..]), after);
    PairInMemory(t, i, after);
    KindInMemory(l, c, rest);
    PairContents(l, c);
    InnerParts(t);
    assert allocated(NodesOf(ts));
    var child, left := parent.children[ci], parent.children[ci - 1];
    var sep: int;
    ghost var xs;
    if child.isLeaf {
      sep, xs := LeafFromLeft(child, left, l, c, lo', keys[i], hi', order, rest);
    } else {
      sep, xs := InnerFromLeft(child, left, parent.keys[ci - 1], l, c, lo', hi', h - 1, order, rest);
    }
    parent.keys := parent.keys[ci - 1 := sep];
    t' := Inner(parent, keys[i := sep], PairSwapped(ts, i, xs));
    ShiftMends(t, ci, i, xs, sep, lo, hi, h, order);
    RootsPairSwapped(ts, i, xs);
    PairBack(t, t', i, xs, after);
  }

  method BorrowFromRight(parent: Node, ci: nat, ghost t: Tree, ghost lo: Bound, ghost hi: Bound, ghost h: nat,
                         ghost order: nat, ghost after: Node?)
    returns (ghost t': Tree)
    requires order >= 3 && Starved(t, ci, lo, hi, h, order) && t.node == parent && Held([t], after)
    requires ci + 1 < |t.children| && |t.children[ci + 1].keys| > MinKeys(order)
    modifies Nodes(t)
    ensures Mended(t', t, lo, hi, h, order) && Held([t'], after)
  {
    hide Ok, ChildrenOk, PairOk, Held, Flat, LeavesOf, NodesOf, Entries, Leaves, Nodes, Roots, Mended, Lo, Hi;
    ghost var ts, keys := t.children, t.keys;
    ghost var c, r := ts[ci], ts[ci + 1];
    StarvedPair(t, ci, ci, lo, hi, h, order);
    ghost var lo', hi', rest := Lo(keys, ci, lo), Hi(keys, ci + 1, hi), First(LeavesOf(ts[ci + 2..]), after);
    PairInMemory(t, ci, after);
    KindInMemory(c, r, rest);
    PairContents(c, r);
    InnerParts(t);
    assert allocated(NodesOf(ts));
    var child, right := parent.children[ci], parent.children[ci + 1];
    var sep: int;
    ghost var xs;
    if child.isLeaf {
      sep, xs := LeafFromRight(child, right, c, r, lo', keys[ci], hi', order, rest);
    } else {
      sep, xs := InnerFromRight(child, right, parent.keys[ci], c, r, lo', hi', h - 1, order, rest);
    }
    parent.keys := parent.keys[ci := sep];
    t' := Inner(parent, keys[ci := sep], PairSwapped(ts, ci, xs));
    ShiftMends(t, ci, ci, xs, sep, lo, hi, h, order);
    RootsPairSwapped(ts, ci, xs);
    PairBack(t, t', ci, xs, after);
  }

  /** Merges children `i` and `i + 1`, with the separator between them, into one. */
  method MergeInto(parent: Node, i: nat, ghost ci: nat, ghost t: Tree, ghost lo: Bound, ghost hi: Bound, ghost h: nat,
                   ghost order: nat, ghost after: Node?)
    returns (ghost t': Tree)
    requires order >= 3 && Starved(t, ci, lo, hi, h, order) && t.node == parent && Held([t], after)
    requires i <= ci <= i + 1 < |t.children|
    requires |t.children[i].keys| + |t.children[i + 1].keys| == 2 * MinKeys(order) - 1
    modifies Nodes(t)
    ensures Mended(t', t, lo, hi, h, order) && Held([t'], after)
  {
    hide Ok, ChildrenOk, PairOk, Held, Flat, LeavesOf, NodesOf, Entries, Leaves, Nodes, Roots, Mended, Lo, Hi;
    ghost var ts, keys := t.children, t.keys;
    ghost var l, r := ts[i], ts[i + 1];
    StarvedPair(t, ci, i, lo, hi, h, order);
    ghost var lo', hi', rest := Lo(keys, i, lo), Hi(keys, i + 1, hi), First(LeavesOf(ts[i + 2..]), after);
    PairInMemory(t, i, after);
    KindInMemory(l, r, rest);
    PairContents(l, r);
    InnerParts(t);
    assert allocated(NodesOf(ts));
    var left, right := parent.children[i], parent.children[i + 1];
    ghost var x;
    if left.isLeaf {
      x := MergeLeaves(left, right, l, r, lo', keys[i], hi', order, rest);
    } else {
      x := MergeInners(left, right, parent.keys[i], l, r, lo', hi', h - 1, order, rest);
    }
    parent.keys := parent.keys[..i] + parent.keys[i + 1..];
    parent.children := parent.children[..i + 1] + parent.children[i + 2..];
    t' := Inner(parent, keys[..i] + keys[i + 1..], PairSwapped(ts, i, [x]));
    MergedFull(x, order);
    MergeMends(t, ci, i, x, lo, hi, h, order);
    RootsPairSwapped(ts, i, [x]);
    Singleton(x);
    PairBack(t, t', i, [x], after);
  }

  lemma MergedFull(x: Tree, order: nat)
    requires order >= 3 && 2 * MinKeys(order) - 1 <= |x.keys| <= 2 * MinKeys(order)
    ensures Full(x, order)
  {}

  /** `rebalance`: borrow from a sibling that can spare a key, or else merge. */
  method Rebalance(parent: Node, ci: nat, order: nat, ghost t: Tree, ghost lo: Bound, ghost hi: Bound, ghost h: nat,
                   ghost after: Node?)
    returns (ghost t': Tree)
    requires order >= 3 && Starved(t, ci, lo, hi, h, order) && t.node == parent && Held([t], after)
    modifies Nodes(t)
    ensures Mended(t', t, lo, hi, h, order) && Held([t'], after)
  {
    hide Ok, ChildrenOk, Held, NodesOf, Nodes, Mended, Entries, Leaves;
    var minKeys := MinKeys(order);
    HeldInner(t, after);
    StarvedSized(t, ci, lo, hi, h, order);
    HeldKeys(t.children, after);
    var last := |parent.children| - 1;
    if ci > 0 && |parent.children[ci - 1].keys| > minKeys {
      t' := BorrowFromLeft(parent, ci, t, lo, hi, h, order, after);
    } else if ci < last && |parent.children[ci + 1].keys| > minKeys {
      t' := BorrowFromRight(parent, ci, t, lo, hi, h, order, after);
    } else if ci > 0 {
      t' := MergeInto(parent, ci - 1, ci, t, lo, hi, h, order, after);
    } else {
      t' := MergeInto(parent, ci, ci, t, lo, hi, h, order, after);
    }
  }

  lemma StarvedSized(t: Tree, ci: nat, lo: Bound, hi: Bound, h: nat, order: nat)
    requires order >= 3 && Starved(t, ci, lo, hi, h, order)
    ensures |t.children| == |t.keys| + 1
  {}

  lemma {:induction false} HeldKeys(ts: seq<Tree>, after: Node?)
    requires Held(ts, after)
    ensures forall i :: 0 <= i < |ts| ==> ts[i].node.keys == ts[i].keys
  {
    RepKeys(ts);
  }

  lemma {:induction false} RepKeys(ts: seq<Tree>)
    requires RepAll(ts)
    ensures forall i :: 0 <= i < |ts| ==> ts[i].node.keys == ts[i].keys
    decreases ts
  {
    if ts != [] {
      RepKeys(ts[1..]);
      forall i | 0 <= i < |ts| ensures ts[i].node.keys == ts[i].keys {
        if i > 0 { assert ts[1..][i - 1] == ts[i]; }
      }
    }
  }
}
