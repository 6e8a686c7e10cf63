/** Deletion below one node: borrowing from a sibling and merging, as in
    `Java-BTree/src/btree/BPlusTree.java`. */
module BTreeDelete {
  import opened Options
  import opened BTreeEntries
  import opened BTreeShape
  import opened BTreeNodes
  import opened BTreeHeap

  /** `leafIndex`: where the key is, or -1. */
  method LeafIndex(keys: seq<int>, key: int) returns (i: int)
    requires Sorted(keys)
    ensures if key in keys then 0 <= i < |keys| && keys[i] == key else i == -1
  {
    i := 0;
    while i < |keys|
      invariant 0 <= i <= |keys| && key !in keys[..i]
    {
      if key == keys[i] { return; }
      if key < keys[i] { return -1; }
      assert keys[..i + 1] == keys[..i] + [keys[i]];
      i := i + 1;
    }
    assert keys[..|keys|] == keys;
    i := -1;
  }

  method RemoveFromLeaf(leaf: Node, key: int, ghost t: Tree, ghost lo: Bound, ghost hi: Bound, ghost order: nat,
                        ghost after: Node?)
    returns (removed: Option<Value>, ghost t': Tree)
    requires order >= 3 && t.Leaf? && t.node == leaf && Held([t], after) && Ok(t, lo, hi, 0, order)
    modifies leaf
    ensures t'.Leaf? && t'.node == leaf && Ok(t', lo, hi, 0, order) && Held([t'], after)
    ensures |t'.keys| == |t.keys| - (if removed.Some? then 1 else 0)
    ensures Entries(t') == Without(Entries(t), key) && removed == Lookup(Entries(t), key)
  {
    hide Ok, Held, Entries, Zip, Without, Lookup, AllWithin, Within;
    HeldLeaf(t, after);
    LeafSized(t, lo, hi, order);
    LeafEntries(t);
    var i := LeafIndex(leaf.keys, key);
    if i >= 0 {
      LeafOverwrites(leaf.keys, leaf.values, key, i, leaf.values[i]);
      SortedRemove(leaf.keys, i, lo, hi);
      removed := Some(leaf.values[i]);
      leaf.keys := leaf.keys[..i] + leaf.keys[i + 1..];
      leaf.values := leaf.values[..i] + leaf.values[i + 1..];
    } else {
      LeafWithout(leaf.keys, leaf.values, key);
      removed := None;
    }
    t' := Leaf(leaf, leaf.keys, leaf.values);
    LeafIsOk(t', t, lo, hi, order);
    LeafEntries(t');
    LeafHeld(t', after);
  }

  lemma {:induction false} LeafWithout(keys: seq<int>, values: seq<Value>, key: int)
    requires |keys| == |values| && key !in keys
    ensures Without(Zip(keys, values), key) == Zip(keys, values) && Lookup(Zip(keys, values), key) == None
  {
    if keys != [] {
      assert Zip(keys, values)[1..] == Zip(keys[1..], values[1..]);
      LeafWithout(keys[1..], values[1..], key);
    }
  }

  // ---------------------------------------------------------------- two neighbours

  /** Keys moved between two neighbours: same nodes, same contents, a new separator. */
  ghost predicate Shifted(xs: seq<Tree>, l: Tree, r: Tree, lo: Bound, sep: int, hi: Bound, h: nat, order: nat)
    requires order >= 3
  {
    && |xs| == 2 && xs[0].node == l.node && xs[1].node == r.node && PairOk(xs[0], xs[1], lo, sep, hi, h, order)
    && Flat(xs) == Flat([l, r]) && LeavesOf(xs) == LeavesOf([l, r]) && NodesOf(xs) == NodesOf([l, r])
  }

  /** One node left of two: the contents of both, the right node gone. */
  ghost predicate Merged(x: Tree, l: Tree, r: Tree, lo: Bound, hi: Bound, h: nat, order: nat)
    requires order >= 3
  {
    && x.node == l.node && Ok(x, lo, hi, h, order) && Entries(x) == Flat([l, r])
    && Nodes(x) == NodesOf([l, r]) - {r.node}
    && Leaves(x) != [] && Leaves(l) != [] && Leaves(x)[0] == Leaves(l)[0]
  }

  method LeafFromLeft(c: Node, l: Node, ghost lt: Tree, ghost ct: Tree, ghost lo: Bound, ghost sep: int,
      ghost hi: Bound,
                      ghost order: nat, ghost after: Node?)
    returns (sep': int, ghost xs: seq<Tree>)
    requires order >= 3 && lt.Leaf? && ct.Leaf? && lt.node == l && ct.node == c && Held([lt, ct], after)
    requires PairOk(lt, ct, lo, sep, hi, 0, order) && |lt.keys| >= 2
    modifies l`keys, l`values, c`keys, c`values
    ensures Shifted(xs, lt, ct, lo, sep', hi, 0, order) && Held(xs, after)
    ensures |xs[0].keys| == |lt.keys| - 1 && |xs[1].keys| == |ct.keys| + 1
  {
    hide Held, PairOk, Entries, Flat, LeavesOf, NodesOf;
    HeldLeafPair(lt, ct, after);
    LeafShiftsRight(lt, ct, lo, sep, hi, order);
    var m := |l.keys| - 1;
    c.keys := [l.keys[m]] + c.keys;
    l.keys := l.keys[..m];
    c.values := [l.values[m]] + c.values;
    l.values := l.values[..m];
    sep' := c.keys[0];
    xs := [Leaf(l, l.keys, l.values), Leaf(c, c.keys, c.values)];
    LeafPair(lt, ct);
    LeafPair(xs[0], xs[1]);
    PairOfLeaves(xs[0], xs[1], after);
  }

  method LeafFromRight(c: Node, r: Node, ghost ct: Tree, ghost rt: Tree, ghost lo: Bound, ghost sep: int,
      ghost hi: Bound,
                       ghost order: nat, ghost after: Node?)
    returns (sep': int, ghost xs: seq<Tree>)
    requires order >= 3 && ct.Leaf? && rt.Leaf? && ct.node == c && rt.node == r && Held([ct, rt], after)
    requires PairOk(ct, rt, lo, sep, hi, 0, order) && |rt.keys| >= 2
    modifies c`keys, c`values, r`keys, r`values
    ensures Shifted(xs, ct, rt, lo, sep', hi, 0, order) && Held(xs, after)
    ensures |xs[0].keys| == |ct.keys| + 1 && |xs[1].keys| == |rt.keys| - 1
  {
    hide Held, PairOk, Entries, Flat, LeavesOf, NodesOf;
    HeldLeafPair(ct, rt, after);
    LeafShiftsLeft(ct, rt, lo, sep, hi, order);
    c.keys := c.keys + [r.keys[0]];
    r.keys := r.keys[1..];
    c.values := c.values + [r.values[0]];
    r.values := r.values[1..];
    sep' := r.keys[0];
    xs := [Leaf(c, c.keys, c.values), Leaf(r, r.keys, r.values)];
    LeafPair(ct, rt);
    LeafPair(xs[0], xs[1]);
    PairOfLeaves(xs[0], xs[1], after);
  }

  method MergeLeaves(l: Node, r: Node, ghost lt: Tree, ghost rt: Tree, ghost lo: Bound, ghost sep: int, ghost hi: Bound,
                     ghost order: nat, ghost after: Node?)
    returns (ghost x: Tree)
    requires order >= 3 && lt.Leaf? && rt.Leaf? && lt.node == l && rt.node == r && Held([lt, rt], after)
    requires PairOk(lt, rt, lo, sep, hi, 0, order)
    modifies l
    ensures Merged(x, lt, rt, lo, hi, 0, order) && Held([x], after) && |x.keys| == |lt.keys| + |rt.keys|
  {
    hide Held, PairOk, Entries, Flat, LeavesOf, NodesOf, Ok;
    HeldLeafPair(lt, rt, after);
    LeafJoin(l, lt, rt, lo, sep, hi, order);
    l.keys := l.keys + r.keys;
    l.values := l.values + r.values;
    l.next := r.next;
    x := Leaf(l, l.keys, l.values);
    LeafPair(lt, rt);
    LeafHeld(x, after);
  }

  method InnerFromLeft(c: Node, l: Node, sep: int, ghost lt: Tree, ghost ct: Tree, ghost lo: Bound, ghost hi: Bound,
                       ghost h: nat, ghost order: nat, ghost after: Node?)
    returns (sep': int, ghost xs: seq<Tree>)
    requires order >= 3 && lt.Inner? && ct.Inner? && lt.node == l && ct.node == c && Held([lt, ct], after)
    requires h > 0 && PairOk(lt, ct, lo, sep, hi, h, order) && |lt.keys| >= 1
    modifies l`keys, l`children, c`keys, c`children
    ensures Shifted(xs, lt, ct, lo, sep', hi, h, order) && Held(xs, after)
    ensures |xs[0].keys| == |lt.keys| - 1 && |xs[1].keys| == |ct.keys| + 1
  {
    hide Held, PairOk, Entries, Flat, LeavesOf, NodesOf, Roots;
    ghost var ts := lt.children + ct.children;
    HeldInners(lt, ct, ts, after);
    InnerShiftsRight(lt, ct, lo, sep, hi, h, order);
    var m := |l.keys| - 1;
    c.keys := [sep] + c.keys;
    sep' := l.keys[m];
    l.keys := l.keys[..m];
    c.children := [l.children[m + 1]] + c.children;
    l.children := l.children[..m + 1];
    xs := [Inner(l, l.keys, lt.children[..m + 1]), Inner(c, c.keys, [lt.children[m + 1]] + ct.children)];
    RootsCut(lt.children, m + 1);
    RootsConcat([lt.children[m + 1]], ct.children);
    LastMoved(lt.children, ct.children);
    HeldInners(xs[0], xs[1], ts, after);
  }

  lemma LastMoved<T>(a: seq<T>, b: seq<T>)
    requires a != []
    ensures a[..|a| - 1] + ([a[|a| - 1]] + b) == a + b
  {}

  lemma FirstMoved<T>(a: seq<T>, b: seq<T>)
    requires b != []
    ensures (a + [b[0]]) + b[1..] == a + b
  {}

  method InnerFromRight(c: Node, r: Node, sep: int, ghost ct: Tree, ghost rt: Tree, ghost lo: Bound, ghost hi: Bound,
                        ghost h: nat, ghost order: nat, ghost after: Node?)
    returns (sep': int, ghost xs: seq<Tree>)
    requires order >= 3 && ct.Inner? && rt.Inner? && ct.node == c && rt.node == r && Held([ct, rt], after)
    requires h > 0 && PairOk(ct, rt, lo, sep, hi, h, order) && |rt.keys| >= 1
    modifies c`keys, c`children, r`keys, r`children
    ensures Shifted(xs, ct, rt, lo, sep', hi, h, order) && Held(xs, after)
    ensures |xs[0].keys| == |ct.keys| + 1 && |xs[1].keys| == |rt.keys| - 1
  {
    hide Held, PairOk, Entries, Flat, LeavesOf, NodesOf, Roots;
    ghost var ts := ct.children + rt.children;
    HeldInners(ct, rt, ts, after);
    InnerShiftsLeft(ct, rt, lo, sep, hi, h, order);
    c.keys := c.keys + [sep];
    sep' := r.keys[0];
    r.keys := r.keys[1..];
    c.children := c.children + [r.children[0]];
    r.children := r.children[1..];
    xs := [Inner(c, c.keys, ct.children + [rt.children[0]]), Inner(r, r.keys, rt.children[1..])];
    RootsCut(rt.children, 1);
    RootsConcat(ct.children, [rt.children[0]]);
    FirstMoved(ct.children, rt.children);
    HeldInners(xs[0], xs[1], ts, after);
  }

  method MergeInners(l: Node, r: Node, sep: int, ghost lt: Tree, ghost rt: Tree, ghost lo: Bound, ghost hi: Bound,
                     ghost h: nat, ghost order: nat, ghost after: Node?)
    returns (ghost x: Tree)
    requires order >= 3 && lt.Inner? && rt.Inner? && lt.node == l && rt.node == r && Held([lt, rt], after)
    requires h > 0 && PairOk(lt, rt, lo, sep, hi, h, order)
    modifies l`keys, l`children
    ensures Merged(x, lt, rt, lo, hi, h, order) && Held([x], after) && |x.keys| == |lt.keys| + 1 + |rt.keys|
  {
    hide Held, PairOk, Entries, Flat, Leaves, LeavesOf, NodesOf, Nodes, Roots, Ok;
    ghost var ts := lt.children + rt.children;
    HeldInners(lt, rt, ts, after);
    InnerJoin(l, lt, rt, lo, sep, hi, h, order);
    l.keys := l.keys + [sep] + r.keys;
    l.children := l.children + r.children;
    x := Inner(l, l.keys, ts);
    RootsConcat(lt.children, rt.children);
    HeldInner(x, after);
    InnerParts(x);
    InnerParts(lt);
    LeavesConcat(lt.children, rt.children);
    PairLeaf(lt, rt, lo, sep, hi, h, order);
  }

  lemma PairLeaf(l: Tree, r: Tree, lo: Bound, sep: int, hi: Bound, h: nat, order: nat)
    requires order >= 3 && PairOk(l, r, lo, sep, hi, h, order)
    ensures Leaves(l) != []
  {
    SomeLeaf(l, lo, At(sep), h, order);
  }
}
