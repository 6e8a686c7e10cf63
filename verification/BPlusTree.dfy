/** The B+ tree of `Java-BTree/src/btree/BPlusTree.java`: a mutable tree of nodes with a chain
    through its leaves, behaving as a sorted finite map. */
module BPlusTrees {
  import opened Options
  import opened Arithmetic
  import opened BTreeEntries
  import opened BTreeShape
  import opened BTreeNodes
  import opened BTreeHeap
  import opened BTreeInsert
  import opened BTreeDelete
  import opened BTreeRebalance
  import opened BTreeChain
  import opened BTreeInvariants

  class BPlusTree {
    const order: nat
    var root: Node
    var firstLeaf: Node
    var size: int
    var lastPut: Option<Value>
    var lastRemoved: Option<Value>
    ghost var tree: Tree
    ghost var levels: nat        // below the root

    ghost predicate Valid()
      reads this, Nodes(tree)
    {
      && order >= 3 && tree.node == root && Held([tree], null)
      && RootOk(tree, levels, order)
      && Leaves(tree) != [] && firstLeaf == Leaves(tree)[0]
      && size == |Entries(tree)|
    }

    /** The map the tree stands for. */
    ghost function Contents(): map<int, Value>
      reads this
    {
      ToMap(Entries(tree))
    }

    constructor (order: nat)
      requires order >= 3
      ensures Valid() && this.order == order && Contents() == map[] && fresh(Nodes(tree))
    {
      this.order := order;
      var leaf := new Node(true);
      root, firstLeaf, size := leaf, leaf, 0;
      lastPut, lastRemoved := None, None;
      tree, levels := Leaf(leaf, [], []), 0;
      new;
      LeafHeld(tree, null);
    }

    // -------------------------------------------------------------- insertion

    method Insert(node: Node, key: int, value: Value, ghost t: Tree, ghost lo: Bound, ghost hi: Bound, ghost h: nat,
                  ghost after: Node?)
      returns (split: Split, ghost ts: seq<Tree>)
      requires order >= 3 && t.node == node && Held([t], after)
      requires Ok(t, lo, hi, h, order) && |t.keys| <= MaxKeys(order) && Within(key, lo, hi)
      modifies this`lastPut, this`size, Nodes(t)
      ensures Grew(ts, split, lo, hi, h, order) && Replaces(ts, t) && Held(ts, after)
      ensures forall n :: n in NodesOf(ts) && n !in Nodes(t) ==> fresh(n)
      ensures split.NoSplit? ==> |ts[0].keys| >= |t.keys|
      ensures Flat(ts) == With(Entries(t), key, value) && lastPut == Lookup(Entries(t), key)
      ensures size == old(size) + (if lastPut.None? then 1 else 0)
      decreases t
    {
      hide Ok, Held, Flat, LeavesOf, NodesOf, Entries, Leaves, Nodes, Grew, Replaces, Within;
      assert allocated(NodesOf([t]));
      KindAndParts(t, lo, hi, h, order, after);
      if node.isLeaf {
        split, ts := InsertIntoLeaf(node, key, value, t, lo, hi, after);
      } else {
        var ci := ChildIndex(node.keys, key, lo, hi);
        var childSplit: Split;
        ghost var xs;
        childSplit, xs := InsertBelow(node, ci, key, value, t, lo, hi, h, after);
        split, ts := AbsorbSplit(node, ci, childSplit, t, xs, lo, hi, h, after);
      }
    }

    method InsertIntoLeaf(leaf: Node, key: int, value: Value, ghost t: Tree, ghost lo: Bound, ghost hi: Bound,
                          ghost after: Node?)
      returns (split: Split, ghost ts: seq<Tree>)
      requires order >= 3 && t.Leaf? && t.node == leaf && Held([t], after)
      requires Ok(t, lo, hi, 0, order) && |t.keys| <= MaxKeys(order) && Within(key, lo, hi)
      modifies this`lastPut, this`size, leaf
      ensures Grew(ts, split, lo, hi, 0, order) && Replaces(ts, t) && Held(ts, after)
      ensures forall n :: n in NodesOf(ts) && n != leaf ==> fresh(n)
      ensures split.NoSplit? ==> |ts[0].keys| >= |t.keys|
      ensures Flat(ts) == With(Entries(t), key, value) && lastPut == Lookup(Entries(t), key)
      ensures size == old(size) + (if lastPut.None? then 1 else 0)
    {
      hide Ok, Held, Flat, LeavesOf, NodesOf, Entries, Leaves, Within, PairOk, Full;
      ghost var t';
      lastPut, t' := PutInLeaf(leaf, key, value, t, lo, hi, order, after);
      LeafLeaves(t);
      LeafLeaves(t');
      Singleton(t');
      assert allocated(NodesOf([t']));
      if lastPut.None? { size := size + 1; }
      HeldLeaf(t', after);
      if |leaf.keys| > MaxKeys(order) {
        split, ts := SplitLeaf(leaf, order, t', lo, hi, after);
      } else {
        split, ts := NoSplit, [t'];
      }
    }

    /** The recursive step, with what it leaves of the parent's children. */
    method InsertBelow(node: Node, ci: nat, key: int, value: Value, ghost t: Tree, ghost lo: Bound, ghost hi: Bound,
                       ghost h: nat, ghost after: Node?)
      returns (split: Split, ghost xs: seq<Tree>)
      requires order >= 3 && t.Inner? && t.node == node && Held([t], after)
      requires Ok(t, lo, hi, h, order) && Below(t.keys, key, ci, lo, hi)
      modifies this`lastPut, this`size, Nodes(t)
      ensures h > 0 && ci < |t.children| == |t.keys| + 1 && NodeRep(t)
      ensures Grew(xs, split, Lo(t.keys, ci, lo), Hi(t.keys, ci, hi), h - 1, order) && Replaces(xs, t.children[ci])
      ensures split.NoSplit? ==> |xs[0].keys| >= |t.children[ci].keys|
      ensures Held(Swapped(t.children, ci, xs), after) && t.node !in NodesOf(Swapped(t.children, ci, xs))
      ensures forall n :: n in NodesOf(Swapped(t.children, ci, xs)) && n !in Nodes(t) ==> fresh(n)
      ensures Flat(Swapped(t.children, ci, xs)) == With(Entries(t), key, value) && lastPut == Lookup(Entries(t), key)
      ensures size == old(size) + (if lastPut.None? then 1 else 0)
      decreases t, 0
    {
      hide Ok, ChildrenOk, Held, Flat, LeavesOf, NodesOf, Entries, Leaves, Nodes, Grew, With, Lookup, NodeRep;
      ghost var ts := t.children;
      InnerPositive(t, lo, hi, h, order);
      InnerSized(t, lo, hi, h, order);
      ChildFacts(t, ci, lo, hi, h, order);
      InnerParts(t);
      HeldInner(t, after);
      HeldAround(ts, ci, after);
      UpdateInChild(ts, t.keys, lo, hi, h - 1, order, ci, key, value);
      assert allocated(NodesOf(ts));
      NodeRepRoots(t);
      split, xs := Insert(node.children[ci], key, value, ts[ci], Lo(t.keys, ci, lo), Hi(t.keys, ci, hi), h - 1,
                          First(LeavesOf(ts[ci + 1..]), after));
      ReplacesLeaf(xs, ts[ci]);
      HeldThree(ts[..ci], xs, ts[ci + 1..], after);
      SwappedContents(ts, ci, xs);
    }

    method AbsorbSplit(node: Node, ci: nat, childSplit: Split, ghost t: Tree, ghost xs: seq<Tree>,
                       ghost lo: Bound, ghost hi: Bound, ghost h: nat, ghost after: Node?)
      returns (split: Split, ghost ts: seq<Tree>)
      requires order >= 3 && t.Inner? && t.node == node && NodeRep(t) && Ok(t, lo, hi, h, order) &&
        |t.keys| <= MaxKeys(order)
      requires h > 0 && ci < |t.children| == |t.keys| + 1
      requires Grew(xs, childSplit, Lo(t.keys, ci, lo), Hi(t.keys, ci, hi), h - 1, order) &&
        Replaces(xs, t.children[ci])
      requires childSplit.NoSplit? ==> |xs[0].keys| >= |t.children[ci].keys|
      requires Held(Swapped(t.children, ci, xs), after) && t.node !in NodesOf(Swapped(t.children, ci, xs))
      modifies node
      ensures Grew(ts, split, lo, hi, h, order) && Replaces(ts, t) && Held(ts, after)
      ensures forall n :: n in NodesOf(ts) && n != node && n !in NodesOf(Swapped(t.children, ci, xs)) ==> fresh(n)
      ensures split.NoSplit? ==> |ts[0].keys| >= |t.keys|
      ensures Flat(ts) == Flat(Swapped(t.children, ci, xs))
    {
      hide Ok, ChildrenOk, Held, Flat, LeavesOf, NodesOf, Entries, Leaves, Nodes, Roots, PairOk, AllFull, Full, Lo, Hi;
      ghost var kids := Swapped(t.children, ci, xs);
      assert allocated(NodesOf(kids));
      AbsorbedOk(t, ci, xs, childSplit, lo, hi, h, order);
      RootsSwapped(t.children, ci, xs, childSplit);
      if childSplit.SplitAt? {
        node.keys := node.keys[..ci] + [childSplit.key] + node.keys[ci..];
        node.children := node.children[..ci + 1] + [childSplit.right] + node.children[ci + 1..];
      }
      ghost var t' := Inner(node, Wedged(t.keys, ci, childSplit), kids);
      HeldInner(t', after);
      InnerParts(t');
      InnerParts(t);
      SameFirstLeaf(t.children, ci, xs);
      if |node.keys| > MaxKeys(order) {
        split, ts := SplitInternal(node, order, t', lo, hi, h, after);
      } else {
        split, ts := NoSplit, [t'];
        Singleton(t');
      }
    }

    /** `put`: the map gains or changes one key; the previous value comes back. */
    method Put(key: int, value: Value) returns (previous: Option<Value>)
      requires Valid()
      modifies this, Nodes(tree)
      ensures Valid()
      ensures forall n :: n in Nodes(tree) && n !in old(Nodes(tree)) ==> fresh(n)
      ensures Contents() == old(Contents())[key := value]
      ensures previous == if key in old(Contents()) then Some(old(Contents())[key]) else None
    {
      hide Ok, Held, Flat, LeavesOf, NodesOf, Entries, Leaves, Nodes, ToMap, With, Lookup, Within;
      ghost var es := Entries(tree);
      EntriesOrdered(tree, Open, Open, levels, order);
      PutIsUpdate(es, key, value);
      LookupIsMap(es, key);
      PutLength(es, key, value);
      NoBounds(key);
      var split;
      ghost var ts;
      split, ts := Insert(root, key, value, tree, Open, Open, levels, null);
      assert allocated(NodesOf(ts));
      if split.SplitAt? {
        GrowRoot(split, ts);
      } else {
        SameRoot(ts[0], levels, order, tree);
        Singleton(ts[0]);
        assert ts == [ts[0]];
        tree := ts[0];
      }
      previous := lastPut;
    }

    /** A new root over the two halves of the old one. */
    method GrowRoot(split: Split, ghost ts: seq<Tree>)
      requires order >= 3 && split.SplitAt? && Grew(ts, split, Open, Open, levels, order) && Held(ts, null)
      requires ts[0].node == root && LeavesOf(ts) != [] && firstLeaf == LeavesOf(ts)[0] && size == |Flat(ts)|
      modifies this`root, this`tree, this`levels
      ensures Valid() && Entries(tree) == Flat(ts)
      ensures forall n :: n in Nodes(tree) && n !in NodesOf(ts) ==> fresh(n)
    {
      hide Ok, Held, Flat, LeavesOf, NodesOf, Entries, Leaves, Nodes, Full;
      assert allocated(NodesOf(ts));
      var newRoot := new Node(false);
      newRoot.keys := [split.key];
      newRoot.children := [root, split.right];
      root := newRoot;
      tree := Inner(newRoot, [split.key], ts);
      RootGrows(tree, split, levels, order);
      levels := levels + 1;
      PairRoots(ts);
      HeldInner(tree, null);
      InnerParts(tree);
    }

    // -------------------------------------------------------------- deletion

    method Delete(node: Node, key: int, ghost t: Tree, ghost lo: Bound, ghost hi: Bound, ghost h: nat,
        ghost after: Node?)
      returns (ghost t': Tree)
      requires order >= 3 && t.node == node && Held([t], after)
      requires Ok(t, lo, hi, h, order) && (t.Inner? ==> |t.keys| >= 1) && Within(key, lo, hi)
      modifies this`lastRemoved, this`size, Nodes(t)
      ensures Shrunk(t', t, lo, hi, h, order) && Held([t'], after)
      ensures Entries(t') == Without(Entries(t), key)
      ensures var found := Lookup(Entries(t), key);
        && lastRemoved == (if found.Some? then found else old(lastRemoved))
        && size == old(size) - (if found.Some? then 1 else 0)
      decreases t
    {
      hide Ok, Held, Flat, LeavesOf, NodesOf, Entries, Leaves, Nodes, Within, Shrunk, Full, Lookup, Without;
      assert allocated(NodesOf([t]));
      KindAndParts(t, lo, hi, h, order, after);
      if node.isLeaf {
        t' := DeleteFromLeaf(node, key, t, lo, hi, after);
      } else {
        var ci := ChildIndex(node.keys, key, lo, hi);
        ghost var t1 := DeleteBelow(node, ci, key, t, lo, hi, h, after);
        assert allocated(NodesOf([t1]));
        ChildSize(t1, ci, after);
        if |node.children[ci].keys| < MinKeys(order) {
          OneShortStarves(t1, t, ci, lo, hi, h, order);
          t' := Rebalance(node, ci, order, t1, lo, hi, h, after);
          MendedShrinks(t', t1, t, ci, lo, hi, h, order);
        } else {
          t' := t1;
          OneShortShrinks(t', t, ci, lo, hi, h, order);
        }
      }
    }

    method DeleteFromLeaf(leaf: Node, key: int, ghost t: Tree, ghost lo: Bound, ghost hi: Bound, ghost after: Node?)
      returns (ghost t': Tree)
      requires order >= 3 && t.Leaf? && t.node == leaf && Held([t], after) && Ok(t, lo, hi, 0, order)
      modifies this`lastRemoved, this`size, leaf
      ensures Shrunk(t', t, lo, hi, 0, order) && Held([t'], after)
      ensures Entries(t') == Without(Entries(t), key)
      ensures var found := Lookup(Entries(t), key);
        && lastRemoved == (if found.Some? then found else old(lastRemoved))
        && size == old(size) - (if found.Some? then 1 else 0)
    {
      hide Ok, Held, Entries, NodesOf, Leaves, Nodes, Without, Lookup;
      var removed;
      removed, t' := RemoveFromLeaf(leaf, key, t, lo, hi, order, after);
      LeafLeaves(t);
      LeafLeaves(t');
      Singleton(t');
      assert allocated(NodesOf([t']));
      if removed.Some? {
        lastRemoved := removed;
        size := size - 1;
      }
    }

    /** The recursive step: the child may come out one key short. */
    method DeleteBelow(node: Node, ci: nat, key: int, ghost t: Tree, ghost lo: Bound, ghost hi: Bound, ghost h: nat,
                       ghost after: Node?)
      returns (ghost t1: Tree)
      requires order >= 3 && t.Inner? && t.node == node && Held([t], after)
      requires Ok(t, lo, hi, h, order) && Below(t.keys, key, ci, lo, hi)
      modifies this`lastRemoved, this`size, Nodes(t)
      ensures OneShort(t1, t, ci, lo, hi, h, order) && Held([t1], after)
      ensures Entries(t1) == Without(Entries(t), key)
      ensures var found := Lookup(Entries(t), key);
        && lastRemoved == (if found.Some? then found else old(lastRemoved))
        && size == old(size) - (if found.Some? then 1 else 0)
      decreases t, 0
    {
      hide Ok, ChildrenOk, Held, Flat, LeavesOf, NodesOf, Entries, Leaves, Nodes, Without, Lookup, NodeRep, OneShort,
           Shrunk, Full;
      ghost var ts := t.children;
      InnerPositive(t, lo, hi, h, order);
      InnerSized(t, lo, hi, h, order);
      ChildFacts(t, ci, lo, hi, h, order);
      FullHasKeys(ts[ci], order);
      InnerParts(t);
      HeldInner(t, after);
      HeldAround(ts, ci, after);
      RemoveInChild(ts, t.keys, lo, hi, h - 1, order, ci, key);
      assert allocated(NodesOf(ts)) && allocated(Nodes(t));
      NodeRepRoots(t);
      ghost var x := Delete(node.children[ci], key, ts[ci], Lo(t.keys, ci, lo), Hi(t.keys, ci, hi), h - 1,
                            First(LeavesOf(ts[ci + 1..]), after));
      t1 := Inner(node, t.keys, Swapped(ts, ci, [x]));
      ShrunkParts(x, ts[ci], Lo(t.keys, ci, lo), Hi(t.keys, ci, hi), h - 1, order);
      Singleton(x);
      HeldThree(ts[..ci], [x], ts[ci + 1..], after);
      RootsSwapped(ts, ci, [x], NoSplit);
      NodeRepAgain(t, t1);
      HeldInner(t1, after);
      SwappedContents(ts, ci, [x]);
      InnerParts(t1);
      MakesOneShort(t1, t, ci, x, lo, hi, h, order);
    }

    /** `remove`: the map loses the key, and the removed value comes back. */
    method Remove(key: int) returns (removed: Option<Value>)
      requires Valid()
      modifies this, Nodes(tree)
      ensures Valid() && Nodes(tree) <= old(Nodes(tree))
      ensures Contents() == old(Contents()) - {key}
      ensures removed == if key in old(Contents()) then Some(old(Contents())[key]) else None
    {
      hide Ok, Held, Flat, LeavesOf, NodesOf, Entries, Leaves, Nodes, ToMap, Without, Lookup, Within;
      ghost var es := Entries(tree);
      EntriesOrdered(tree, Open, Open, levels, order);
      RemoveIsMinus(es, key);
      LookupIsMap(es, key);
      RemoveLength(es, key);
      NoBounds(key);
      assert allocated(NodesOf([tree]));
      lastRemoved := None;
      ghost var t := Delete(root, key, tree, Open, Open, levels, null);
      assert allocated(NodesOf([t]));
      KindAndParts(t, Open, Open, levels, order, null);
      if !root.isLeaf && |root.children| == 1 {
        ShrinkRoot(t);
      } else {
        RootStays(t, levels, order, null);
        tree := t;
      }
      removed := lastRemoved;
    }

    /** The only child of the root takes its place. */
    method ShrinkRoot(ghost t: Tree)
      requires order >= 3 && t.Inner? && t.node == root && |root.children| == 1 && Held([t], null)
      requires Ok(t, Open, Open, levels, order) && Leaves(t) != [] && firstLeaf == Leaves(t)[0] && size == |Entries(t)|
      modifies this`root, this`tree, this`levels
      ensures Valid() && Entries(tree) == Entries(t) && Nodes(tree) <= Nodes(t)
      ensures lastRemoved == old(lastRemoved)
    {
      hide Ok, Held, Flat, LeavesOf, NodesOf, Entries, Leaves, Nodes, Full;
      HeldInner(t, null);
      InnerParts(t);
      OnlyChild(t, levels, order);
      assert allocated(NodesOf(t.children)) && allocated(NodesOf([t]));
      Singleton(t.children[0]);
      assert t.children == [t.children[0]];
      root := root.children[0];
      tree := t.children[0];
      levels := levels - 1;
    }

    // -------------------------------------------------------------- search

    /** `leafFor`: the leaf that holds the key if any does; everything in the leaves before it is
        smaller, everything after it larger. */
    method LeafFor(key: int) returns (leaf: Node, ghost before: seq<Tree>, ghost t: Tree, ghost later: seq<Tree>)
      requires Valid()
      ensures t.Leaf? && t.node == leaf && Rep(t) && LeafTrees(tree) == before + [t] + later
      ensures AllBelow(Flat(before), key) && AllFrom(Flat(later), key + 1)
    {
      hide Ok, Held, Flat, NodesOf, Entries, Leaves, Nodes, LeafTrees, AllLeafTrees, AllBelow, AllFrom, Within;
      t, before, later := tree, [], [];
      ghost var lo, hi, h := Open, Open, levels;
      NoBounds(key);
      SeekStarts(tree, key);
      leaf := root;
      HeldRep(tree, null);
      RepKind(t);
      while !leaf.isLeaf
        invariant t.node == leaf && Rep(t) && Ok(t, lo, hi, h, order) && Within(key, lo, hi)
        invariant leaf.isLeaf <==> t.Leaf?
        invariant Sought(tree, before, t, later, key)
        decreases t
      {
        InnerPositive(t, lo, hi, h, order);
        InnerSized(t, lo, hi, h, order);
        assert allocated(Nodes(t));
        var ci := ChildIndex(leaf.keys, key, lo, hi);
        SeekDescends(tree, before, t, later, ci, key, lo, hi, h, order);
        ChildFacts(t, ci, lo, hi, h, order);
        RepChildren(t);
        leaf := leaf.children[ci];
        before, later := before + AllLeafTrees(t.children[..ci]), AllLeafTrees(t.children[ci + 1..]) + later;
        lo, hi, h := Lo(t.keys, ci, lo), Hi(t.keys, ci, hi), h - 1;
        t := t.children[ci];
        RepKind(t);
      }
      SeekEnds(tree, before, t, later, key);
    }

    /** `get`: the value the map gives the key. */
    method Get(key: int) returns (value: Option<Value>)
      requires Valid()
      ensures value == if key in Contents() then Some(Contents()[key]) else None
    {
      hide Ok, Held, Flat, NodesOf, Entries, Leaves, Nodes, LeafTrees, ToMap, Lookup;
      ghost var before, t, later;
      var leaf;
      leaf, before, t, later := LeafFor(key);
      LeafAmong(tree, before, t, later, Open, Open, levels, order);
      LeafKeys(t);
      LookupMiddle(Flat(before), Entries(t), Flat(later), key);
      LookupIsMap(Entries(tree), key);
      LeafEntries(t);
      var i := LeafIndex(leaf.keys, key);
      LeafLookup(t.keys, t.values, key, i);
      value := if i >= 0 then Some(leaf.values[i]) else None;
    }

    method ContainsKey(key: int) returns (found: bool)
      requires Valid()
      ensures found <==> key in Contents()
    {
      var value := Get(key);
      found := value.Some?;
    }

    /** `range`: exactly the entries with `from <= key < to`, in ascending order. */
    method Range(from: Option<int>, to: Option<int>) returns (out: seq<Entry>)
      requires Valid()
      ensures out == Between(Entries(tree), from, to) && Ascending(out)
      ensures ToMap(out) == map k | k in Contents() && InRange(k, from, to) :: Contents()[k]
    {
      hide ToMap, InRange;
      hide Ok, Held, Flat, NodesOf, Entries, Leaves, Nodes, LeafTrees, Between, Ascending, AllBelow, AllFrom;
      hide Linked, RepAll, Roots, AllLeafShaped, Scanned;
      ghost var ls := LeafTrees(tree);
      assert allocated(NodesOf([tree])) && allocated(NodesOf(ls)) && allocated(Roots(ls));
      EntriesOrdered(tree, Open, Open, levels, order);
      BetweenIsSubMap(Entries(tree), from, to);
      BetweenAscends(Entries(tree), from, to);
      ghost var j: nat := 0;
      var leaf: Node?;
      if from.None? {
        leaf := firstLeaf;
      } else {
        ghost var before, t, later;
        leaf, before, t, later := LeafFor(from.value);
        j := |before|;
        assert ls[..j] == before && ls[j] == t;
      }
      ChainOfLeaves(tree, Open, Open, levels, order);
      FirstOfRest(ls, j);
      ScanStarts(ls, j, from, to);
      out := [];
      while leaf != null
        invariant j <= |ls| && leaf == (if j < |ls| then ls[j].node else null)
        invariant Scanned(ls, j, from, to, out) && RepAll(ls) && Linked(Roots(ls), null)
        decreases |ls| - j
      {
        ChainStep(ls, j);
        ScanMoves(ls, j, from, to, out);
        var stop;
        out, stop := ScanLeaf(leaf.keys, leaf.values, from, to, out);
        if stop {
          ScanStops(ls, j, from, to, out);
          return;
        }
        leaf := leaf.next;
        j := j + 1;
        FirstOfRest(ls, j);
      }
      ScanComplete(ls, from, to, out);
    }

    /** `entries`. */
    method AllEntries() returns (out: seq<Entry>)
      requires Valid()
      ensures Ascending(out) && ToMap(out) == Contents()
    {
      EntriesOrdered(tree, Open, Open, levels, order);
      out := Range(None, None);
      BetweenOpen(Entries(tree));
    }

    /** `height`: levels of nodes, found down the leftmost edge. */
    method Height() returns (n: nat)
      requires Valid()
      ensures n == levels + 1
      ensures n >= 2 ==> |Contents()| >= 2 * MinKeys(order) * Power(MinKeys(order) + 1, n - 2)
    {
      hide Ok, Held, Entries, Leaves, Nodes, Within, Power, ToMap;
      SizeIsCount(this);
      HoldsAtHeight(tree, levels, order);
      ghost var t, lo, hi, h := tree, Open, Open, levels;
      HeldRep(tree, null);
      RepKind(t);
      var node := root;
      n := 1;
      while !node.isLeaf
        invariant t.node == node && Rep(t) && Ok(t, lo, hi, h, order) && n + h == levels + 1
        invariant node.isLeaf <==> t.Leaf?
        decreases t
      {
        InnerPositive(t, lo, hi, h, order);
        RepChildren(t);
        ChildFacts(t, 0, lo, hi, h, order);
        node := node.children[0];
        lo, hi, h := Lo(t.keys, 0, lo), Hi(t.keys, 0, hi), h - 1;
        t := t.children[0];
        RepKind(t);
        n := n + 1;
      }
      InnerPositive(t, lo, hi, h, order);
    }
  }

  /** What holds of the root, which may be short of keys but not of children. */
  ghost predicate RootOk(t: Tree, levels: nat, order: nat)
    requires order >= 3
  {
    Ok(t, Open, Open, levels, order) && |t.keys| <= MaxKeys(order) && (t.Inner? ==> |t.keys| >= 1)
  }

  lemma KindAndParts(t: Tree, lo: Bound, hi: Bound, h: nat, order: nat, after: Node?)
    requires order >= 3 && Held([t], after) && Ok(t, lo, hi, h, order)
    ensures t.node.isLeaf <==> t.Leaf?
    ensures t.node.keys == t.keys && t.node in Nodes(t) && (t.Leaf? ==> h == 0 && Nodes(t) == {t.node})
  {
    RepSingleton(t);
  }

  lemma ChildFacts(t: Tree, i: nat, lo: Bound, hi: Bound, h: nat, order: nat)
    requires order >= 3 && h > 0 && Ok(t, lo, hi, h, order) && i <= |t.keys|
    ensures t.Inner? && i < |t.children| && Ok(t.children[i], Lo(t.keys, i, lo), Hi(t.keys, i, hi), h - 1, order)
    ensures Full(t.children[i], order) && Leaves(t.children[i]) != []
  {
    SomeLeaf(t.children[i], Lo(t.keys, i, lo), Hi(t.keys, i, hi), h - 1, order);
  }

  lemma NodeRepRoots(t: Tree)
    requires t.Inner? && NodeRep(t)
    ensures |t.node.children| == |t.children| && t.node.keys == t.keys
    ensures forall i :: 0 <= i < |t.children| ==> t.node.children[i] == t.children[i].node
  {}

  lemma ReplacesLeaf(xs: seq<Tree>, t: Tree)
    requires Replaces(xs, t)
    ensures LeavesOf(xs) != [] && Leaves(t) != [] && LeavesOf(xs)[0] == Leaves(t)[0]
  {}

  lemma AbsorbedOk(t: Tree, ci: nat, xs: seq<Tree>, split: Split, lo: Bound, hi: Bound, h: nat, order: nat)
    requires order >= 3 && t.Inner? && h > 0 && Ok(t, lo, hi, h, order) && ci < |t.children| == |t.keys| + 1
    requires Grew(xs, split, Lo(t.keys, ci, lo), Hi(t.keys, ci, hi), h - 1, order) && xs != []
    requires split.NoSplit? ==> |xs[0].keys| >= |t.children[ci].keys|
    ensures Ok(Inner(t.node, Wedged(t.keys, ci, split), Swapped(t.children, ci, xs)), lo, hi, h, order)
  {
    InnerSized(t, lo, hi, h, order);
    OkBefore(t, lo, hi, h, order);
    hide Ok, ChildrenOk, AllFull, Grew, Wedged, Swapped;
    GrowthOk(t.children, t.keys, ci, xs, split, lo, hi, h - 1, order);
    InnerOk(t.node, Wedged(t.keys, ci, split), Swapped(t.children, ci, xs), lo, hi, h, order);
  }

  lemma OkBefore(t: Tree, lo: Bound, hi: Bound, h: nat, order: nat)
    requires order >= 3 && Ok(t, lo, hi, h, order)
    ensures Before(lo, hi)
  {}

  // ---------------------------------------------------------------- deletion, on snapshots

  ghost predicate Shrunk(t': Tree, t: Tree, lo: Bound, hi: Bound, h: nat, order: nat)
    requires order >= 3
  {
    && t'.node == t.node && Ok(t', lo, hi, h, order) && |t.keys| - 1 <= |t'.keys| <= |t.keys|
    && Nodes(t') <= Nodes(t) && Leaves(t) != [] && Leaves(t') != [] && Leaves(t')[0] == Leaves(t)[0]
  }

  lemma ShrunkParts(t': Tree, t: Tree, lo: Bound, hi: Bound, h: nat, order: nat)
    requires order >= 3 && Shrunk(t', t, lo, hi, h, order)
    ensures t'.node == t.node && Nodes(t') <= Nodes(t)
    ensures Leaves(t) != [] && Leaves(t') != [] && Leaves(t')[0] == Leaves(t)[0]
  {}

  /** All in order but for child `ci`, which may be one key short. */
  ghost predicate OneShort(t1: Tree, t: Tree, ci: nat, lo: Bound, hi: Bound, h: nat, order: nat)
    requires order >= 3
  {
    && t1.Inner? && h > 0 && t1.node == t.node && t1.keys == t.keys && Before(lo, hi)
    && ChildrenOk(t1.children, t1.keys, lo, hi, h - 1, order)
    && ci < |t1.children| && MinKeys(order) - 1 <= |t1.children[ci].keys| <= MaxKeys(order)
    && (forall i :: 0 <= i < |t1.children| && i != ci ==> Full(t1.children[i], order))
    && Nodes(t1) <= Nodes(t) && Leaves(t) != [] && Leaves(t1) != [] && Leaves(t1)[0] == Leaves(t)[0]
  }

  lemma MakesOneShort(t1: Tree, t: Tree, ci: nat, x: Tree, lo: Bound, hi: Bound, h: nat, order: nat)
    requires order >= 3 && t.Inner? && h > 0 && Ok(t, lo, hi, h, order) && ci < |t.children| == |t.keys| + 1
    requires Shrunk(x, t.children[ci], Lo(t.keys, ci, lo), Hi(t.keys, ci, hi), h - 1, order)
    requires t1 == Inner(t.node, t.keys, Swapped(t.children, ci, [x]))
    ensures OneShort(t1, t, ci, lo, hi, h, order)
  {
    InnerSized(t, lo, hi, h, order);
    OkBefore(t, lo, hi, h, order);
    ChildFacts(t, ci, lo, hi, h, order);
    hide Ok, Leaves, LeavesOf, Nodes, NodesOf, ChildrenOk;
    ChildReplaced(t.children, t.keys, ci, x, lo, hi, h - 1, order);
    ReplacedKeeps(t1, t, ci, x);
  }

  lemma ChildReplaced(ts: seq<Tree>, keys: seq<int>, i: nat, x: Tree, lo: Bound, hi: Bound, h: nat, order: nat)
    requires order >= 3 && ChildrenOk(ts, keys, lo, hi, h, order) && i < |ts| == |keys| + 1
    requires Ok(x, Lo(keys, i, lo), Hi(keys, i, hi), h, order)
    ensures ChildrenOk(Swapped(ts, i, [x]), keys, lo, hi, h, order)
  {
    hide Ok;
    assert ChildrenOk([x], [], Lo(keys, i, lo), Hi(keys, i, hi), h, order);
    assert keys[..i] + [] + keys[i..] == keys;
    hide ChildrenOk;
    Splice(ts, keys, lo, hi, h, order, i, i + 1, [x], []);
  }

  lemma ReplacedKeeps(t1: Tree, t: Tree, ci: nat, x: Tree)
    requires t.Inner? && ci < |t.children| && t1 == Inner(t.node, t.keys, Swapped(t.children, ci, [x]))
    requires x.node == t.children[ci].node && Nodes(x) <= Nodes(t.children[ci])
    requires Leaves(t.children[ci]) != [] && Leaves(x) != [] && Leaves(x)[0] == Leaves(t.children[ci])[0]
    ensures Nodes(t1) <= Nodes(t) && Leaves(t) != [] && Leaves(t1) != [] && Leaves(t1)[0] == Leaves(t)[0]
  {
    hide Leaves, LeavesOf, Nodes, NodesOf;
    Singleton(x);
    SameFirstLeaf(t.children, ci, [x]);
    SwappedNodes(t.children, ci, x);
    InnerParts(t);
    InnerParts(t1);
  }

  lemma SwappedNodes(ts: seq<Tree>, i: nat, x: Tree)
    requires i < |ts| && Nodes(x) <= Nodes(ts[i])
    ensures NodesOf(Swapped(ts, i, [x])) <= NodesOf(ts)
  {
    hide Nodes, NodesOf;
    SeqAround(ts, i);
    Singleton(x);
    Singleton(ts[i]);
    NodesConcat(ts[..i] + [x], ts[i + 1..]);
    NodesConcat(ts[..i], [x]);
    NodesConcat(ts[..i] + [ts[i]], ts[i + 1..]);
    NodesConcat(ts[..i], [ts[i]]);
  }

  lemma ChildSize(t1: Tree, ci: nat, after: Node?)
    requires t1.Inner? && Held([t1], after) && ci < |t1.children|
    ensures ci < |t1.node.children| && t1.node.children[ci].keys == t1.children[ci].keys
  {
    HeldInner(t1, after);
    HeldKeys(t1.children, after);
  }

  lemma OneShortStarves(t1: Tree, t: Tree, ci: nat, lo: Bound, hi: Bound, h: nat, order: nat)
    requires order >= 3 && OneShort(t1, t, ci, lo, hi, h, order) && |t.keys| >= 1
    requires |t1.children[ci].keys| < MinKeys(order)
    ensures Starved(t1, ci, lo, hi, h, order)
  {}

  lemma MendedShrinks(t': Tree, t1: Tree, t: Tree, ci: nat, lo: Bound, hi: Bound, h: nat, order: nat)
    requires order >= 3 && OneShort(t1, t, ci, lo, hi, h, order) && Mended(t', t1, lo, hi, h, order)
    ensures Shrunk(t', t, lo, hi, h, order) && Entries(t') == Entries(t1)
  {}

  lemma OneShortShrinks(t': Tree, t: Tree, ci: nat, lo: Bound, hi: Bound, h: nat, order: nat)
    requires order >= 3 && OneShort(t', t, ci, lo, hi, h, order) && |t'.children[ci].keys| >= MinKeys(order)
    ensures Shrunk(t', t, lo, hi, h, order)
  {
    hide ChildrenOk, Nodes, Leaves;
    InnerOk(t'.node, t'.keys, t'.children, lo, hi, h, order);
  }

  lemma FullHasKeys(t: Tree, order: nat)
    requires order >= 3 && Full(t, order)
    ensures |t.keys| >= 1
  {}

  lemma RemoveInChild(ts: seq<Tree>, keys: seq<int>, lo: Bound, hi: Bound, h: nat, order: nat, i: nat, key: int)
    requires order >= 3 && ChildrenOk(ts, keys, lo, hi, h, order) && Below(keys, key, i, lo, hi)
    ensures i < |ts| && Lookup(Flat(ts), key) == Lookup(Entries(ts[i]), key)
    ensures Without(Flat(ts), key) == Flat(ts[..i]) + Without(Entries(ts[i]), key) + Flat(ts[i + 1..])
  {
    assert i < |ts|;
    hide Ok, Flat, Entries, With, Lookup, Without, ChildrenOk;
    AroundChild(ts, keys, lo, hi, h, order, i, key);
    LookupMiddle(Flat(ts[..i]), Entries(ts[i]), Flat(ts[i + 1..]), key);
    RemoveMiddle(Flat(ts[..i]), Entries(ts[i]), Flat(ts[i + 1..]), key);
  }

  lemma NodeRepAgain(t: Tree, t1: Tree)
    requires t.Inner? && t1.Inner? && NodeRep(t) && t1.node == t.node && t1.keys == t.keys
    requires Roots(t1.children) == Roots(t.children)
    ensures NodeRep(t1)
  {}

  // ---------------------------------------------------------------- the root

  lemma NoBounds(key: int)
    ensures Within(key, Open, Open)
  {}

  lemma SameRoot(t': Tree, levels: nat, order: nat, t: Tree)
    requires order >= 3 && RootOk(t, levels, order) && Ok(t', Open, Open, levels, order)
    requires |t.keys| <= |t'.keys| <= MaxKeys(order)
    ensures RootOk(t', levels, order)
  {}

  lemma RootGrows(t: Tree, split: Split, levels: nat, order: nat)
    requires order >= 3 && t.Inner? && split.SplitAt? && t.keys == [split.key]
    requires Grew(t.children, split, Open, Open, levels, order)
    ensures RootOk(t, levels + 1, order)
  {
    hide Ok;
    InnerOk(t.node, t.keys, t.children, Open, Open, levels + 1, order);
  }

  lemma OnlyChild(t: Tree, levels: nat, order: nat)
    requires order >= 3 && t.Inner? && Ok(t, Open, Open, levels, order) && |Roots(t.children)| == 1
    ensures levels > 0 && |t.children| == 1 && RootOk(t.children[0], levels - 1, order)
  {
    InnerPositive(t, Open, Open, levels, order);
    ChildFacts(t, 0, Open, Open, levels, order);
  }

  lemma RootStays(t: Tree, levels: nat, order: nat, after: Node?)
    requires order >= 3 && Ok(t, Open, Open, levels, order) && |t.keys| <= MaxKeys(order)
    requires Held([t], after) && (t.Inner? ==> |t.node.children| != 1)
    ensures RootOk(t, levels, order)
  {
    if t.Inner? {
      HeldInner(t, after);
      InnerPositive(t, Open, Open, levels, order);
      InnerSized(t, Open, Open, levels, order);
    }
  }

  // ---------------------------------------------------------------- what always holds

  lemma SizeIsCount(b: BPlusTree)
    requires b.Valid()
    ensures b.size == |b.Contents()|
  {
    hide Held, Ok, Entries, Leaves, Nodes;
    EntriesOrdered(b.tree, Open, Open, b.levels, b.order);
    ToMapSize(Entries(b.tree));
  }

  /** `checkInvariants` finds nothing wrong with any tree that can be reached. */
  lemma InvariantsHold(b: BPlusTree)
    requires b.Valid()
    ensures CheckNode(b.tree, true, Open, Open, b.order)
    ensures forall d :: d in LeafDepths(b.tree, 1) ==> d == b.levels + 1
    ensures b.firstLeaf == Leaves(b.tree)[0] && Linked(Leaves(b.tree), null)
    ensures Flat(LeafTrees(b.tree)) == Entries(b.tree) && Ascending(Entries(b.tree)) && |Entries(b.tree)| == b.size
  {
    hide Ok, Entries, CheckNode, LeafDepths, LeafTrees;
    EntriesOrdered(b.tree, Open, Open, b.levels, b.order);
    PassesCheck(b.tree, true, Open, Open, b.levels, b.order);
    LeavesAtOneDepth(b.tree, Open, Open, b.levels, b.order, 1);
    LeafTreesFlat(b.tree);
    Singleton(b.tree);
  }

  /** Two full children at least, each with its share. */
  lemma HoldsAtHeight(t: Tree, levels: nat, order: nat)
    requires order >= 3 && RootOk(t, levels, order)
    ensures levels >= 1 ==> |Entries(t)| >= 2 * MinKeys(order) * Power(MinKeys(order) + 1, levels - 1)
  {
    if levels >= 1 {
      var each := MinKeys(order) * Power(MinKeys(order) + 1, levels - 1);
      InnerPositive(t, Open, Open, levels, order);
      InnerSized(t, Open, Open, levels, order);
      InnerParts(t);
      hide Ok, ChildrenOk, Entries, Flat, Power;
      ChildrenHold(t.children, t.keys, Open, Open, levels - 1, order);
      MulAtLeastProduct(each, 2, |t.children|);
      MulAssociates(2, MinKeys(order), Power(MinKeys(order) + 1, levels - 1));
    }
  }
}
