/** Insertion below one node: `insert`, `splitLeaf` and `splitInternal` of
    `Java-BTree/src/btree/BPlusTree.java`. */
module BTreeInsert {
  import opened Options
  import opened BTreeEntries
  import opened BTreeShape
  import opened BTreeNodes
  import opened BTreeHeap

  /** What an insertion hands to the parent: nothing, or a separator and a new right neighbour. */
  datatype Split = NoSplit | SplitAt(key: int, right: Node)

  /** The subtree and its new neighbour, if any, cover the old window. */
  ghost predicate Grew(ts: seq<Tree>, split: Split, lo: Bound, hi: Bound, h: nat, order: nat)
    requires order >= 3
  {
    match split
    case NoSplit => |ts| == 1 && Ok(ts[0], lo, hi, h, order) && |ts[0].keys| <= MaxKeys(order)
    case SplitAt(key, right) =>
      && |ts| == 2 && ts[1].node == right && PairOk(ts[0], ts[1], lo, key, hi, h, order)
      && Full(ts[0], order) && Full(ts[1], order)
  }

  /** Same first node and first leaf; any further node is new. */
  ghost predicate Replaces(ts: seq<Tree>, t: Tree) {
    && ts != [] && ts[0].node == t.node
    && LeavesOf(ts) != [] && Leaves(t) != [] && LeavesOf(ts)[0] == Leaves(t)[0]
  }

  method ScanKeys(keys: seq<int>, key: int) returns (pos: nat)
    requires Sorted(keys)
    ensures PlaceOf(keys, key, pos)
  {
    pos := 0;
    while pos < |keys| && key > keys[pos]
      invariant pos <= |keys| && forall j :: 0 <= j < pos ==> keys[j] < key
    {
      pos := pos + 1;
    }
  }

  /** `childIndex`: child `i` covers the keys below `keys[i]`. */
  method ChildIndex(keys: seq<int>, key: int, ghost lo: Bound, ghost hi: Bound) returns (i: nat)
    requires Within(key, lo, hi)
    ensures Below(keys, key, i, lo, hi)
  {
    i := 0;
    while i < |keys| && key >= keys[i]
      invariant i <= |keys| && (i > 0 ==> keys[i - 1] <= key)
    {
      i := i + 1;
    }
  }

  method SplitLeaf(leaf: Node, order: nat, ghost t: Tree, ghost lo: Bound, ghost hi: Bound, ghost after: Node?)
    returns (split: Split, ghost ts: seq<Tree>)
    requires order >= 3 && t.Leaf? && t.node == leaf && Held([t], after)
    requires Ok(t, lo, hi, 0, order) && |t.keys| == order
    modifies leaf
    ensures split.SplitAt? && Grew(ts, split, lo, hi, 0, order) && Replaces(ts, t)
    ensures Held(ts, after) && (forall n :: n in NodesOf(ts) && n != leaf ==> fresh(n)) && Flat(ts) == Entries(t)
  {
    hide Ok, Full, Held, PairOk, LeavesOf, NodesOf, Entries, Flat, Zip;
    HeldLeaf(t, after);
    LeafSized(t, lo, hi, order);
    var mid := |leaf.keys| / 2;
    var right := new Node(true);
    right.keys := leaf.keys[mid..];
    right.values := leaf.values[mid..];
    leaf.keys := leaf.keys[..mid];
    leaf.values := leaf.values[..mid];
    right.next := leaf.next;
    leaf.next := right;
    split := SplitAt(right.keys[0], right);
    ghost var l, r := Leaf(leaf, t.keys[..mid], t.values[..mid]), Leaf(right, t.keys[mid..], t.values[mid..]);
    ts := [l, r];
    LeafCut(leaf, right, t, mid, lo, hi, order);
    LeavesFull(l, r, order);
    PairOfLeaves(l, r, after);
    LeafPair(l, r);
    LeafLeaves(t);
  }

  lemma LeavesFull(l: Tree, r: Tree, order: nat)
    requires order >= 3 && |l.keys| == order / 2 && |r.keys| == order - order / 2
    ensures Full(l, order) && Full(r, order)
  {}

  /** Putting a key into a leaf: overwriting, or making room. */
  method PutInLeaf(leaf: Node, key: int, value: Value, ghost t: Tree, ghost lo: Bound, ghost hi: Bound,
                   order: nat, ghost after: Node?)
    returns (previous: Option<Value>, ghost t': Tree)
    requires order >= 3 && t.Leaf? && t.node == leaf && Held([t], after)
    requires Ok(t, lo, hi, 0, order) && Within(key, lo, hi)
    modifies leaf
    ensures t'.Leaf? && t'.node == leaf && Ok(t', lo, hi, 0, order) && Held([t'], after)
    ensures |t'.keys| == |t.keys| + (if previous.None? then 1 else 0)
    ensures Entries(t') == With(Entries(t), key, value) && previous == Lookup(Entries(t), key)
  {
    hide Ok, Held, Entries, Zip, With, Lookup, AllWithin, Within;
    HeldLeaf(t, after);
    LeafSized(t, lo, hi, order);
    LeafEntries(t);
    var pos := ScanKeys(leaf.keys, key);
    if pos < |leaf.keys| && key == leaf.keys[pos] {
      previous := Some(leaf.values[pos]);
      LeafOverwrites(leaf.keys, leaf.values, key, pos, value);
      leaf.values := leaf.values[pos := value];
    } else {
      previous := None;
      LeafInserts(leaf.keys, leaf.values, key, pos, value);
      SortedInsert(leaf.keys, key, pos, lo, hi);
      leaf.keys := leaf.keys[..pos] + [key] + leaf.keys[pos..];
      leaf.values := leaf.values[..pos] + [value] + leaf.values[pos..];
    }
    t' := Leaf(leaf, leaf.keys, leaf.values);
    LeafIsOk(t', t, lo, hi, order);
    LeafEntries(t');
    LeafHeld(t', after);
  }

  // ---------------------------------------------------------------- internal nodes

  method SplitInternal(node: Node, order: nat, ghost t: Tree, ghost lo: Bound, ghost hi: Bound, ghost h: nat,
                       ghost after: Node?)
    returns (split: Split, ghost ts: seq<Tree>)
    requires order >= 3 && t.Inner? && t.node == node && Held([t], after)
    requires Ok(t, lo, hi, h, order) && |t.keys| == order
    modifies node
    ensures split.SplitAt? && Grew(ts, split, lo, hi, h, order) && Replaces(ts, t)
    ensures Held(ts, after) && (forall n :: n in NodesOf(ts) && n !in Nodes(t) ==> fresh(n)) && Flat(ts) == Entries(t)
  {
    hide Ok, Full, PairOk, Held, LeavesOf, Leaves, NodesOf, Nodes, Entries, Flat, Roots, Grew;
    HeldInner(t, after);
    InnerPositive(t, lo, hi, h, order);
    InnerSized(t, lo, hi, h, order);
    InnerParts(t);
    assert allocated(NodesOf(t.children));
    var mid := |node.keys| / 2;
    var up, right := CutNode(node, mid);
    split := SplitAt(up, right);
    ts := InnerHalves(t, right, lo, hi, h, order);
    RootsCut(t.children, mid + 1);
    HeldInners(ts[0], ts[1], t.children, after);
    SomeLeaf(t, lo, hi, h, order);
  }

  /** Moves everything past the `mid`-th key to a new node. */
  method CutNode(node: Node, mid: nat) returns (up: int, right: Node)
    requires mid < |node.keys| < |node.children|
    modifies node`keys, node`children
    ensures fresh(right) && !right.isLeaf && up == old(node.keys)[mid]
    ensures right.keys == old(node.keys)[mid + 1..] && right.children == old(node.children)[mid + 1..]
    ensures node.keys == old(node.keys)[..mid] && node.children == old(node.children)[..mid + 1]
  {
    up := node.keys[mid];
    right := new Node(false);
    right.keys := node.keys[mid + 1..];
    right.children := node.children[mid + 1..];
    node.keys := node.keys[..mid];
    node.children := node.children[..mid + 1];
  }

  lemma InnerHalves(t: Tree, right: Node, lo: Bound, hi: Bound, h: nat, order: nat) returns (ts: seq<Tree>)
    requires order >= 3 && t.Inner? && Ok(t, lo, hi, h, order) && |t.keys| == order
    ensures var mid := order / 2;
      && |t.children| == order + 1
      && ts == [Inner(t.node, t.keys[..mid], t.children[..mid + 1]),
        Inner(right, t.keys[mid + 1..], t.children[mid + 1..])]
      && t.children == ts[0].children + ts[1].children
      && Grew(ts, SplitAt(t.keys[mid], right), lo, hi, h, order)
  {
    hide Ok, Full, ChildrenOk, AllFull, Before;
    var mid := order / 2;
    InnerPositive(t, lo, hi, h, order);
    InnerSized(t, lo, hi, h, order);
    var l := Inner(t.node, t.keys[..mid], t.children[..mid + 1]);
    var r := Inner(right, t.keys[mid + 1..], t.children[mid + 1..]);
    ts := [l, r];
    InnerCut(t.node, right, t, mid, lo, hi, h, order);
    InnersFull(l, r, order);
  }

  lemma InnersFull(l: Tree, r: Tree, order: nat)
    requires order >= 3 && |l.keys| == order / 2 && |r.keys| == order - order / 2 - 1
    ensures Full(l, order) && Full(r, order)
  {}

  // ---------------------------------------------------------------- a split below an internal node

  /** The children once the `i`-th has become `xs`. */
  function Swapped(ts: seq<Tree>, i: nat, xs: seq<Tree>): seq<Tree>
    requires i < |ts|
  {
    ts[..i] + xs + ts[i + 1..]
  }

  lemma SwappedContents(ts: seq<Tree>, i: nat, xs: seq<Tree>)
    requires i < |ts|
    ensures Flat(Swapped(ts, i, xs)) == Flat(ts[..i]) + Flat(xs) + Flat(ts[i + 1..])
    ensures LeavesOf(Swapped(ts, i, xs)) == LeavesOf(ts[..i]) + LeavesOf(xs) + LeavesOf(ts[i + 1..])
  {
    hide Flat, LeavesOf;
    FlatConcat(ts[..i] + xs, ts[i + 1..]);
    FlatConcat(ts[..i], xs);
    LeavesConcat(ts[..i] + xs, ts[i + 1..]);
    LeavesConcat(ts[..i], xs);
  }

  lemma SameFirstLeaf(ts: seq<Tree>, i: nat, xs: seq<Tree>)
    requires i < |ts| && Replaces(xs, ts[i])
    ensures LeavesOf(ts) != [] && LeavesOf(Swapped(ts, i, xs)) != []
    ensures LeavesOf(Swapped(ts, i, xs))[0] == LeavesOf(ts)[0]
  {
    hide LeavesOf, Leaves;
    SwappedContents(ts, i, xs);
    SwappedContents(ts, i, [ts[i]]);
    Singleton(ts[i]);
    SeqAround(ts, i);
  }

  /** The separators once the `i`-th child has been split. */
  function Wedged(keys: seq<int>, i: nat, split: Split): seq<int>
    requires i <= |keys|
  {
    match split
    case NoSplit => keys
    case SplitAt(key, _) => keys[..i] + [key] + keys[i..]
  }

  lemma GrowthOk(ts: seq<Tree>, keys: seq<int>, i: nat, xs: seq<Tree>, split: Split,
                 lo: Bound, hi: Bound, h: nat, order: nat)
    requires order >= 3 && ChildrenOk(ts, keys, lo, hi, h, order) && AllFull(ts, order) && i <= |keys|
    requires Grew(xs, split, Lo(keys, i, lo), Hi(keys, i, hi), h, order)
    requires split.NoSplit? ==> |xs[0].keys| >= |ts[i].keys|
    ensures |ts| == |keys| + 1
    ensures ChildrenOk(Swapped(ts, i, xs), Wedged(keys, i, split), lo, hi, h, order)
    ensures AllFull(Swapped(ts, i, xs), order)
  {
    hide Ok;
    var keys' := if split.NoSplit? then [] else [split.key];
    Splice(ts, keys, lo, hi, h, order, i, i + 1, xs, keys');
    assert keys[..i] + keys' + keys[i..] == Wedged(keys, i, split);
    assert Full(ts[i], order);
  }

  lemma RootsSwapped(ts: seq<Tree>, i: nat, xs: seq<Tree>, split: Split)
    requires i < |ts| && xs != [] && xs[0].node == ts[i].node
    requires match split case NoSplit => |xs| == 1 case SplitAt(_, right) => |xs| == 2 && xs[1].node == right
    ensures Roots(Swapped(ts, i, xs)) ==
      if split.NoSplit? then Roots(ts) else Roots(ts)[..i + 1] + [split.right] + Roots(ts)[i + 1..]
  {
    hide Roots;
    RootsAround(ts, i, xs);
    var rs := Roots(ts);
    SeqAround(rs, i);
    if split.SplitAt? {
      PairRoots(xs);
      PairAround(rs, i, split.right);
    } else {
      assert Roots(xs) == [rs[i]];
    }
  }

  lemma RootsAround(ts: seq<Tree>, i: nat, xs: seq<Tree>)
    requires i < |ts|
    ensures Roots(Swapped(ts, i, xs)) == Roots(ts)[..i] + Roots(xs) + Roots(ts)[i + 1..]
  {
    hide Roots;
    RootsConcat(ts[..i] + xs, ts[i + 1..]);
    RootsConcat(ts[..i], xs);
    RootsCut(ts, i);
    RootsCut(ts, i + 1);
  }

  lemma PairRoots(xs: seq<Tree>)
    requires |xs| == 2
    ensures Roots(xs) == [xs[0].node, xs[1].node]
  {
    hide Roots;
  }

  lemma PairAround(rs: seq<Node>, i: nat, n: Node)
    requires i < |rs|
    ensures rs[..i] + [rs[i], n] + rs[i + 1..] == rs[..i + 1] + [n] + rs[i + 1..]
  {}
}
