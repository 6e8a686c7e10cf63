/** The shape of a B+ tree: which nodes it is made of, what they hold, and the balance, occupancy
    and ordering rules of `Java-BTree/src/btree/BPlusTree.java`. */
module BTreeShape {
  import opened BTreeEntries

  /** A leaf uses `values` and `next`; an internal node uses `children`. */
  class Node {
    const isLeaf: bool
    var keys: seq<int>
    var values: seq<Value>
    var children: seq<Node>
    var next: Node?

    constructor (isLeaf: bool)
      ensures this.isLeaf == isLeaf && keys == [] && values == [] && children == [] && next == null
    {
      this.isLeaf := isLeaf;
      keys, values, children, next := [], [], [], null;
    }
  }

  /** A snapshot of a subtree: its nodes and what each of them holds. */
  datatype Tree =
    | Leaf(node: Node, keys: seq<int>, values: seq<Value>)
    | Inner(node: Node, keys: seq<int>, children: seq<Tree>)

  function Zip(keys: seq<int>, values: seq<Value>): (es: seq<Entry>)
    requires |keys| == |values|
    ensures |es| == |keys|
  {
    seq(|keys|, i requires 0 <= i < |keys| => Entry(keys[i], values[i]))
  }

  // ---------------------------------------------------------------- contents, leaves, nodes

  function Entries(t: Tree): seq<Entry>
    decreases t
  {
    match t
    case Leaf(_, keys, values) => if |keys| == |values| then Zip(keys, values) else []
    case Inner(_, _, children) => Flat(children)
  }

  function Flat(ts: seq<Tree>): seq<Entry>
    decreases ts
  {
    if ts == [] then [] else Entries(ts[0]) + Flat(ts[1..])
  }

  /** The leaf nodes from left to right. */
  function Leaves(t: Tree): seq<Node>
    decreases t
  {
    match t
    case Leaf(node, _, _) => [node]
    case Inner(_, _, children) => LeavesOf(children)
  }

  function LeavesOf(ts: seq<Tree>): seq<Node>
    decreases ts
  {
    if ts == [] then [] else Leaves(ts[0]) + LeavesOf(ts[1..])
  }

  function Nodes(t: Tree): set<Node>
    decreases t
  {
    match t
    case Leaf(node, _, _) => {node}
    case Inner(node, _, children) => {node} + NodesOf(children)
  }

  function NodesOf(ts: seq<Tree>): set<Node>
    decreases ts
  {
    if ts == [] then {} else Nodes(ts[0]) + NodesOf(ts[1..])
  }

  /** No node occurs twice. */
  ghost predicate Distinct(t: Tree)
    decreases t
  {
    t.Inner? ==> t.node !in NodesOf(t.children) && AllDistinct(t.children)
  }

  ghost predicate AllDistinct(ts: seq<Tree>)
    decreases ts
  {
    ts != [] ==> Distinct(ts[0]) && Nodes(ts[0]) !! NodesOf(ts[1..]) && AllDistinct(ts[1..])
  }

  lemma {:induction false} FlatConcat(a: seq<Tree>, b: seq<Tree>)
    ensures Flat(a + b) == Flat(a) + Flat(b)
  {
    if a == [] {
      assert a + b == b;
    } else {
      assert (a + b)[1..] == a[1..] + b;
      FlatConcat(a[1..], b);
    }
  }

  lemma {:induction false} LeavesConcat(a: seq<Tree>, b: seq<Tree>)
    ensures LeavesOf(a + b) == LeavesOf(a) + LeavesOf(b)
  {
    if a == [] {
      assert a + b == b;
    } else {
      assert (a + b)[1..] == a[1..] + b;
      LeavesConcat(a[1..], b);
    }
  }

  lemma {:induction false} NodesConcat(a: seq<Tree>, b: seq<Tree>)
    ensures NodesOf(a + b) == NodesOf(a) + NodesOf(b)
  {
    if a == [] {
      assert a + b == b;
    } else {
      assert (a + b)[1..] == a[1..] + b;
      NodesConcat(a[1..], b);
    }
  }

  lemma {:induction false} DistinctConcat(a: seq<Tree>, b: seq<Tree>)
    ensures AllDistinct(a + b) <==> AllDistinct(a) && AllDistinct(b) && NodesOf(a) !! NodesOf(b)
  {
    if a == [] {
      assert a + b == b;
    } else {
      assert (a + b)[1..] == a[1..] + b;
      DistinctConcat(a[1..], b);
      NodesConcat(a[1..], b);
    }
  }

  lemma Singleton(t: Tree)
    ensures Flat([t]) == Entries(t) && LeavesOf([t]) == Leaves(t) && NodesOf([t]) == Nodes(t)
    ensures AllDistinct([t]) <==> Distinct(t)
  {}

  lemma {:induction false} LeavesAreNodes(t: Tree)
    ensures forall n :: n in Leaves(t) ==> n in Nodes(t)
    decreases t
  {
    if t.Inner? { AllLeavesAreNodes(t.children); }
  }

  lemma {:induction false} AllLeavesAreNodes(ts: seq<Tree>)
    ensures forall n :: n in LeavesOf(ts) ==> n in NodesOf(ts)
    decreases ts
  {
    if ts != [] {
      LeavesAreNodes(ts[0]);
      AllLeavesAreNodes(ts[1..]);
    }
  }

  // ---------------------------------------------------------------- the rules

  /** A key bound of a subtree: none, or a separator of an ancestor. */
  datatype Bound = Open | At(key: int)

  ghost predicate Before(lo: Bound, hi: Bound) {
    lo.At? && hi.At? ==> lo.key < hi.key
  }

  ghost predicate Within(k: int, lo: Bound, hi: Bound) {
    (lo.At? ==> lo.key <= k) && (hi.At? ==> k < hi.key)
  }

  function MaxKeys(order: nat): int {
    order - 1
  }

  function MinKeys(order: nat): nat
    requires order >= 1
  {
    (order - 1) / 2
  }

  ghost predicate Sorted(keys: seq<int>) {
    forall i, j :: 0 <= i < j < |keys| ==> keys[i] < keys[j]
  }

  ghost predicate AllWithin(keys: seq<int>, lo: Bound, hi: Bound) {
    forall k :: k in keys ==> Within(k, lo, hi)
  }

  /** The window of child `i`: from the separator before it to the one after it. */
  function Lo(keys: seq<int>, i: nat, lo: Bound): Bound
    requires i <= |keys|
  {
    if i == 0 then lo else At(keys[i - 1])
  }

  function Hi(keys: seq<int>, i: nat, hi: Bound): Bound
    requires i <= |keys|
  {
    if i == |keys| then hi else At(keys[i])
  }

  /** A node other than the root holds from `MinKeys` to `MaxKeys` keys. */
  ghost predicate Full(t: Tree, order: nat)
    requires order >= 3
  {
    MinKeys(order) <= |t.keys| <= MaxKeys(order)
  }

  ghost predicate AllFull(ts: seq<Tree>, order: nat)
    requires order >= 3
  {
    forall i :: 0 <= i < |ts| ==> Full(ts[i], order)
  }

  /** A subtree with keys in `[lo, hi)`, all its leaves `h` levels down, and every node below its
      own root properly filled. */
  ghost predicate Ok(t: Tree, lo: Bound, hi: Bound, h: nat, order: nat)
    requires order >= 3
    decreases t
  {
    && Before(lo, hi)
    && match t
       case Leaf(_, keys, values) =>
         h == 0 && |keys| == |values| && Sorted(keys) && AllWithin(keys, lo, hi)
       case Inner(_, keys, children) =>
         h > 0 && ChildrenOk(children, keys, lo, hi, h - 1, order) && AllFull(children, order)
  }

  ghost predicate ChildrenOk(ts: seq<Tree>, keys: seq<int>, lo: Bound, hi: Bound, h: nat, order: nat)
    requires order >= 3
    decreases ts
  {
    && |ts| == |keys| + 1
    && forall i :: 0 <= i < |ts| ==> Ok(ts[i], Lo(keys, i, lo), Hi(keys, i, hi), h, order)
  }

  /** The `i`-th to the `j`-th child, replaced by others that cover the same window. */
  lemma Splice(ts: seq<Tree>, keys: seq<int>, lo: Bound, hi: Bound, h: nat, order: nat,
               i: nat, j: nat, ts': seq<Tree>, keys': seq<int>)
    requires order >= 3 && ChildrenOk(ts, keys, lo, hi, h, order) && i < j <= |ts|
    requires ChildrenOk(ts', keys', Lo(keys, i, lo), Hi(keys, j - 1, hi), h, order)
    ensures ChildrenOk(ts[..i] + ts' + ts[j..], keys[..i] + keys' + keys[j - 1..], lo, hi, h, order)
  {
    hide Ok;
    var all, seps := ts[..i] + ts' + ts[j..], keys[..i] + keys' + keys[j - 1..];
    forall k | 0 <= k < |all| ensures Ok(all[k], Lo(seps, k, lo), Hi(seps, k, hi), h, order) {
      if k < i {
        assert all[k] == ts[k];
      } else if k < i + |ts'| {
        assert all[k] == ts'[k - i];
      } else {
        assert all[k] == ts[k - i - |ts'| + j];
      }
    }
  }

  /** A run of neighbouring children covers the window from the first to the last. */
  lemma Stretch(ts: seq<Tree>, keys: seq<int>, lo: Bound, hi: Bound, h: nat, order: nat, i: nat, j: nat)
    requires order >= 3 && ChildrenOk(ts, keys, lo, hi, h, order) && i < j <= |ts|
    ensures ChildrenOk(ts[i..j], keys[i..j - 1], Lo(keys, i, lo), Hi(keys, j - 1, hi), h, order)
  {
    hide Ok;
  }

  /** Separators are strictly sorted and strictly inside the window of their node. */
  lemma {:induction false} SeparatorsSorted(
    ts: seq<Tree>, keys: seq<int>, lo: Bound, hi: Bound, h: nat, order: nat, i: nat, j: nat)
    requires order >= 3 && ChildrenOk(ts, keys, lo, hi, h, order) && i <= j <= |keys|
    ensures Before(Lo(keys, i, lo), Hi(keys, j, hi))
    decreases j - i
  {
    assert Before(Lo(keys, i, lo), Hi(keys, i, hi)) by { assert Ok(ts[i], Lo(keys, i, lo), Hi(keys, i, hi), h, order); }
    if i < j { SeparatorsSorted(ts, keys, lo, hi, h, order, i + 1, j); }
  }

  ghost predicate EntriesWithin(es: seq<Entry>, lo: Bound, hi: Bound) {
    Ascending(es) && forall e :: e in es ==> Within(e.key, lo, hi)
  }

  /** The entries of a subtree come in strictly ascending key order, inside its window. */
  lemma {:induction false} EntriesOrdered(t: Tree, lo: Bound, hi: Bound, h: nat, order: nat)
    requires order >= 3 && Ok(t, lo, hi, h, order)
    ensures EntriesWithin(Entries(t), lo, hi)
    decreases t
  {
    match t
    case Leaf(_, keys, values) =>
    case Inner(_, keys, children) =>
      ChildrenOrdered(children, keys, lo, hi, h - 1, order);
  }

  lemma {:induction false} ChildrenOrdered(
    ts: seq<Tree>, keys: seq<int>, lo: Bound, hi: Bound, h: nat, order: nat)
    requires order >= 3 && ChildrenOk(ts, keys, lo, hi, h, order)
    ensures EntriesWithin(Flat(ts), lo, hi)
    decreases ts
  {
    hide Ok;
    assert Ok(ts[0], Lo(keys, 0, lo), Hi(keys, 0, hi), h, order);
    EntriesOrdered(ts[0], Lo(keys, 0, lo), Hi(keys, 0, hi), h, order);
    if |ts| == 1 {
      Singleton(ts[0]);
      assert ts == [ts[0]];
    } else {
      Stretch(ts, keys, lo, hi, h, order, 1, |ts|);
      assert ts[1..|ts|] == ts[1..] && keys[1..|ts| - 1] == keys[1..];
      ChildrenOrdered(ts[1..], keys[1..], At(keys[0]), hi, h, order);
      SeparatorsSorted(ts, keys, lo, hi, h, order, 0, 0);
      SeparatorsSorted(ts, keys, lo, hi, h, order, 1, |keys|);
      OrderedConcat(Entries(ts[0]), Flat(ts[1..]), lo, keys[0], hi);
    }
  }

  lemma OrderedConcat(a: seq<Entry>, b: seq<Entry>, lo: Bound, k: int, hi: Bound)
    requires EntriesWithin(a, lo, At(k)) && EntriesWithin(b, At(k), hi) && Before(lo, At(k)) && Before(At(k), hi)
    ensures EntriesWithin(a + b, lo, hi)
  {
    var es := a + b;
    forall i, j | 0 <= i < j < |es| ensures es[i].key < es[j].key {
      if i < |a| && |a| <= j {
        assert a[i] in a && b[j - |a|] in b;
      }
    }
  }
}
