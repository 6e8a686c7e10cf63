/** When the nodes in memory hold what a snapshot says, and the chain that links the leaves. */
module BTreeHeap {
  import opened BTreeShape
  import opened BTreeNodes

  function Roots(ts: seq<Tree>): (ns: seq<Node>)
    ensures |ns| == |ts| && forall i :: 0 <= i < |ts| ==> ns[i] == ts[i].node
  {
    if ts == [] then [] else [ts[0].node] + Roots(ts[1..])
  }

  lemma RootsConcat(a: seq<Tree>, b: seq<Tree>)
    ensures Roots(a + b) == Roots(a) + Roots(b)
  {}

  lemma RootsCut(ts: seq<Tree>, m: nat)
    requires m <= |ts|
    ensures Roots(ts[..m]) == Roots(ts)[..m] && Roots(ts[m..]) == Roots(ts)[m..]
  {}

  /** The nodes hold what the snapshot says they hold. */
  ghost predicate Rep(t: Tree)
    reads Nodes(t)
    decreases t
  {
    match t
    case Leaf(node, keys, values) => node.isLeaf && node.keys == keys && node.values == values
    case Inner(node, keys, children) =>
      !node.isLeaf && node.keys == keys && node.children == Roots(children) && RepAll(children)
  }

  ghost predicate RepAll(ts: seq<Tree>)
    reads NodesOf(ts)
    decreases ts
  {
    ts != [] ==> Rep(ts[0]) && RepAll(ts[1..])
  }

  lemma {:induction false} RepConcat(a: seq<Tree>, b: seq<Tree>)
    ensures RepAll(a + b) <==> RepAll(a) && RepAll(b)
  {
    if a == [] {
      assert a + b == b;
    } else {
      assert (a + b)[1..] == a[1..] + b;
      RepConcat(a[1..], b);
    }
  }

  lemma RepSingleton(t: Tree)
    ensures RepAll([t]) <==> Rep(t)
  {}

  /** The chain runs through these leaves in order and then on to `after`. */
  ghost predicate Linked(ls: seq<Node>, after: Node?)
    reads ls`next
    decreases |ls|
  {
    ls != [] ==> ls[0].next == First(ls[1..], after) && Linked(ls[1..], after)
  }

  function First(ls: seq<Node>, after: Node?): Node? {
    if ls == [] then after else ls[0]
  }

  lemma {:induction false} LinkedConcat(a: seq<Node>, b: seq<Node>, after: Node?)
    ensures Linked(a + b, after) <==> Linked(a, First(b, after)) && Linked(b, after)
  {
    if a == [] {
      assert a + b == b;
    } else {
      assert (a + b)[1..] == a[1..] + b;
      LinkedConcat(a[1..], b, after);
    }
  }

  /** Neighbouring subtrees in memory, their leaves chained and leading on to `after`. */
  ghost predicate Held(ts: seq<Tree>, after: Node?)
    reads NodesOf(ts)
  {
    AllLeavesAreNodes(ts);
    AllDistinct(ts) && RepAll(ts) && Linked(LeavesOf(ts), after)
  }

  lemma HeldConcat(a: seq<Tree>, b: seq<Tree>, after: Node?)
    ensures Held(a + b, after) <==>
      Held(a, First(LeavesOf(b), after)) && Held(b, after) && NodesOf(a) !! NodesOf(b)
  {
    hide AllDistinct, RepAll, Linked, LeavesOf, NodesOf;
    DistinctConcat(a, b);
    RepConcat(a, b);
    LeavesConcat(a, b);
    LinkedConcat(LeavesOf(a), LeavesOf(b), after);
  }

  lemma {:induction false} SomeLeaf(t: Tree, lo: Bound, hi: Bound, h: nat, order: nat)
    requires order >= 3 && Ok(t, lo, hi, h, order)
    ensures Leaves(t) != []
    decreases t
  {
    if t.Inner? {
      SomeLeaf(t.children[0], Lo(t.keys, 0, lo), Hi(t.keys, 0, hi), h - 1, order);
    }
  }

  /** Some neighbours between others. */
  lemma HeldThree(a: seq<Tree>, xs: seq<Tree>, b: seq<Tree>, after: Node?)
    requires LeavesOf(xs) != []
    ensures NodesOf(a + xs + b) == NodesOf(a) + NodesOf(xs) + NodesOf(b)
    ensures Held(a + xs + b, after) <==>
      && Held(a, LeavesOf(xs)[0]) && Held(xs, First(LeavesOf(b), after)) && Held(b, after)
      && NodesOf(a) !! NodesOf(xs) && NodesOf(a) !! NodesOf(b) && NodesOf(xs) !! NodesOf(b)
  {
    hide Held, LeavesOf, NodesOf;
    HeldConcat(a + xs, b, after);
    HeldConcat(a, xs, First(LeavesOf(b), after));
    NodesConcat(a, xs);
    NodesConcat(a + xs, b);
  }

  /** The subtree at `i` among its neighbours. */
  lemma HeldAround(ts: seq<Tree>, i: nat, after: Node?)
    requires i < |ts| && Leaves(ts[i]) != []
    ensures NodesOf(ts) == NodesOf(ts[..i]) + Nodes(ts[i]) + NodesOf(ts[i + 1..])
    ensures Held(ts, after) <==>
      && Held(ts[..i], Leaves(ts[i])[0])
      && Held([ts[i]], First(LeavesOf(ts[i + 1..]), after))
      && Held(ts[i + 1..], after)
      && NodesOf(ts[..i]) !! Nodes(ts[i]) && NodesOf(ts[..i]) !! NodesOf(ts[i + 1..]) &&
        Nodes(ts[i]) !! NodesOf(ts[i + 1..])
  {
    hide Held, LeavesOf, NodesOf, Nodes, Leaves;
    SeqAround(ts, i);
    Singleton(ts[i]);
    HeldThree(ts[..i], [ts[i]], ts[i + 1..], after);
  }

  // ---------------------------------------------------------------- one node over its children

  lemma LeafLeaves(t: Tree)
    requires t.Leaf?
    ensures Leaves(t) == [t.node] && Nodes(t) == {t.node}
  {}

  lemma HeldLeaf(t: Tree, after: Node?)
    requires t.Leaf? && Held([t], after)
    ensures t.node.isLeaf && t.node.keys == t.keys && t.node.values == t.values && t.node.next == after
  {
    Singleton(t);
    RepSingleton(t);
    LeafLeaves(t);
    assert Linked([t.node], after);
  }

  lemma LeafHeld(t: Tree, after: Node?)
    requires t.Leaf? && Rep(t) && t.node.next == after
    ensures Held([t], after)
  {
    Singleton(t);
    RepSingleton(t);
    LeafLeaves(t);
    assert Linked([t.node], after);
  }

  lemma PairOfLeaves(l: Tree, r: Tree, after: Node?)
    requires l.Leaf? && r.Leaf? && l.node != r.node && Rep(l) && Rep(r)
    requires l.node.next == r.node && r.node.next == after
    ensures Held([l, r], after)
  {
    LeafPair(l, r);
    assert [l, r][1..] == [r];
    Singleton(r);
    assert [l.node, r.node][1..] == [r.node];
    assert Linked([r.node], after);
  }

  lemma LeafPair(l: Tree, r: Tree)
    requires l.Leaf? && r.Leaf?
    ensures LeavesOf([l, r]) == [l.node, r.node]
    ensures NodesOf([l, r]) == {l.node, r.node} && Flat([l, r]) == Entries(l) + Entries(r)
  {
    assert [l, r][1..] == [r];
    Singleton(r);
  }

  lemma HeldLeafPair(l: Tree, r: Tree, after: Node?)
    requires l.Leaf? && r.Leaf? && Held([l, r], after)
    ensures l.node != r.node && Rep(l) && Rep(r) && l.node.next == r.node && r.node.next == after
  {
    hide Held, Rep;
    assert [l, r] == [l] + [r];
    HeldConcat([l], [r], after);
    Singleton(l);
    Singleton(r);
    LeafLeaves(l);
    LeafLeaves(r);
    HeldLeaf(l, r.node);
    HeldLeaf(r, after);
    LeafRep(l);
    LeafRep(r);
  }

  lemma LeafRep(t: Tree)
    requires t.Leaf? && t.node.isLeaf && t.node.keys == t.keys && t.node.values == t.values
    ensures Rep(t)
  {}

  lemma InnerParts(t: Tree)
    requires t.Inner?
    ensures Leaves(t) == LeavesOf(t.children) && Entries(t) == Flat(t.children)
    ensures Nodes(t) == {t.node} + NodesOf(t.children)
  {}

  /** The node agrees with the snapshot, whatever its children hold. */
  ghost predicate NodeRep(t: Tree)
    requires t.Inner?
    reads t.node
  {
    !t.node.isLeaf && t.node.keys == t.keys && t.node.children == Roots(t.children)
  }

  lemma HeldInner(t: Tree, after: Node?)
    requires t.Inner?
    ensures Held([t], after) <==> NodeRep(t) && Held(t.children, after) && t.node !in NodesOf(t.children)
  {
    Singleton(t);
    RepSingleton(t);
  }

  /** Two internal nodes that share out the children `ts`. */
  lemma HeldInners(l: Tree, r: Tree, ts: seq<Tree>, after: Node?)
    requires l.Inner? && r.Inner? && ts == l.children + r.children
    ensures Held([l, r], after) <==>
      && NodeRep(l) && NodeRep(r) && Held(ts, after)
      && l.node != r.node && l.node !in NodesOf(ts) && r.node !in NodesOf(ts)
    ensures LeavesOf([l, r]) == LeavesOf(ts) && Flat([l, r]) == Flat(ts)
    ensures NodesOf([l, r]) == {l.node, r.node} + NodesOf(ts)
  {
    InnerParts(l);
    InnerParts(r);
    hide Held, LeavesOf, Leaves, NodesOf, Nodes, Entries, Flat, NodeRep;
    var a, b := l.children, r.children;
    HeldConcat(a, b, after);
    HeldInner(l, First(LeavesOf(b), after));
    HeldInner(r, after);
    HeldPair(l, r, after);
    FlatConcat(a, b);
    LeavesConcat(a, b);
    NodesConcat(a, b);
  }

  lemma HeldPair(l: Tree, r: Tree, after: Node?)
    ensures Held([l, r], after) <==> Held([l], First(Leaves(r), after)) && Held([r], after) && Nodes(l) !! Nodes(r)
    ensures LeavesOf([l, r]) == Leaves(l) + Leaves(r) && Flat([l, r]) == Entries(l) + Entries(r)
    ensures NodesOf([l, r]) == Nodes(l) + Nodes(r)
  {
    hide Held, LeavesOf, Leaves, NodesOf, Nodes, Entries, Flat;
    assert [l, r] == [l] + [r];
    Singleton(l);
    Singleton(r);
    HeldConcat([l], [r], after);
    LeavesConcat([l], [r]);
    FlatConcat([l], [r]);
    NodesConcat([l], [r]);
  }
}
