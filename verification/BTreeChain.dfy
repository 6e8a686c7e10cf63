/** The leaves of a tree as a list, as the chain links them: what lookups and scans walk over. */
module BTreeChain {
  import opened Options
  import opened BTreeEntries
  import opened BTreeShape
  import opened BTreeNodes
  import opened BTreeHeap
  import opened BTreeDelete

  /** The leaves as snapshots, from left to right. */
  function LeafTrees(t: Tree): seq<Tree>
    decreases t
  {
    match t
    case Leaf(_, _, _) => [t]
    case Inner(_, _, children) => AllLeafTrees(children)
  }

  function AllLeafTrees(ts: seq<Tree>): seq<Tree>
    decreases ts
  {
    if ts == [] then [] else LeafTrees(ts[0]) + AllLeafTrees(ts[1..])
  }

  lemma {:induction false} LeafTreesConcat(a: seq<Tree>, b: seq<Tree>)
    ensures AllLeafTrees(a + b) == AllLeafTrees(a) + AllLeafTrees(b)
  {
    if a == [] {
      assert a + b == b;
    } else {
      assert (a + b)[1..] == a[1..] + b;
      LeafTreesConcat(a[1..], b);
    }
  }

  lemma {:induction false} LeafTreesFlat(t: Tree)
    ensures Flat(LeafTrees(t)) == Entries(t) && Roots(LeafTrees(t)) == Leaves(t)
    decreases t
  {
    match t
    case Leaf(_, _, _) => Singleton(t);
    case Inner(_, _, children) => AllLeafTreesFlat(children);
  }

  lemma {:induction false} AllLeafTreesFlat(ts: seq<Tree>)
    ensures Flat(AllLeafTrees(ts)) == Flat(ts) && Roots(AllLeafTrees(ts)) == LeavesOf(ts)
    decreases ts
  {
    if ts != [] {
      LeafTreesFlat(ts[0]);
      AllLeafTreesFlat(ts[1..]);
      FlatConcat(LeafTrees(ts[0]), AllLeafTrees(ts[1..]));
      RootsConcat(LeafTrees(ts[0]), AllLeafTrees(ts[1..]));
    }
  }

  lemma {:induction false} LeafTreesRep(t: Tree)
    requires Rep(t)
    ensures RepAll(LeafTrees(t))
    decreases t
  {
    match t
    case Leaf(_, _, _) => RepSingleton(t);
    case Inner(_, _, children) => AllLeafTreesRep(children);
  }

  lemma {:induction false} AllLeafTreesRep(ts: seq<Tree>)
    requires RepAll(ts)
    ensures RepAll(AllLeafTrees(ts))
    decreases ts
  {
    if ts != [] {
      LeafTreesRep(ts[0]);
      AllLeafTreesRep(ts[1..]);
      RepConcat(LeafTrees(ts[0]), AllLeafTrees(ts[1..]));
    }
  }

  ghost predicate LeafShaped(t: Tree) {
    t.Leaf? && |t.keys| == |t.values| && Sorted(t.keys)
  }

  ghost predicate AllLeafShaped(ts: seq<Tree>) {
    forall i :: 0 <= i < |ts| ==> LeafShaped(ts[i])
  }

  lemma {:induction false} LeafTreesShaped(t: Tree, lo: Bound, hi: Bound, h: nat, order: nat)
    requires order >= 3 && Ok(t, lo, hi, h, order)
    ensures AllLeafShaped(LeafTrees(t))
    decreases t
  {
    match t
    case Leaf(_, _, _) =>
    case Inner(_, keys, children) => AllLeafTreesShaped(children, keys, lo, hi, h - 1, order);
  }

  lemma {:induction false} AllLeafTreesShaped(ts: seq<Tree>, keys: seq<int>, lo: Bound, hi: Bound, h: nat, order: nat)
    requires order >= 3 && ChildrenOk(ts, keys, lo, hi, h, order)
    ensures AllLeafShaped(AllLeafTrees(ts))
    decreases ts
  {
    hide Ok, LeafShaped;
    assert Ok(ts[0], Lo(keys, 0, lo), Hi(keys, 0, hi), h, order);
    LeafTreesShaped(ts[0], Lo(keys, 0, lo), Hi(keys, 0, hi), h, order);
    if |ts| > 1 {
      Stretch(ts, keys, lo, hi, h, order, 1, |ts|);
      assert ts[1..|ts|] == ts[1..] && keys[1..|ts| - 1] == keys[1..];
      AllLeafTreesShaped(ts[1..], keys[1..], At(keys[0]), hi, h, order);
    }
  }

  // ---------------------------------------------------------------- descending

  /** The descent has reached `t`: the leaves before it hold smaller keys, those after it larger. */
  ghost predicate Sought(tree: Tree, before: seq<Tree>, t: Tree, later: seq<Tree>, key: int) {
    && LeafTrees(tree) == before + LeafTrees(t) + later
    && AllBelow(Flat(before), key) && AllFrom(Flat(later), key + 1)
  }

  lemma SeekStarts(tree: Tree, key: int)
    ensures Sought(tree, [], tree, [], key)
  {
    hide LeafTrees;
    assert [] + LeafTrees(tree) + [] == LeafTrees(tree);
  }

  lemma SeekDescends(tree: Tree, before: seq<Tree>, t: Tree, later: seq<Tree>, ci: nat, key: int,
                     lo: Bound, hi: Bound, h: nat, order: nat)
    requires order >= 3 && Sought(tree, before, t, later, key) && t.Inner? && h > 0 && Ok(t, lo, hi, h, order)
    requires Below(t.keys, key, ci, lo, hi)
    ensures ci < |t.children|
    ensures Sought(tree, before + AllLeafTrees(t.children[..ci]), t.children[ci],
                   AllLeafTrees(t.children[ci + 1..]) + later, key)
  {
    InnerSized(t, lo, hi, h, order);
    var ts := t.children;
    InnerLeafTrees(t);
    hide Ok, ChildrenOk, LeafTrees, AllLeafTrees, Flat, Entries, AllBelow, AllFrom;
    AroundChild(ts, t.keys, lo, hi, h - 1, order, ci, key);
    LeafTreesAround(ts, ci);
    Regroup(before, AllLeafTrees(ts[..ci]), LeafTrees(ts[ci]), AllLeafTrees(ts[ci + 1..]), later);
    AllLeafTreesFlat(ts[..ci]);
    AllLeafTreesFlat(ts[ci + 1..]);
    FlatConcat(before, AllLeafTrees(ts[..ci]));
    FlatConcat(AllLeafTrees(ts[ci + 1..]), later);
    BelowConcat(Flat(before), Flat(ts[..ci]), key);
    FromConcat(Flat(ts[ci + 1..]), Flat(later), key + 1);
  }

  lemma BelowConcat(a: seq<Entry>, b: seq<Entry>, k: int)
    requires AllBelow(a, k) && AllBelow(b, k)
    ensures AllBelow(a + b, k)
  {}

  lemma FromConcat(a: seq<Entry>, b: seq<Entry>, k: int)
    requires AllFrom(a, k) && AllFrom(b, k)
    ensures AllFrom(a + b, k)
  {}

  lemma Regroup<T>(before: seq<T>, a: seq<T>, b: seq<T>, c: seq<T>, later: seq<T>)
    ensures before + (a + b + c) + later == (before + a) + b + (c + later)
  {}

  lemma LeafTreesAround(ts: seq<Tree>, i: nat)
    requires i < |ts|
    ensures AllLeafTrees(ts) == AllLeafTrees(ts[..i]) + LeafTrees(ts[i]) + AllLeafTrees(ts[i + 1..])
  {
    hide LeafTrees, AllLeafTrees;
    SeqAround(ts, i);
    LeafTreesConcat(ts[..i] + [ts[i]], ts[i + 1..]);
    LeafTreesConcat(ts[..i], [ts[i]]);
    OneLeafTrees(ts[i]);
  }

  lemma InnerLeafTrees(t: Tree)
    requires t.Inner?
    ensures LeafTrees(t) == AllLeafTrees(t.children)
  {}

  lemma OneLeafTrees(t: Tree)
    ensures AllLeafTrees([t]) == LeafTrees(t)
  {}

  lemma SeekEnds(tree: Tree, before: seq<Tree>, t: Tree, later: seq<Tree>, key: int)
    requires Sought(tree, before, t, later, key) && t.Leaf?
    ensures LeafTrees(tree) == before + [t] + later
    ensures AllBelow(Flat(before), key) && AllFrom(Flat(later), key + 1)
  {}

  lemma HeldRep(t: Tree, after: Node?)
    requires Held([t], after)
    ensures Rep(t)
  {
    RepSingleton(t);
  }

  lemma RepKind(t: Tree)
    requires Rep(t)
    ensures t.node.isLeaf <==> t.Leaf?
    ensures t.node.keys == t.keys
  {}

  lemma RepChildren(t: Tree)
    requires Rep(t) && t.Inner?
    ensures t.node.keys == t.keys && |t.node.children| == |t.children|
    ensures forall i :: 0 <= i < |t.children| ==> t.node.children[i] == t.children[i].node && Rep(t.children[i])
  {
    RepEach(t.children);
  }

  lemma {:induction false} RepEach(ts: seq<Tree>)
    requires RepAll(ts)
    ensures forall i :: 0 <= i < |ts| ==> Rep(ts[i])
    decreases ts
  {
    if ts != [] {
      RepEach(ts[1..]);
      forall i | 0 <= i < |ts| ensures Rep(ts[i]) {
        if i > 0 { assert ts[1..][i - 1] == ts[i]; }
      }
    }
  }

  /** A leaf of the list in its place among all the entries. */
  lemma LeafAmong(tree: Tree, before: seq<Tree>, t: Tree, later: seq<Tree>, lo: Bound, hi: Bound, h: nat, order: nat)
    requires order >= 3 && Ok(tree, lo, hi, h, order) && LeafTrees(tree) == before + [t] + later
    ensures Entries(tree) == Flat(before) + Entries(t) + Flat(later) && LeafShaped(t)
  {
    hide Ok, Flat, Entries, LeafTrees, LeafShaped;
    LeafTreesFlat(tree);
    LeafTreesShaped(tree, lo, hi, h, order);
    FlatConcat(before + [t], later);
    FlatConcat(before, [t]);
    Singleton(t);
    assert LeafTrees(tree)[|before|] == t;
  }

  lemma LeafKeys(t: Tree)
    requires t.Leaf? && Rep(t)
    ensures t.node.keys == t.keys && t.node.values == t.values
  {}

  lemma LeafLookup(keys: seq<int>, values: seq<Value>, key: int, i: int)
    requires |keys| == |values| && Sorted(keys)
    requires if key in keys then 0 <= i < |keys| && keys[i] == key else i == -1
    ensures Lookup(Zip(keys, values), key) == if i >= 0 then Some(values[i]) else None
  {
    if i >= 0 {
      LeafOverwrites(keys, values, key, i, values[i]);
    } else {
      LeafWithout(keys, values, key);
    }
  }

  // ---------------------------------------------------------------- walking the chain

  /** Everything a walk along the leaves relies on. */
  lemma ChainOfLeaves(tree: Tree, lo: Bound, hi: Bound, h: nat, order: nat)
    requires order >= 3 && Held([tree], null) && Ok(tree, lo, hi, h, order)
    ensures var ls := LeafTrees(tree);
      RepAll(ls) && AllLeafShaped(ls) && Linked(Roots(ls), null) && Flat(ls) == Entries(tree) &&
          Roots(ls) == Leaves(tree)
  {
    hide Ok, LeafTrees, AllLeafShaped, Entries, Leaves;
    Singleton(tree);
    RepSingleton(tree);
    LeafTreesFlat(tree);
    LeafTreesShaped(tree, lo, hi, h, order);
    LeafTreesRep(tree);
  }

  /** The first `j` leaves have contributed their share of the range. */
  ghost predicate Scanned(ls: seq<Tree>, j: nat, from: Option<int>, to: Option<int>, out: seq<Entry>) {
    j <= |ls| && out == Between(Flat(ls[..j]), from, to)
  }

  lemma {:induction false} LinkedNext(ls: seq<Node>, j: nat, after: Node?)
    requires Linked(ls, after) && j < |ls|
    ensures ls[j].next == First(ls[j + 1..], after)
  {
    if j > 0 {
      LinkedNext(ls[1..], j - 1, after);
      assert ls[1..][j..] == ls[j + 1..];
    }
  }

  /** At leaf `j`: what it holds and where its link leads. */
  lemma ChainStep(ls: seq<Tree>, j: nat)
    requires RepAll(ls) && AllLeafShaped(ls) && Linked(Roots(ls), null) && j < |ls|
    ensures LeafShaped(ls[j]) && ls[j].node.keys == ls[j].keys && ls[j].node.values == ls[j].values
    ensures ls[j].node.next == First(Roots(ls[j + 1..]), null)
  {
    hide Linked;
    RepEach(ls);
    LeafKeys(ls[j]);
    LinkedNext(Roots(ls), j, null);
    RootsCut(ls, j + 1);
  }

  lemma FirstOfRest(ls: seq<Tree>, j: nat)
    requires j <= |ls|
    ensures First(Roots(ls[j..]), null) == if j < |ls| then ls[j].node else null
  {}

  lemma ScanStarts(ls: seq<Tree>, j: nat, from: Option<int>, to: Option<int>)
    requires j <= |ls| && (j > 0 ==> from.Some? && AllBelow(Flat(ls[..j]), from.value))
    ensures Scanned(ls, j, from, to, [])
  {
    if j > 0 {
      NoneBetween(Flat(ls[..j]), from, to);
    } else {
      assert ls[..0] == [];
    }
  }

  lemma ScanMoves(ls: seq<Tree>, j: nat, from: Option<int>, to: Option<int>, out: seq<Entry>)
    requires Scanned(ls, j, from, to, out) && j < |ls| && LeafShaped(ls[j])
    ensures Scanned(ls, j + 1, from, to, out + Between(Zip(ls[j].keys, ls[j].values), from, to))
  {
    hide Between, Flat, Zip;
    assert ls[..j + 1] == ls[..j] + [ls[j]];
    FlatConcat(ls[..j], [ls[j]]);
    Singleton(ls[j]);
    LeafEntries(ls[j]);
    BetweenConcat(Flat(ls[..j]), Zip(ls[j].keys, ls[j].values), from, to);
  }

  lemma ScanComplete(ls: seq<Tree>, from: Option<int>, to: Option<int>, out: seq<Entry>)
    requires Scanned(ls, |ls|, from, to, out)
    ensures out == Between(Flat(ls), from, to)
  {
    assert ls[..|ls|] == ls;
  }

  /** Once some key of leaf `j` is past the end, no later leaf contributes. */
  lemma ScanStops(ls: seq<Tree>, j: nat, from: Option<int>, to: Option<int>, out: seq<Entry>)
    requires j < |ls| && Scanned(ls, j + 1, from, to, out) && Ascending(Flat(ls)) && LeafShaped(ls[j])
    requires to.Some? && exists k :: k in ls[j].keys && k >= to.value
    ensures out == Between(Flat(ls), from, to)
  {
    hide Between, Flat, Zip;
    var a, b, c := Flat(ls[..j]), Zip(ls[j].keys, ls[j].values), Flat(ls[j + 1..]);
    FlatAround(ls, j);
    LeafEntries(ls[j]);
    assert ls == ls[..j + 1] + ls[j + 1..];
    FlatConcat(ls[..j + 1], ls[j + 1..]);
    BetweenConcat(Flat(ls[..j + 1]), c, from, to);
    LastPast(a, b, c, ls[j].keys, ls[j].values, to.value);
    NoneBetween(c, from, to);
  }

  lemma LastPast(a: seq<Entry>, b: seq<Entry>, c: seq<Entry>, keys: seq<int>, values: seq<Value>, to: int)
    requires |keys| == |values| && b == Zip(keys, values) && Ascending(a + b + c)
    requires exists k :: k in keys && k >= to
    ensures AllFrom(c, to)
  {
    var i :| 0 <= i < |keys| && keys[i] >= to;
    var es := a + b + c;
    assert es[|a| + i] == b[i];
    forall e | e in c ensures to <= e.key {
      var j :| 0 <= j < |c| && c[j] == e;
      assert es[|a| + |b| + j] == e;
    }
  }

  /** The loop over one leaf: skip what is below the range, stop at what is past it. */
  method ScanLeaf(keys: seq<int>, values: seq<Value>, from: Option<int>, to: Option<int>, out: seq<Entry>)
    returns (out': seq<Entry>, stop: bool)
    requires |keys| == |values| && Sorted(keys)
    ensures out' == out + Between(Zip(keys, values), from, to)
    ensures stop ==> to.Some? && exists k :: k in keys && k >= to.value
  {
    out', stop := out, false;
    ghost var es := Zip(keys, values);
    assert es[..0] == [];
    for i := 0 to |keys|
      invariant out' == out + Between(es[..i], from, to) && !stop
    {
      BetweenNext(es, i, from, to);
      if from.Some? && keys[i] < from.value { continue; }
      if to.Some? && keys[i] >= to.value {
        RestPast(es, i, from, to);
        assert keys[i] in keys;
        return out', true;
      }
      out' := out' + [Entry(keys[i], values[i])];
    }
    assert es[..|keys|] == es;
  }

  lemma BetweenNext(es: seq<Entry>, i: nat, from: Option<int>, to: Option<int>)
    requires i < |es|
    ensures Between(es[..i + 1], from, to) == Between(es[..i], from, to) +
      if (from.Some? && es[i].key < from.value) || (to.Some? && es[i].key >= to.value) then [] else [es[i]]
  {
    assert es[..i + 1] == es[..i] + [es[i]];
    BetweenConcat(es[..i], [es[i]], from, to);
  }

  lemma RestPast(es: seq<Entry>, i: nat, from: Option<int>, to: Option<int>)
    requires i < |es| && to.Some? && es[i].key >= to.value && Ascending(es)
    ensures Between(es, from, to) == Between(es[..i], from, to)
  {
    assert es == es[..i] + es[i..];
    BetweenConcat(es[..i], es[i..], from, to);
    NoneBetween(es[i..], from, to);
  }
}
