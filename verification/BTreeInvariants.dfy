/** The checks of `checkInvariants` in `Java-BTree/src/btree/BPlusTree.java`, which every tree in
    order passes, and the least number of entries a tree of a given height holds. */
module BTreeInvariants {
  import opened Arithmetic
  import opened BTreeShape

  // ---------------------------------------------------------------- the checks

  /** `collectLeafDepths`. */
  function LeafDepths(t: Tree, depth: nat): seq<nat>
    decreases t
  {
    match t
    case Leaf(_, _, _) => [depth]
    case Inner(_, _, children) => AllLeafDepths(children, depth + 1)
  }

  function AllLeafDepths(ts: seq<Tree>, depth: nat): seq<nat>
    decreases ts
  {
    if ts == [] then [] else LeafDepths(ts[0], depth) + AllLeafDepths(ts[1..], depth)
  }

  /** `checkNode` finds no violation. */
  ghost predicate CheckNode(t: Tree, isRoot: bool, lo: Bound, hi: Bound, order: nat)
    requires order >= 3
    decreases t
  {
    && (forall i :: 1 <= i < |t.keys| ==> t.keys[i - 1] < t.keys[i])
    && (forall i :: 0 <= i < |t.keys| ==> Within(t.keys[i], lo, hi))
    && (isRoot || |t.keys| >= MinKeys(order)) && |t.keys| <= MaxKeys(order)
    && (t.Inner? ==>
          && |t.children| == |t.keys| + 1
          && forall i :: 0 <= i < |t.children| ==>
               CheckNode(t.children[i], false, Lo(t.keys, i, lo), Hi(t.keys, i, hi), order))
  }

  lemma {:induction false} LeavesAtOneDepth(t: Tree, lo: Bound, hi: Bound, h: nat, order: nat, depth: nat)
    requires order >= 3 && Ok(t, lo, hi, h, order)
    ensures forall d :: d in LeafDepths(t, depth) ==> d == depth + h
    decreases t
  {
    if t.Inner? { ChildLeavesAtOneDepth(t.children, t.keys, lo, hi, h - 1, order, depth + 1); }
  }

  lemma {:induction false} ChildLeavesAtOneDepth(
    ts: seq<Tree>, keys: seq<int>, lo: Bound, hi: Bound, h: nat, order: nat, depth: nat)
    requires order >= 3 && ChildrenOk(ts, keys, lo, hi, h, order)
    ensures forall d :: d in AllLeafDepths(ts, depth) ==> d == depth + h
    decreases ts
  {
    hide Ok;
    assert Ok(ts[0], Lo(keys, 0, lo), Hi(keys, 0, hi), h, order);
    LeavesAtOneDepth(ts[0], Lo(keys, 0, lo), Hi(keys, 0, hi), h, order, depth);
    if |ts| > 1 {
      Stretch(ts, keys, lo, hi, h, order, 1, |ts|);
      assert ts[1..|ts|] == ts[1..] && keys[1..|ts| - 1] == keys[1..];
      ChildLeavesAtOneDepth(ts[1..], keys[1..], At(keys[0]), hi, h, order, depth);
    }
  }

  lemma {:induction false} PassesCheck(t: Tree, isRoot: bool, lo: Bound, hi: Bound, h: nat, order: nat)
    requires order >= 3 && Ok(t, lo, hi, h, order) && |t.keys| <= MaxKeys(order)
    requires isRoot || |t.keys| >= MinKeys(order)
    ensures CheckNode(t, isRoot, lo, hi, order)
    decreases t
  {
    hide Within, Before;
    if t.Inner? {
      SeparatorsPass(t.children, t.keys, lo, hi, h - 1, order);
      forall i | 0 <= i < |t.children|
        ensures CheckNode(t.children[i], false, Lo(t.keys, i, lo), Hi(t.keys, i, hi), order)
      {
        assert Full(t.children[i], order);
        PassesCheck(t.children[i], false, Lo(t.keys, i, lo), Hi(t.keys, i, hi), h - 1, order);
      }
    }
  }

  lemma SeparatorsPass(ts: seq<Tree>, keys: seq<int>, lo: Bound, hi: Bound, h: nat, order: nat)
    requires order >= 3 && ChildrenOk(ts, keys, lo, hi, h, order)
    ensures forall i :: 1 <= i < |keys| ==> keys[i - 1] < keys[i]
    ensures forall i :: 0 <= i < |keys| ==> Within(keys[i], lo, hi)
  {
    hide Ok, ChildrenOk;
    forall i | 1 <= i < |keys| ensures keys[i - 1] < keys[i] {
      SeparatorsSorted(ts, keys, lo, hi, h, order, i, i);
    }
    forall i | 0 <= i < |keys| ensures Within(keys[i], lo, hi) {
      SeparatorsSorted(ts, keys, lo, hi, h, order, 0, i);
      SeparatorsSorted(ts, keys, lo, hi, h, order, i + 1, |keys|);
    }
  }

  // ---------------------------------------------------------------- how much a tree holds

  function Power(b: nat, e: nat): nat {
    if e == 0 then 1 else b * Power(b, e - 1)
  }

  lemma {:induction false} HoldsAtLeast(t: Tree, lo: Bound, hi: Bound, h: nat, order: nat)
    requires order >= 3 && Ok(t, lo, hi, h, order) && |t.keys| >= MinKeys(order)
    ensures |Entries(t)| >= MinKeys(order) * Power(MinKeys(order) + 1, h)
    decreases t
  {
    var m := MinKeys(order);
    match t
    case Leaf(_, keys, values) =>
      assert m * Power(m + 1, 0) == m;
    case Inner(_, keys, children) =>
      var each := m * Power(m + 1, h - 1);
      ChildrenHold(children, keys, lo, hi, h - 1, order);
      MulAtLeastProduct(each, m + 1, |children|);
      PowerStep(m, m + 1, h);
  }

  lemma PowerStep(m: nat, b: nat, h: nat)
    requires h > 0
    ensures m * Power(b, h) == (m * Power(b, h - 1)) * b
  {
    MulAssociates(m, Power(b, h - 1), b);
    MulCommutes(b, Power(b, h - 1));
  }

  lemma {:induction false} ChildrenHold(ts: seq<Tree>, keys: seq<int>, lo: Bound, hi: Bound, h: nat, order: nat)
    requires order >= 3 && ChildrenOk(ts, keys, lo, hi, h, order) && AllFull(ts, order)
    ensures |Flat(ts)| >= (MinKeys(order) * Power(MinKeys(order) + 1, h)) * |ts|
    decreases ts
  {
    hide Ok, Entries, Power;
    var each := MinKeys(order) * Power(MinKeys(order) + 1, h);
    assert Ok(ts[0], Lo(keys, 0, lo), Hi(keys, 0, hi), h, order) && Full(ts[0], order);
    HoldsAtLeast(ts[0], Lo(keys, 0, lo), Hi(keys, 0, hi), h, order);
    if |ts| > 1 {
      Stretch(ts, keys, lo, hi, h, order, 1, |ts|);
      assert ts[1..|ts|] == ts[1..] && keys[1..|ts| - 1] == keys[1..];
      ChildrenHold(ts[1..], keys[1..], At(keys[0]), hi, h, order);
      MulSuccessor(each, |ts| - 1);
    } else {
      assert each * 1 == each;
    }
  }

  lemma MulSuccessor(a: nat, n: nat)
    ensures a * (n + 1) == a * n + a
  {}

  lemma MulCommutes(a: nat, b: nat)
    ensures a * b == b * a
  {}
}
