/** What splitting, borrowing and merging do to the contents and the rules of neighbouring
    nodes, as values. */
module BTreeNodes {
  import opened Options
  import opened BTreeEntries
  import opened BTreeShape

  // ---------------------------------------------------------------- leaves

  lemma ZipConcat(ka: seq<int>, va: seq<Value>, kb: seq<int>, vb: seq<Value>)
    requires |ka| == |va| && |kb| == |vb|
    ensures Zip(ka + kb, va + vb) == Zip(ka, va) + Zip(kb, vb)
  {}

  lemma ZipCut(keys: seq<int>, values: seq<Value>, i: nat)
    requires |keys| == |values| && i <= |keys|
    ensures Zip(keys, values) == Zip(keys[..i], values[..i]) + Zip(keys[i..], values[i..])
  {}

  lemma ZipOne(k: int, v: Value)
    ensures Zip([k], [v]) == [Entry(k, v)]
  {}

  /** Where the scan of a leaf stops: before the first key not below `key`. */
  ghost predicate PlaceOf(keys: seq<int>, key: int, pos: nat) {
    pos <= |keys| && (forall j :: 0 <= j < pos ==> keys[j] < key) && (pos < |keys| ==> key <= keys[pos])
  }

  lemma LeafMiddle(keys: seq<int>, values: seq<Value>, key: int, pos: nat)
    requires |keys| == |values| && Sorted(keys) && PlaceOf(keys, key, pos)
    ensures AllBelow(Zip(keys[..pos], values[..pos]), key)
    ensures AllFrom(Zip(keys[pos..], values[pos..]), key)
    ensures pos < |keys| ==> AllFrom(Zip(keys[pos + 1..], values[pos + 1..]), key + 1)
  {}

  /** Overwriting the value of a key the leaf holds. */
  lemma LeafOverwrites(keys: seq<int>, values: seq<Value>, key: int, pos: nat, value: Value)
    requires |keys| == |values| && Sorted(keys) && PlaceOf(keys, key, pos) && pos < |keys| && keys[pos] == key
    ensures Zip(keys, values[pos := value]) == With(Zip(keys, values), key, value)
    ensures Lookup(Zip(keys, values), key) == Some(values[pos])
    ensures Without(Zip(keys, values), key) == Zip(keys[..pos] + keys[pos + 1..], values[..pos] + values[pos + 1..])
  {
    var a, b, c := Zip(keys[..pos], values[..pos]), [Entry(key, values[pos])], Zip(keys[pos + 1..], values[pos + 1..]);
    LeafMiddle(keys, values, key, pos);
    assert Zip(keys, values) == a + b + c;
    PutMiddle(a, b, c, key, value);
    LookupMiddle(a, b, c, key);
    RemoveMiddle(a, b, c, key);
    assert Without(b, key) == [] && With(b, key, value) == [Entry(key, value)];
    ZipConcat(keys[..pos], values[..pos], keys[pos + 1..], values[pos + 1..]);
    assert Zip(keys, values[pos := value]) == a + [Entry(key, value)] + c;
  }

  /** Inserting a key the leaf does not hold. */
  lemma LeafInserts(keys: seq<int>, values: seq<Value>, key: int, pos: nat, value: Value)
    requires |keys| == |values| && Sorted(keys) && PlaceOf(keys, key, pos) && (pos < |keys| ==> keys[pos] != key)
    ensures Zip(keys[..pos] + [key] + keys[pos..], values[..pos] + [value] + values[pos..])
      == With(Zip(keys, values), key, value)
    ensures Lookup(Zip(keys, values), key) == None
    ensures Without(Zip(keys, values), key) == Zip(keys, values)
  {
    var a, c := Zip(keys[..pos], values[..pos]), Zip(keys[pos..], values[pos..]);
    LeafMiddle(keys, values, key, pos);
    assert AllFrom(c, key + 1);
    ZipCut(keys, values, pos);
    assert a + [] + c == a + c;
    PutMiddle(a, [], c, key, value);
    LookupMiddle(a, [], c, key);
    RemoveMiddle(a, [], c, key);
    ZipOne(key, value);
    ZipConcat(keys[..pos], values[..pos], [key], [value]);
    ZipConcat(keys[..pos] + [key], values[..pos] + [value], keys[pos..], values[pos..]);
  }

  lemma SortedInsert(keys: seq<int>, key: int, pos: nat, lo: Bound, hi: Bound)
    requires Sorted(keys) && PlaceOf(keys, key, pos) && (pos < |keys| ==> keys[pos] != key)
    requires AllWithin(keys, lo, hi) && Within(key, lo, hi)
    ensures Sorted(keys[..pos] + [key] + keys[pos..]) && AllWithin(keys[..pos] + [key] + keys[pos..], lo, hi)
  {}

  lemma SortedRemove(keys: seq<int>, i: nat, lo: Bound, hi: Bound)
    requires Sorted(keys) && AllWithin(keys, lo, hi) && i < |keys|
    ensures Sorted(keys[..i] + keys[i + 1..]) && AllWithin(keys[..i] + keys[i + 1..], lo, hi)
  {}

  lemma LeafSized(t: Tree, lo: Bound, hi: Bound, order: nat)
    requires order >= 3 && t.Leaf? && Ok(t, lo, hi, 0, order)
    ensures |t.keys| == |t.values| && Sorted(t.keys) && AllWithin(t.keys, lo, hi)
  {}

  lemma LeafEntries(t: Tree)
    requires t.Leaf? && |t.keys| == |t.values|
    ensures Entries(t) == Zip(t.keys, t.values)
  {}

  lemma LeafIsOk(t: Tree, was: Tree, lo: Bound, hi: Bound, order: nat)
    requires order >= 3 && t.Leaf? && Ok(was, lo, hi, 0, order)
    requires |t.keys| == |t.values| && Sorted(t.keys) && AllWithin(t.keys, lo, hi)
    ensures Ok(t, lo, hi, 0, order)
  {}

  lemma InnerPositive(t: Tree, lo: Bound, hi: Bound, h: nat, order: nat)
    requires order >= 3 && Ok(t, lo, hi, h, order)
    ensures t.Inner? <==> h > 0
  {}

  // ---------------------------------------------------------------- an update inside one child

  ghost predicate Below(keys: seq<int>, key: int, i: nat, lo: Bound, hi: Bound) {
    i <= |keys| && Within(key, Lo(keys, i, lo), Hi(keys, i, hi))
  }

  lemma AroundChild(ts: seq<Tree>, keys: seq<int>, lo: Bound, hi: Bound, h: nat, order: nat, i: nat, key: int)
    requires order >= 3 && ChildrenOk(ts, keys, lo, hi, h, order) && Below(keys, key, i, lo, hi)
    ensures Flat(ts) == Flat(ts[..i]) + Entries(ts[i]) + Flat(ts[i + 1..])
    ensures AllBelow(Flat(ts[..i]), key) && AllFrom(Flat(ts[i + 1..]), key + 1)
  {
    hide Ok, Entries, Flat;
    FlatAround(ts, i);
    if i > 0 {
      Stretch(ts, keys, lo, hi, h, order, 0, i);
      ChildrenOrdered(ts[0..i], keys[0..i - 1], lo, Hi(keys, i - 1, hi), h, order);
      assert ts[0..i] == ts[..i];
    } else {
      NoTrees();
    }
    if i + 1 < |ts| {
      Stretch(ts, keys, lo, hi, h, order, i + 1, |ts|);
      ChildrenOrdered(ts[i + 1..|ts|], keys[i + 1..|ts| - 1], Lo(keys, i + 1, lo), hi, h, order);
      assert ts[i + 1..|ts|] == ts[i + 1..];
    } else {
      assert ts[i + 1..] == [];
      NoTrees();
    }
  }

  lemma SeqAround<T>(s: seq<T>, i: nat)
    requires i < |s|
    ensures s == s[..i] + [s[i]] + s[i + 1..]
  {}

  lemma FlatAround(ts: seq<Tree>, i: nat)
    requires i < |ts|
    ensures Flat(ts) == Flat(ts[..i]) + Entries(ts[i]) + Flat(ts[i + 1..])
  {
    hide Flat, Entries, LeavesOf, NodesOf, AllDistinct;
    SeqAround(ts, i);
    FlatConcat(ts[..i] + [ts[i]], ts[i + 1..]);
    FlatConcat(ts[..i], [ts[i]]);
    Singleton(ts[i]);
  }

  lemma NoTrees()
    ensures Flat([]) == []
  {}

  lemma UpdateInChild(ts: seq<Tree>, keys: seq<int>, lo: Bound, hi: Bound, h: nat, order: nat, i: nat, key: int,
      value: Value)
    requires order >= 3 && ChildrenOk(ts, keys, lo, hi, h, order) && Below(keys, key, i, lo, hi)
    ensures Lookup(Flat(ts), key) == Lookup(Entries(ts[i]), key)
    ensures With(Flat(ts), key, value) == Flat(ts[..i]) + With(Entries(ts[i]), key, value) + Flat(ts[i + 1..])
    ensures Without(Flat(ts), key) == Flat(ts[..i]) + Without(Entries(ts[i]), key) + Flat(ts[i + 1..])
  {
    assert i < |ts|;
    hide Ok, Entries, Flat, ChildrenOk, With, Without, Lookup;
    AroundChild(ts, keys, lo, hi, h, order, i, key);
    LookupMiddle(Flat(ts[..i]), Entries(ts[i]), Flat(ts[i + 1..]), key);
    PutMiddle(Flat(ts[..i]), Entries(ts[i]), Flat(ts[i + 1..]), key, value);
    RemoveMiddle(Flat(ts[..i]), Entries(ts[i]), Flat(ts[i + 1..]), key);
  }

  // ---------------------------------------------------------------- cutting and joining

  /** Two neighbours in `[lo, hi)` parted by `sep`. */
  ghost predicate PairOk(l: Tree, r: Tree, lo: Bound, sep: int, hi: Bound, h: nat, order: nat)
    requires order >= 3
  {
    Ok(l, lo, At(sep), h, order) && Ok(r, At(sep), hi, h, order)
  }

  /** A leaf cut before its `m`-th key: the separator is a copy of the first key on the right. */
  lemma LeafCut(a: Node, b: Node, t: Tree, m: nat, lo: Bound, hi: Bound, order: nat)
    requires order >= 3 && t.Leaf? && Ok(t, lo, hi, 0, order) && 0 < m < |t.keys|
    ensures |t.keys| == |t.values|
    ensures PairOk(Leaf(a, t.keys[..m], t.values[..m]), Leaf(b, t.keys[m..], t.values[m..]), lo, t.keys[m], hi, 0,
      order)
    ensures Entries(t) == Entries(Leaf(a, t.keys[..m], t.values[..m])) + Entries(Leaf(b, t.keys[m..], t.values[m..]))
  {
    hide Within;
    SortedCut(t.keys, m, lo, hi);
    ZipCut(t.keys, t.values, m);
  }

  lemma SortedCut(keys: seq<int>, m: nat, lo: Bound, hi: Bound)
    requires Sorted(keys) && AllWithin(keys, lo, hi) && 0 < m < |keys|
    ensures Before(lo, At(keys[m])) && Before(At(keys[m]), hi)
    ensures Sorted(keys[..m]) && AllWithin(keys[..m], lo, At(keys[m]))
    ensures Sorted(keys[m..]) && AllWithin(keys[m..], At(keys[m]), hi)
  {
    assert keys[0] < keys[m] && Within(keys[0], lo, hi) && Within(keys[m], lo, hi);
    forall k | k in keys[m..] ensures Within(k, At(keys[m]), hi) {
      var j :| 0 <= j < |keys[m..]| && keys[m..][j] == k;
      assert k == keys[m + j] && Within(keys[m + j], lo, hi);
    }
  }

  lemma LeafJoin(n: Node, l: Tree, r: Tree, lo: Bound, sep: int, hi: Bound, order: nat)
    requires order >= 3 && PairOk(l, r, lo, sep, hi, 0, order)
    ensures l.Leaf? && r.Leaf?
    ensures Ok(Leaf(n, l.keys + r.keys, l.values + r.values), lo, hi, 0, order)
    ensures Entries(Leaf(n, l.keys + r.keys, l.values + r.values)) == Entries(l) + Entries(r)
  {
    SortedJoin(l.keys, r.keys, lo, sep, hi);
    hide Within, AllWithin, Sorted;
    ZipConcat(l.keys, l.values, r.keys, r.values);
  }

  lemma SortedJoin(a: seq<int>, b: seq<int>, lo: Bound, sep: int, hi: Bound)
    requires Sorted(a) && Sorted(b) && AllWithin(a, lo, At(sep)) && AllWithin(b, At(sep), hi)
    requires Before(lo, At(sep)) && Before(At(sep), hi)
    ensures Sorted(a + b) && AllWithin(a + b, lo, hi)
  {
    var keys := a + b;
    forall i, j | 0 <= i < j < |keys| ensures keys[i] < keys[j] {
      if i < |a| && |a| <= j { assert Within(a[i], lo, At(sep)) && Within(b[j - |a|], At(sep), hi); }
    }
    forall k | k in keys ensures Within(k, lo, hi) {
      assert k in a || k in b;
    }
  }

  lemma InnerSized(t: Tree, lo: Bound, hi: Bound, h: nat, order: nat)
    requires order >= 3 && h > 0 && Ok(t, lo, hi, h, order)
    ensures t.Inner? && |t.children| == |t.keys| + 1
    ensures ChildrenOk(t.children, t.keys, lo, hi, h - 1, order) && AllFull(t.children, order)
  {}

  lemma InnerOk(n: Node, keys: seq<int>, ts: seq<Tree>, lo: Bound, hi: Bound, h: nat, order: nat)
    requires order >= 3 && h > 0 && Before(lo, hi) && ChildrenOk(ts, keys, lo, hi, h - 1, order) && AllFull(ts, order)
    ensures Ok(Inner(n, keys, ts), lo, hi, h, order)
  {}

  /** An internal node cut at its `m`-th key, which moves up. */
  lemma InnerCut(a: Node, b: Node, t: Tree, m: nat, lo: Bound, hi: Bound, h: nat, order: nat)
    requires order >= 3 && t.Inner? && Ok(t, lo, hi, h, order) && m < |t.keys|
    ensures |t.children| == |t.keys| + 1
    ensures PairOk(Inner(a, t.keys[..m], t.children[..m + 1]), Inner(b, t.keys[m + 1..], t.children[m + 1..]),
                   lo, t.keys[m], hi, h, order)
  {
    InnerSized(t, lo, hi, h, order);
    hide Ok, ChildrenOk, AllFull, Before;
    var ts, keys := t.children, t.keys;
    CutChildren(ts, keys, m, lo, hi, h - 1, order);
    FullCut(ts, m + 1, order);
    InnerOk(a, keys[..m], ts[..m + 1], lo, At(keys[m]), h, order);
    InnerOk(b, keys[m + 1..], ts[m + 1..], At(keys[m]), hi, h, order);
  }

  lemma FullCut(ts: seq<Tree>, m: nat, order: nat)
    requires order >= 3 && AllFull(ts, order) && m <= |ts|
    ensures AllFull(ts[..m], order) && AllFull(ts[m..], order)
  {}

  lemma CutChildren(ts: seq<Tree>, keys: seq<int>, m: nat, lo: Bound, hi: Bound, h: nat, order: nat)
    requires order >= 3 && ChildrenOk(ts, keys, lo, hi, h, order) && m < |keys|
    ensures |ts| == |keys| + 1 && Before(lo, At(keys[m])) && Before(At(keys[m]), hi)
    ensures ChildrenOk(ts[..m + 1], keys[..m], lo, At(keys[m]), h, order)
    ensures ChildrenOk(ts[m + 1..], keys[m + 1..], At(keys[m]), hi, h, order)
  {
    hide Ok;
    Stretch(ts, keys, lo, hi, h, order, 0, m + 1);
    Stretch(ts, keys, lo, hi, h, order, m + 1, |ts|);
    assert ts[0..m + 1] == ts[..m + 1] && keys[0..m] == keys[..m];
    assert ts[m + 1..|ts|] == ts[m + 1..] && keys[m + 1..|ts| - 1] == keys[m + 1..];
    SeparatorsSorted(ts, keys, lo, hi, h, order, 0, m);
    SeparatorsSorted(ts, keys, lo, hi, h, order, m + 1, |keys|);
  }

  /** Two neighbouring internal nodes with the separator between them pulled down. */
  lemma InnerJoin(n: Node, l: Tree, r: Tree, lo: Bound, sep: int, hi: Bound, h: nat, order: nat)
    requires order >= 3 && h > 0 && PairOk(l, r, lo, sep, hi, h, order)
    ensures l.Inner? && r.Inner?
    ensures Ok(Inner(n, l.keys + [sep] + r.keys, l.children + r.children), lo, hi, h, order)
  {
    InnerSized(l, lo, At(sep), h, order);
    InnerSized(r, At(sep), hi, h, order);
    JoinChildren(l.children, l.keys, r.children, r.keys, lo, sep, hi, h - 1, order);
    hide ChildrenOk;
  }

  lemma JoinChildren(a: seq<Tree>, ka: seq<int>, b: seq<Tree>, kb: seq<int>,
                     lo: Bound, sep: int, hi: Bound, h: nat, order: nat)
    requires order >= 3 && ChildrenOk(a, ka, lo, At(sep), h, order) && ChildrenOk(b, kb, At(sep), hi, h, order)
    ensures ChildrenOk(a + b, ka + [sep] + kb, lo, hi, h, order)
  {
    hide Ok;
    var all, seps := a + b, ka + [sep] + kb;
    forall k | 0 <= k < |all| ensures Ok(all[k], Lo(seps, k, lo), Hi(seps, k, hi), h, order) {
      if k < |a| { assert all[k] == a[k]; } else { assert all[k] == b[k - |a|]; }
    }
  }

  // ---------------------------------------------------------------- borrowing

  lemma LeafShiftsRight(l: Tree, r: Tree, lo: Bound, sep: int, hi: Bound, order: nat)
    requires order >= 3 && PairOk(l, r, lo, sep, hi, 0, order) && |l.keys| >= 2
    ensures l.Leaf? && r.Leaf? && |l.keys| == |l.values|
    ensures var m := |l.keys| - 1;
      var l' := Leaf(l.node, l.keys[..m], l.values[..m]);
      var r' := Leaf(r.node, [l.keys[m]] + r.keys, [l.values[m]] + r.values);
      PairOk(l', r', lo, l.keys[m], hi, 0, order) && Entries(l') + Entries(r') == Entries(l) + Entries(r)
  {
    assert l.Leaf? && r.Leaf? && |l.keys| == |l.values|;
    hide Ok, Entries;
    var m := |l.keys| - 1;
    LeafCut(l.node, r.node, l, m, lo, At(sep), order);
    LeafJoin(r.node, Leaf(r.node, l.keys[m..], l.values[m..]), r, At(l.keys[m]), sep, hi, order);
    assert l.keys[m..] == [l.keys[m]] && l.values[m..] == [l.values[m]];
  }

  lemma LeafShiftsLeft(l: Tree, r: Tree, lo: Bound, sep: int, hi: Bound, order: nat)
    requires order >= 3 && PairOk(l, r, lo, sep, hi, 0, order) && |r.keys| >= 2
    ensures l.Leaf? && r.Leaf? && |r.keys| == |r.values|
    ensures var l' := Leaf(l.node, l.keys + [r.keys[0]], l.values + [r.values[0]]);
      var r' := Leaf(r.node, r.keys[1..], r.values[1..]);
      PairOk(l', r', lo, r.keys[1], hi, 0, order) && Entries(l') + Entries(r') == Entries(l) + Entries(r)
  {
    assert l.Leaf? && r.Leaf? && |r.keys| == |r.values|;
    hide Ok, Entries;
    LeafCut(l.node, r.node, r, 1, At(sep), hi, order);
    LeafJoin(l.node, l, Leaf(l.node, r.keys[..1], r.values[..1]), lo, sep, At(r.keys[1]), order);
    assert r.keys[..1] == [r.keys[0]] && r.values[..1] == [r.values[0]];
  }

  lemma InnerShiftsRight(l: Tree, r: Tree, lo: Bound, sep: int, hi: Bound, h: nat, order: nat)
    requires order >= 3 && h > 0 && PairOk(l, r, lo, sep, hi, h, order) && |l.keys| >= 1
    ensures l.Inner? && r.Inner? && |l.children| == |l.keys| + 1
    ensures var m := |l.keys| - 1;
      PairOk(Inner(l.node, l.keys[..m], l.children[..m + 1]),
             Inner(r.node, [sep] + r.keys, [l.children[m + 1]] + r.children), lo, l.keys[m], hi, h, order)
  {
    InnerSized(l, lo, At(sep), h, order);
    InnerSized(r, At(sep), hi, h, order);
    hide Ok;
    var m := |l.keys| - 1;
    InnerCut(l.node, r.node, l, m, lo, At(sep), h, order);
    InnerJoin(r.node, Inner(r.node, l.keys[m + 1..], l.children[m + 1..]), r, At(l.keys[m]), sep, hi, h, order);
    assert l.keys[m + 1..] + [sep] + r.keys == [sep] + r.keys && l.children[m + 1..] == [l.children[m + 1]];
  }

  lemma InnerShiftsLeft(l: Tree, r: Tree, lo: Bound, sep: int, hi: Bound, h: nat, order: nat)
    requires order >= 3 && h > 0 && PairOk(l, r, lo, sep, hi, h, order) && |r.keys| >= 1
    ensures l.Inner? && r.Inner? && |r.children| == |r.keys| + 1
    ensures PairOk(Inner(l.node, l.keys + [sep], l.children + [r.children[0]]),
                   Inner(r.node, r.keys[1..], r.children[1..]), lo, r.keys[0], hi, h, order)
  {
    InnerSized(l, lo, At(sep), h, order);
    InnerSized(r, At(sep), hi, h, order);
    hide Ok;
    InnerCut(l.node, r.node, r, 0, At(sep), hi, h, order);
    InnerJoin(l.node, l, Inner(l.node, r.keys[..0], r.children[..1]), lo, sep, At(r.keys[0]), h, order);
    assert l.keys + [sep] + r.keys[..0] == l.keys + [sep] && r.children[..1] == [r.children[0]];
  }
}
