/** What one more node does to the document: the others keep their order. */
module RgaInsert {
  import opened RgaOrder
  import opened RgaTree

  /** `new` is `old` with the node `id` added; its predecessor is present. */
  ghost predicate Gains(old': Nodes, new': Nodes, rank: map<Id, nat>, id: Id) {
    && id !in old' && id in new' && new' == old'[id := new'[id]]
    && Grounded(old', rank) && Grounded(new', rank)
  }

  /** `id` is newer than every node inserted at the same place. */
  ghost predicate Newest(nodes: Nodes, id: Id, after: Ref) {
    forall k :: k in nodes && nodes[k].after == after ==> Newer(id, k)
  }

  /** `b` is `a` with `id` put in at position `i`. */
  ghost predicate SplicedAt(a: seq<Id>, b: seq<Id>, id: Id, i: nat) {
    i <= |a| && b == a[..i] + [id] + a[i..]
  }

  /** Where a newest node goes: right behind its predecessor, or first of all. */
  ghost predicate RightBehind(a: seq<Id>, i: nat, after: Ref, key: Ref) {
    if after == key then i == 0 else 0 < i <= |a| && At(a[i - 1]) == after
  }

  /** `b` is `a` with `id` put in when `a` holds its predecessor, and `a` itself otherwise. */
  ghost predicate Gained(a: seq<Id>, b: seq<Id>, id: Id, after: Ref, newest: bool, i: nat) {
    if after.At? && after.id in a
    then SplicedAt(a, b, id, i) && (newest ==> RightBehind(a, i, after, Root))
    else b == a
  }

  lemma GainedConcat(a1: seq<Id>, b1: seq<Id>, a2: seq<Id>, b2: seq<Id>, id: Id, after: Ref, newest: bool, j: nat,
      k: nat)
    returns (i: nat)
    requires Gained(a1, b1, id, after, newest, j) && Gained(a2, b2, id, after, newest, k)
    requires after.At? ==> after.id !in a1 || after.id !in a2
    ensures Gained(a1 + a2, b1 + b2, id, after, newest, i)
  {
    i := 0;
    if after.At? && after.id in a1 {
      i := j;
      SpliceLeft(a1, b1, a2, id, j);
    } else if after.At? && after.id in a2 {
      i := |a1| + k;
      SpliceRight(a1, a2, b2, id, k);
    }
  }

  lemma {:induction false} WalkAllConcat(nodes: Nodes, avail: set<Id>, a: seq<Id>, b: seq<Id>)
    ensures WalkAll(nodes, avail, a + b) == WalkAll(nodes, avail, a) + WalkAll(nodes, avail, b)
    decreases |a|
  {
    hide WalkOne;
    if a == [] {
      assert a + b == b;
    } else {
      assert (a + b)[1..] == a[1..] + b;
      WalkAllConcat(nodes, avail, a[1..], b);
    }
  }

  /** Nothing was inserted after a node that was not there. */
  lemma NoKidsYet(old': Nodes, new': Nodes, rank: map<Id, nat>, id: Id, avail: set<Id>)
    requires Gains(old', new', rank, id)
    ensures Walk(new', avail, At(id)) == []
  {
    assert Kids(new', avail, At(id)) == {};
    SortedOfNone();
  }

  lemma {:induction false} WalkGains(old': Nodes, new': Nodes, rank: map<Id, nat>, id: Id, avail: set<Id>, key: Ref)
    returns (i: nat)
    requires Gains(old', new', rank, id) && id !in avail && key != At(id) && (key.At? ==> key.id in rank)
    ensures var a, b, after := Walk(old', avail, key), Walk(new', avail + {id}, key), new'[id].after;
      if after == key || (after.At? && after.id in a)
      then SplicedAt(a, b, id, i) && (Newest(old', id, after) ==> RightBehind(a, i, after, key))
      else b == a
    decreases |avail|, 1, 0
  {
    hide WalkAll, Sorted, Under;
    var after := new'[id].after;
    var list := Sorted(Kids(old', avail, key));
    SortedKids(old', avail, key);
    WalkIs(old', avail, key);
    WalkIs(new', avail + {id}, key);
    hide Walk;
    if after == key {
      assert Kids(new', avail + {id}, key) == Kids(old', avail, key) + {id};
      SortedInserts(Kids(old', avail, key), id);
      i := FirstHere(old', new', rank, id, avail, key, list);
    } else {
      assert Kids(new', avail + {id}, key) == Kids(old', avail, key);
      i := WalkAllGains(old', new', rank, id, avail, list, key);
    }
  }

  /** Among the children of its predecessor, the new node takes its sorted place. */
  lemma {:induction false} FirstHere(old': Nodes, new': Nodes, rank: map<Id, nat>, id: Id, avail: set<Id>, key: Ref,
      list: seq<Id>)
    returns (i: nat)
    requires Gains(old', new', rank, id) && id !in avail && new'[id].after == key && (key.At? ==> key.id in rank)
    requires KidList(old', list, key)
    ensures SplicedAt(WalkAll(old', avail, list), WalkAll(new', avail + {id}, Inserted(list, id)), id, i)
    ensures Place(list, id) == 0 ==> i == 0
    decreases |avail|, 0, |list| + 2
  {
    hide WalkAll, Under, Place, Grounded, SplicedAt;
    var p := Place(list, id);
    var more, l1, l2 := avail + {id}, list[..p], list[p..];
    AsideUnchanged(old', new', rank, id, avail, l1, key);
    AsideUnchanged(old', new', rank, id, avail, l2, key);
    assert list == l1 + l2;
    WalkAllConcat(old', avail, l1, l2);
    WalkAllConcat(new', more, l1 + [id], l2);
    WalkAllConcat(new', more, l1, [id]);
    OnItsOwn(old', new', rank, id, avail);
    i := |WalkAll(old', avail, l1)|;
    SplicedBetween(WalkAll(old', avail, l1), WalkAll(old', avail, l2), id);
    WalkAllOfNone(old', avail);
    assert p == 0 ==> l1 == [];
  }

  /** What hangs beside the new node stays as it is. */
  lemma {:induction false} AsideUnchanged(old': Nodes, new': Nodes, rank: map<Id, nat>, id: Id, avail: set<Id>,
      list: seq<Id>, key: Ref)
    requires Gains(old', new', rank, id) && id !in avail && new'[id].after == key && (key.At? ==> key.id in rank)
    requires KidList(old', list, key)
    ensures WalkAll(new', avail + {id}, list) == WalkAll(old', avail, list)
    decreases |avail|, 0, |list| + 1
  {
    hide WalkAll, Under;
    NotBelowItself(old', rank, avail, list, key);
    var _ := WalkAllGains(old', new', rank, id, avail, list, key);
  }

  lemma OnItsOwn(old': Nodes, new': Nodes, rank: map<Id, nat>, id: Id, avail: set<Id>)
    requires Gains(old', new', rank, id) && id !in avail
    ensures WalkAll(new', avail + {id}, [id]) == [id]
  {
    hide WalkAll, Walk;
    NoKidsYet(old', new', rank, id, avail + {id} - {id});
    WalkAllOfOne(new', avail + {id}, id);
  }

  lemma SplicedBetween(a: seq<Id>, b: seq<Id>, id: Id)
    ensures SplicedAt(a + b, a + [id] + b, id, |a|)
  {}

  lemma WalkAllOfOne(nodes: Nodes, avail: set<Id>, c: Id)
    ensures WalkAll(nodes, avail, [c]) == WalkOne(nodes, avail, c)
  {
    assert [c][1..] == [];
    assert WalkAll(nodes, avail, []) == [];
  }

  lemma WalkAllOfNone(nodes: Nodes, avail: set<Id>)
    ensures WalkAll(nodes, avail, []) == []
  {}

  /** A node is not below itself. */
  lemma NotBelowItself(nodes: Nodes, rank: map<Id, nat>, avail: set<Id>, list: seq<Id>, key: Ref)
    requires Grounded(nodes, rank) && KidList(nodes, list, key) && (key.At? ==> key.id in rank)
    ensures key.At? ==> key.id !in WalkAll(nodes, avail, list)
  {
    hide WalkAll, Under;
    if key.At? && key.id in WalkAll(nodes, avail, list) {
      WalkAllUnder(nodes, rank, avail, list, key, key.id);
      UnderRank(nodes, rank, key.id, key.id);
    }
  }

  lemma {:induction false} WalkAllGains(
    old': Nodes, new': Nodes, rank: map<Id, nat>, id: Id, avail: set<Id>, list: seq<Id>, key: Ref)
    returns (i: nat)
    requires Gains(old', new', rank, id) && id !in avail && KidList(old', list, key)
    ensures Gained(WalkAll(old', avail, list), WalkAll(new', avail + {id}, list), id, new'[id].after,
                   Newest(old', id, new'[id].after), i)
    decreases |avail|, 0, |list|
  {
    hide WalkOne, Under, Gained, Newest;
    i := 0;
    if list == [] {
      GainedNothing(id, new'[id].after, Newest(old', id, new'[id].after));
    } else {
      var after := new'[id].after;
      var c := list[0];
      var j := WalkOneGains(old', new', rank, id, avail, c);
      var k := WalkAllGains(old', new', rank, id, avail, list[1..], key);
      var a1, a2 := WalkOne(old', avail, c), WalkAll(old', avail, list[1..]);
      if after.At? && after.id in a1 {
        WalkOneUnder(old', rank, avail, c, key, after.id);
        if after.id in a2 { WalkAllUnder(old', rank, avail, list[1..], key, after.id); }
      }
      i := GainedConcat(a1, WalkOne(new', avail + {id}, c), a2, WalkAll(new', avail + {id}, list[1..]), id, after,
                        Newest(old', id, after), j, k);
    }
  }

  lemma GainedNothing(id: Id, after: Ref, newest: bool)
    ensures Gained([], [], id, after, newest, 0)
  {}

  lemma SpliceLeft(a: seq<Id>, a': seq<Id>, b: seq<Id>, id: Id, i: nat)
    requires SplicedAt(a, a', id, i)
    ensures SplicedAt(a + b, a' + b, id, i)
  {}

  lemma SpliceRight(a: seq<Id>, b: seq<Id>, b': seq<Id>, id: Id, i: nat)
    requires SplicedAt(b, b', id, i)
    ensures SplicedAt(a + b, a + b', id, |a| + i)
  {}

  lemma {:induction false} WalkOneGains(old': Nodes, new': Nodes, rank: map<Id, nat>, id: Id, avail: set<Id>, c: Id)
    returns (i: nat)
    requires Gains(old', new', rank, id) && id !in avail && c in old'
    ensures Gained(WalkOne(old', avail, c), WalkOne(new', avail + {id}, c), id, new'[id].after,
                   Newest(old', id, new'[id].after), i)
    decreases |avail|, 0, 0
  {
    hide Walk, Newest;
    var after, newest := new'[id].after, Newest(old', id, new'[id].after);
    i := 0;
    if c in avail {
      assert avail + {id} - {c} == avail - {c} + {id};
      var j := WalkGains(old', new', rank, id, avail - {c}, At(c));
      var w, w' := Walk(old', avail - {c}, At(c)), Walk(new', avail - {c} + {id}, At(c));
      i := j + 1;
      GainedBelow(c, w, w', id, after, newest, j);
    } else {
      GainedNothing(id, after, newest);
    }
  }

  lemma GainedBelow(c: Id, w: seq<Id>, w': seq<Id>, id: Id, after: Ref, newest: bool, j: nat)
    requires if after == At(c) || (after.At? && after.id in w)
      then SplicedAt(w, w', id, j) && (newest ==> RightBehind(w, j, after, At(c))) else w' == w
    ensures Gained([c] + w, [c] + w', id, after, newest, j + 1)
  {
    if after.At? && after.id in [c] + w { SpliceRight([c], w, w', id, j); }
  }

  /** Adding a node leaves the order of all others as it was; it appears at one place, right behind
      its predecessor when it is the newest there. */
  lemma OrderedGains(old': Nodes, new': Nodes, rank: map<Id, nat>, id: Id) returns (i: nat)
    requires Gains(old', new', rank, id)
    ensures SplicedAt(Ordered(old'), Ordered(new'), id, i)
    ensures Newest(old', id, new'[id].after) ==> RightBehind(Ordered(old'), i, new'[id].after, Root)
  {
    hide Walk, Under;
    assert new'.Keys == old'.Keys + {id};
    OrderedIsAll(old', rank);
    assert new'[id].after.At? ==> new'[id].after.id in Elements(Ordered(old'));
    i := WalkGains(old', new', rank, id, old'.Keys, Root);
  }

  // ---------------------------------------------------------------- tombstones

  ghost predicate SameShape(a: Nodes, b: Nodes) {
    a.Keys == b.Keys && forall k :: k in a ==> a[k].after == b[k].after
  }

  /** Tombstones and values have no part in the order. */
  lemma {:induction false} WalkSameShape(a: Nodes, b: Nodes, avail: set<Id>, key: Ref)
    requires SameShape(a, b)
    ensures Walk(a, avail, key) == Walk(b, avail, key)
    decreases |avail|, 1, 0
  {
    hide WalkAll;
    assert Kids(a, avail, key) == Kids(b, avail, key);
    WalkAllSameShape(a, b, avail, Sorted(Kids(a, avail, key)));
  }

  lemma {:induction false} WalkAllSameShape(a: Nodes, b: Nodes, avail: set<Id>, list: seq<Id>)
    requires SameShape(a, b)
    ensures WalkAll(a, avail, list) == WalkAll(b, avail, list)
    decreases |avail|, 0, |list|
  {
    hide Walk;
    if list != [] {
      if list[0] in avail { WalkSameShape(a, b, avail - {list[0]}, At(list[0])); }
      WalkAllSameShape(a, b, avail, list[1..]);
    }
  }
}
