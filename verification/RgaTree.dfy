/** The tree of insert-after references in `JS-CRDT/src/rga.js` and its depth-first order: every
    present node appears once, and a new one appears at a single place. */
module RgaTree {
  import opened Options
  import opened RgaOrder

  type Value(==, !new)

  /** What a node was inserted after: the start, another node, or nothing at all, which is what an
      index past the end yields. */
  datatype Ref = Root | At(id: Id) | Nowhere

  datatype Elem = Elem(after: Ref, value: Value, deleted: bool)

  type Nodes = map<Id, Elem>

  /** Ranks fall along insert-after references, which all end at the start. */
  ghost predicate Grounded(nodes: Nodes, rank: map<Id, nat>) {
    && nodes.Keys <= rank.Keys
    && forall k :: k in nodes ==> match nodes[k].after
         case Root => true
         case At(p) => p in nodes && rank[p] < rank[k]
         case Nowhere => false
  }

  // ---------------------------------------------------------------- the walk

  ghost function Kids(nodes: Nodes, avail: set<Id>, key: Ref): set<Id> {
    set k | k in avail && k in nodes && nodes[k].after == key
  }

  /** The nodes below `key`, depth first, siblings newest first.  `avail` holds the nodes not on the
      path from the start, which is what makes the walk end. */
  ghost function Walk(nodes: Nodes, avail: set<Id>, key: Ref): seq<Id>
    decreases |avail|, 1, 0
  {
    WalkAll(nodes, avail, Sorted(Kids(nodes, avail, key)))
  }

  ghost function WalkAll(nodes: Nodes, avail: set<Id>, list: seq<Id>): seq<Id>
    decreases |avail|, 0, |list|
  {
    if list == [] then []
    else WalkOne(nodes, avail, list[0]) + WalkAll(nodes, avail, list[1..])
  }

  ghost function WalkOne(nodes: Nodes, avail: set<Id>, c: Id): seq<Id>
    decreases |avail|, 0, 0
  {
    if c !in avail then [] else [c] + Walk(nodes, avail - {c}, At(c))
  }

  /** The whole document, tombstones included. */
  ghost function Ordered(nodes: Nodes): seq<Id> {
    Walk(nodes, nodes.Keys, Root)
  }

  // ---------------------------------------------------------------- every node once

  /** The ancestor of `x` (or `x` itself) that was inserted directly after `key`. */
  ghost function Under(nodes: Nodes, rank: map<Id, nat>, x: Id, key: Ref): Option<Id>
    requires Grounded(nodes, rank) && x in nodes
    decreases rank[x]
  {
    if nodes[x].after == key then Some(x)
    else match nodes[x].after
      case At(p) => Under(nodes, rank, p, key)
      case _ => None
  }

  lemma {:induction false} UnderRank(nodes: Nodes, rank: map<Id, nat>, x: Id, c: Id)
    requires Grounded(nodes, rank) && x in nodes && c in rank && Under(nodes, rank, x, At(c)).Some?
    ensures c in nodes && rank[x] > rank[c]
    decreases rank[x]
  {
    if nodes[x].after != At(c) { UnderRank(nodes, rank, nodes[x].after.id, c); }
  }

  /** What lies below a child lies below the parent, under that child. */
  lemma {:induction false} UnderStep(nodes: Nodes, rank: map<Id, nat>, x: Id, c: Id, key: Ref)
    requires Grounded(nodes, rank) && x in nodes && c in nodes && nodes[c].after == key
    requires Under(nodes, rank, x, At(c)).Some?
    ensures Under(nodes, rank, x, key) == Some(c)
    decreases rank[x]
  {
    UnderRank(nodes, rank, x, c);
    if nodes[x].after != At(c) {
      var p := nodes[x].after.id;
      UnderStep(nodes, rank, p, c, key);
      UnderRank(nodes, rank, p, c);
    }
  }

  /** And the other way around. */
  lemma {:induction false} UnderChild(nodes: Nodes, rank: map<Id, nat>, x: Id, key: Ref)
    requires Grounded(nodes, rank) && x in nodes && Under(nodes, rank, x, key).Some?
    ensures var c := Under(nodes, rank, x, key).value;
      c in nodes && nodes[c].after == key && (x == c || Under(nodes, rank, x, At(c)).Some?)
    decreases rank[x]
  {
    if nodes[x].after != key { UnderChild(nodes, rank, nodes[x].after.id, key); }
  }

  ghost predicate KidList(nodes: Nodes, list: seq<Id>, key: Ref) {
    && (forall i, j :: 0 <= i < j < |list| ==> list[i] != list[j])
    && (forall i :: 0 <= i < |list| ==> list[i] in nodes && nodes[list[i]].after == key)
  }

  lemma SortedKids(nodes: Nodes, avail: set<Id>, key: Ref)
    ensures KidList(nodes, Sorted(Kids(nodes, avail, key)), key)
    ensures forall k :: k in Sorted(Kids(nodes, avail, key)) <==> k in avail && k in nodes && nodes[k].after == key
  {
    var l := Sorted(Kids(nodes, avail, key));
    assert forall k :: k in l <==> k in Elements(l);
    forall i, j | 0 <= i < j < |l| ensures l[i] != l[j] { assert Newer(l[i], l[j]); }
    forall i | 0 <= i < |l| ensures l[i] in nodes && nodes[l[i]].after == key { assert l[i] in l; }
  }

  lemma {:induction false} WalkUnder(nodes: Nodes, rank: map<Id, nat>, avail: set<Id>, key: Ref, x: Id)
    requires Grounded(nodes, rank) && x in Walk(nodes, avail, key)
    ensures x in avail && x in nodes && Under(nodes, rank, x, key).Some?
    decreases |avail|, 1, 0
  {
    hide WalkAll, Sorted;
    SortedKids(nodes, avail, key);
    WalkAllUnder(nodes, rank, avail, Sorted(Kids(nodes, avail, key)), key, x);
  }

  lemma {:induction false} WalkAllUnder(nodes: Nodes, rank: map<Id, nat>, avail: set<Id>, list: seq<Id>, key: Ref,
      x: Id)
    requires Grounded(nodes, rank) && KidList(nodes, list, key) && x in WalkAll(nodes, avail, list)
    ensures x in avail && x in nodes && Under(nodes, rank, x, key).Some? && Under(nodes, rank, x, key).value in list
    decreases |avail|, 0, |list|
  {
    hide WalkOne, Under;
    if x in WalkOne(nodes, avail, list[0]) {
      WalkOneUnder(nodes, rank, avail, list[0], key, x);
    } else {
      WalkAllUnder(nodes, rank, avail, list[1..], key, x);
    }
  }

  lemma {:induction false} WalkOneUnder(nodes: Nodes, rank: map<Id, nat>, avail: set<Id>, c: Id, key: Ref, x: Id)
    requires Grounded(nodes, rank) && c in nodes && nodes[c].after == key && x in WalkOne(nodes, avail, c)
    ensures x in avail && x in nodes && Under(nodes, rank, x, key) == Some(c)
    decreases |avail|, 0, 0
  {
    hide Walk;
    if x != c {
      WalkUnder(nodes, rank, avail - {c}, At(c), x);
      UnderStep(nodes, rank, x, c, key);
    }
  }

  ghost predicate Once(l: seq<Id>) {
    forall i, j :: 0 <= i < j < |l| ==> l[i] != l[j]
  }

  lemma OnceConcat(a: seq<Id>, b: seq<Id>)
    requires Once(a) && Once(b) && forall x :: x in a ==> x !in b
    ensures Once(a + b)
  {
    var l := a + b;
    forall i, j | 0 <= i < j < |l| ensures l[i] != l[j] {
      if i < |a| && |a| <= j { assert a[i] in a && b[j - |a|] in b; }
    }
  }

  /** No node is visited twice. */
  lemma {:induction false} WalkOnce(nodes: Nodes, rank: map<Id, nat>, avail: set<Id>, key: Ref)
    requires Grounded(nodes, rank)
    ensures Once(Walk(nodes, avail, key))
    decreases |avail|, 1, 0
  {
    hide WalkAll, Sorted, Once;
    SortedKids(nodes, avail, key);
    WalkAllOnce(nodes, rank, avail, Sorted(Kids(nodes, avail, key)), key);
  }

  lemma {:induction false} WalkAllOnce(nodes: Nodes, rank: map<Id, nat>, avail: set<Id>, list: seq<Id>, key: Ref)
    requires Grounded(nodes, rank) && KidList(nodes, list, key)
    ensures Once(WalkAll(nodes, avail, list))
    decreases |avail|, 0, |list|
  {
    if list != [] {
      hide WalkOne, Under, Once;
      var a, b := WalkOne(nodes, avail, list[0]), WalkAll(nodes, avail, list[1..]);
      WalkOneOnce(nodes, rank, avail, list[0], key);
      WalkAllOnce(nodes, rank, avail, list[1..], key);
      forall x | x in a ensures x !in b {
        WalkOneUnder(nodes, rank, avail, list[0], key, x);
        if x in b { WalkAllUnder(nodes, rank, avail, list[1..], key, x); }
      }
      OnceConcat(a, b);
    } else {
      hide WalkOne;
      assert WalkAll(nodes, avail, list) == [];
    }
  }

  lemma {:induction false} WalkOneOnce(nodes: Nodes, rank: map<Id, nat>, avail: set<Id>, c: Id, key: Ref)
    requires Grounded(nodes, rank) && c in nodes && nodes[c].after == key
    ensures Once(WalkOne(nodes, avail, c))
    decreases |avail|, 0, 0
  {
    hide Walk;
    if c in avail {
      var w := Walk(nodes, avail - {c}, At(c));
      WalkOnce(nodes, rank, avail - {c}, At(c));
      forall x | x in w ensures x != c { WalkUnder(nodes, rank, avail - {c}, At(c), x); }
      OnceConcat([c], w);
    }
  }

  /** `avail` holds everything below `key`. */
  ghost predicate Closed(nodes: Nodes, avail: set<Id>, key: Ref) {
    && (key.At? ==> key.id !in avail)
    && forall k :: k in nodes && (nodes[k].after == key || (nodes[k].after.At? && nodes[k].after.id in avail)) ==>
      k in avail
  }

  lemma ClosedBelow(nodes: Nodes, rank: map<Id, nat>, avail: set<Id>, key: Ref, c: Id)
    requires Grounded(nodes, rank) && Closed(nodes, avail, key) && c in nodes && nodes[c].after == key
    ensures c in avail && Closed(nodes, avail - {c}, At(c))
  {}

  /** Every node below `key` is visited. */
  lemma {:induction false} WalkReaches(nodes: Nodes, rank: map<Id, nat>, avail: set<Id>, key: Ref, x: Id)
    requires Grounded(nodes, rank) && Closed(nodes, avail, key) && x in nodes && Under(nodes, rank, x, key).Some?
    ensures x in Walk(nodes, avail, key)
    decreases |avail|
  {
    hide Under, Sorted;
    UnderChild(nodes, rank, x, key);
    var c := Under(nodes, rank, x, key).value;
    ClosedBelow(nodes, rank, avail, key, c);
    SortedKids(nodes, avail, key);
    if x != c { WalkReaches(nodes, rank, avail - {c}, At(c), x); }
    hide Walk, WalkAll;
    assert x in WalkOne(nodes, avail, c);
    WalkAllHas(nodes, avail, Sorted(Kids(nodes, avail, key)), c, x);
    WalkIs(nodes, avail, key);
  }

  lemma WalkIs(nodes: Nodes, avail: set<Id>, key: Ref)
    ensures Walk(nodes, avail, key) == WalkAll(nodes, avail, Sorted(Kids(nodes, avail, key)))
  {}

  lemma {:induction false} WalkAllHas(nodes: Nodes, avail: set<Id>, list: seq<Id>, c: Id, x: Id)
    requires c in list && x in WalkOne(nodes, avail, c)
    ensures x in WalkAll(nodes, avail, list)
    decreases |list|
  {
    hide WalkOne;
    if list[0] != c { WalkAllHas(nodes, avail, list[1..], c, x); }
  }

  lemma {:induction false} UnderRoot(nodes: Nodes, rank: map<Id, nat>, x: Id)
    requires Grounded(nodes, rank) && x in nodes
    ensures Under(nodes, rank, x, Root).Some?
    decreases rank[x]
  {
    if nodes[x].after.At? { UnderRoot(nodes, rank, nodes[x].after.id); }
  }

  /** The document holds every present node exactly once. */
  lemma OrderedIsAll(nodes: Nodes, rank: map<Id, nat>)
    requires Grounded(nodes, rank)
    ensures Once(Ordered(nodes)) && Elements(Ordered(nodes)) == nodes.Keys
  {
    hide Walk, Under, Once;
    WalkOnce(nodes, rank, nodes.Keys, Root);
    forall x | x in nodes ensures x in Ordered(nodes) {
      UnderRoot(nodes, rank, x);
      WalkReaches(nodes, rank, nodes.Keys, Root, x);
    }
    forall x | x in Ordered(nodes) ensures x in nodes {
      WalkUnder(nodes, rank, nodes.Keys, Root, x);
    }
  }
}
