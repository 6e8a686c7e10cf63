/** Node ids of `JS-CRDT/src/rga.js` and the order of siblings: `cmpNodes`. */
module RgaOrder {
  /** A Lamport clock and a replica id, both totally ordered; together they name a node. */
  datatype Id = Id(c: int, r: int)

  /** Newer first: the higher clock, or at equal clocks the higher replica. */
  predicate Newer(a: Id, b: Id) {
    a.c > b.c || (a.c == b.c && a.r > b.r)
  }

  ghost predicate Descending(l: seq<Id>) {
    forall i, j :: 0 <= i < j < |l| ==> Newer(l[i], l[j])
  }

  ghost function Elements(l: seq<Id>): set<Id> {
    set k | k in l
  }

  /** Where `id` goes in a descending list. */
  function Place(l: seq<Id>, id: Id): (i: nat)
    ensures i <= |l|
  {
    if l == [] || Newer(id, l[0]) then 0 else 1 + Place(l[1..], id)
  }

  lemma {:induction false} PlaceParts(l: seq<Id>, id: Id, j: nat)
    requires Descending(l) && id !in l && j < |l|
    ensures if j < Place(l, id) then Newer(l[j], id) else Newer(id, l[j])
  {
    if !Newer(id, l[0]) && j > 0 {
      PlaceParts(l[1..], id, j - 1);
    }
  }

  function Inserted(l: seq<Id>, id: Id): seq<Id> {
    l[..Place(l, id)] + [id] + l[Place(l, id)..]
  }

  lemma InsertedDescends(l: seq<Id>, id: Id)
    requires Descending(l) && id !in l
    ensures Descending(Inserted(l, id)) && Elements(Inserted(l, id)) == Elements(l) + {id}
  {
    var p := Place(l, id);
    forall j | 0 <= j < |l| ensures if j < p then Newer(l[j], id) else Newer(id, l[j]) { PlaceParts(l, id, j); }
    hide Place;
    SplitDescends(l, p, id);
    SplitElements(l, p, id);
  }

  lemma SplitDescends(l: seq<Id>, p: nat, id: Id)
    requires Descending(l) && p <= |l|
    requires forall j :: 0 <= j < |l| ==> if j < p then Newer(l[j], id) else Newer(id, l[j])
    ensures Descending(l[..p] + [id] + l[p..])
  {
    var l' := l[..p] + [id] + l[p..];
    forall i, j | 0 <= i < j < |l'| ensures Newer(l'[i], l'[j]) {
      assert l'[i] == if i < p then l[i] else if i == p then id else l[i - 1];
      assert l'[j] == if j < p then l[j] else if j == p then id else l[j - 1];
    }
  }

  lemma SplitElements(l: seq<Id>, i: nat, id: Id)
    requires i <= |l|
    ensures Elements(l[..i] + [id] + l[i..]) == Elements(l) + {id}
  {
    assert l == l[..i] + l[i..];
  }

  /** The siblings in their one order. */
  ghost function Sorted(s: set<Id>): (l: seq<Id>)
    ensures Descending(l) && Elements(l) == s
  {
    SortedExists(s);
    var l :| Descending(l) && Elements(l) == s;
    l
  }

  lemma {:induction false} SortedExists(s: set<Id>)
    ensures exists l :: Descending(l) && Elements(l) == s
    decreases |s|
  {
    if s == {} {
      assert Descending([]) && Elements([]) == s;
    } else {
      var k :| k in s;
      SortedExists(s - {k});
      var l :| Descending(l) && Elements(l) == s - {k};
      assert k !in l by { assert k !in Elements(l); }
      InsertedDescends(l, k);
    }
  }

  lemma TailElements(a: seq<Id>)
    requires Descending(a) && a != []
    ensures Descending(a[1..]) && Elements(a[1..]) == Elements(a) - {a[0]}
  {
    assert a == [a[0]] + a[1..];
    assert forall k :: k in a[1..] ==> Newer(a[0], k);
  }

  lemma SameHead(a: seq<Id>, b: seq<Id>)
    requires Descending(a) && Descending(b) && Elements(a) == Elements(b) && a != [] && b != []
    ensures a[0] == b[0]
  {
    assert a[0] in Elements(b) && b[0] in Elements(a);
  }

  lemma SomeElement(l: seq<Id>)
    requires l != []
    ensures Elements(l) != {}
  {
    assert l[0] in Elements(l);
  }

  /** There is only one: any descending list of the same ids is it. */
  lemma {:induction false} SortedIsUnique(a: seq<Id>, b: seq<Id>)
    requires Descending(a) && Descending(b) && Elements(a) == Elements(b)
    ensures a == b
  {
    if a == [] {
      if b != [] { SomeElement(b); }
    } else {
      assert a[0] in Elements(b);
      SameHead(a, b);
      TailElements(a);
      TailElements(b);
      SortedIsUnique(a[1..], b[1..]);
    }
  }

  /** A new id takes one place among its siblings: the first, if it is newer than all of them. */
  lemma SortedInserts(s: set<Id>, id: Id)
    requires id !in s
    ensures Sorted(s + {id}) == Inserted(Sorted(s), id)
    ensures (forall k :: k in s ==> Newer(id, k)) ==> Place(Sorted(s), id) == 0
  {
    var l := Sorted(s);
    hide Sorted;
    assert id !in l by { assert id !in Elements(l); }
    InsertedDescends(l, id);
    SortedIsUnique(Inserted(l, id), Sorted(s + {id}));
    if l != [] { assert l[0] in Elements(l); }
  }

  /** The sort of the library, as insertion sort: any list of distinct ids comes out in the one order. */
  method SortIds(ids: seq<Id>) returns (l: seq<Id>)
    requires forall i, j :: 0 <= i < j < |ids| ==> ids[i] != ids[j]
    ensures l == Sorted(Elements(ids))
  {
    hide Sorted, Descending;
    l := [];
    assert Elements(ids[..0]) == {} == Elements([]);
    SortedOfNone();
    for n := 0 to |ids|
      invariant l == Sorted(Elements(ids[..n]))
    {
      assert ids[..n + 1] == ids[..n] + [ids[n]];
      assert Elements(ids[..n + 1]) == Elements(ids[..n]) + {ids[n]};
      SortedInserts(Elements(ids[..n]), ids[n]);
      l := InsertId(l, ids[n]);
    }
    assert ids[..|ids|] == ids;
  }

  lemma SortedOfNone()
    ensures Sorted({}) == []
  {
    SortedIsUnique(Sorted({}), []);
  }

  method InsertId(l: seq<Id>, id: Id) returns (l': seq<Id>)
    ensures l' == Inserted(l, id)
  {
    var i := 0;
    while i < |l| && !Newer(id, l[i])
      invariant i <= |l| && Place(l, id) == i + Place(l[i..], id)
    {
      assert l[i..][1..] == l[i + 1..];
      i := i + 1;
    }
    l' := l[..i] + [id] + l[i..];
  }
}
