/** What a replica shows, `toArray` of `JS-CRDT/src/rga.js`, and how one local edit changes it. */
module RgaText {
  import opened RgaOrder
  import opened RgaTree
  import opened RgaInsert
  import opened RgaDelivery

  function KeyOf(nodes: Nodes, k: Id): (r: seq<Id>)
    ensures |r| <= 1
  {
    if k in nodes && !nodes[k].deleted then [k] else []
  }

  function ValueOf(nodes: Nodes, k: Id): (r: seq<Value>)
    ensures |r| == |KeyOf(nodes, k)|
  {
    if k in nodes && !nodes[k].deleted then [nodes[k].value] else []
  }

  /** The ids that are not tombstones, in order. */
  function Visible(nodes: Nodes, l: seq<Id>): (r: seq<Id>)
    ensures |r| <= |l|
  {
    if l == [] then [] else KeyOf(nodes, l[0]) + Visible(nodes, l[1..])
  }

  /** Their values. */
  function Shown(nodes: Nodes, l: seq<Id>): (r: seq<Value>)
    ensures |r| == |Visible(nodes, l)|
  {
    if l == [] then [] else ValueOf(nodes, l[0]) + Shown(nodes, l[1..])
  }

  ghost function Keys(nodes: Nodes): seq<Id> {
    Visible(nodes, Ordered(nodes))
  }

  /** The document's text. */
  ghost function Text(nodes: Nodes): (t: seq<Value>)
    ensures |t| == |Keys(nodes)|
  {
    Shown(nodes, Ordered(nodes))
  }

  lemma ThreeParts<T>(a: seq<T>, b: seq<T>, c: seq<T>)
    ensures a + b + c == a + (b + c)
  {}

  lemma {:induction false} ShownConcat(nodes: Nodes, a: seq<Id>, b: seq<Id>)
    ensures Shown(nodes, a + b) == Shown(nodes, a) + Shown(nodes, b)
    ensures Visible(nodes, a + b) == Visible(nodes, a) + Visible(nodes, b)
  {
    hide KeyOf, ValueOf;
    if a == [] {
      assert a + b == b;
    } else {
      assert (a + b)[0] == a[0] && (a + b)[1..] == a[1..] + b;
      ShownConcat(nodes, a[1..], b);
      ThreeParts(KeyOf(nodes, a[0]), Visible(nodes, a[1..]), Visible(nodes, b));
      ThreeParts(ValueOf(nodes, a[0]), Shown(nodes, a[1..]), Shown(nodes, b));
    }
  }

  lemma {:induction false} ShownAgrees(n1: Nodes, n2: Nodes, l: seq<Id>)
    requires forall k :: k in l ==> (k in n1 <==> k in n2) && (k in n1 ==> n1[k] == n2[k])
    ensures Shown(n1, l) == Shown(n2, l) && Visible(n1, l) == Visible(n2, l)
  {
    if l != [] { ShownAgrees(n1, n2, l[1..]); }
  }

  lemma {:induction false} VisibleMembers(nodes: Nodes, l: seq<Id>, k: Id)
    ensures k in Visible(nodes, l) <==> k in l && k in nodes && !nodes[k].deleted
  {
    if l != [] { VisibleMembers(nodes, l[1..], k); }
  }

  lemma {:induction false} VisibleOnce(nodes: Nodes, l: seq<Id>)
    requires Once(l)
    ensures Once(Visible(nodes, l))
  {
    if l != [] {
      VisibleOnce(nodes, l[1..]);
      VisibleMembers(nodes, l[1..], l[0]);
      assert l[0] !in l[1..];
    }
  }

  lemma ShownOne(nodes: Nodes, k: Id)
    ensures Visible(nodes, [k]) == KeyOf(nodes, k) && Shown(nodes, [k]) == ValueOf(nodes, k)
  {
    assert [k][1..] == [];
  }

  /** A visible id's place among the visible ids is the number of visible ids before it. */
  lemma PlaceOfKey(nodes: Nodes, l: seq<Id>, a: seq<Id>, k: Id, b: seq<Id>, index: nat)
    requires l == a + [k] + b && Once(l) && index < |Visible(nodes, l)| && Visible(nodes, l)[index] == k
    ensures index == |Visible(nodes, a)| && k in nodes && !nodes[k].deleted
  {
    hide Visible;
    VisibleMembers(nodes, l, k);
    VisibleOnce(nodes, l);
    ShownConcat(nodes, a + [k], b);
    ShownConcat(nodes, a, [k]);
    ShownOne(nodes, k);
    assert Visible(nodes, l)[|Visible(nodes, a)|] == k;
  }

  lemma SplitAt(l: seq<Id>, k: Id) returns (a: seq<Id>, b: seq<Id>)
    requires k in l
    ensures l == a + [k] + b
  {
    var i :| 0 <= i < |l| && l[i] == k;
    a, b := l[..i], l[i + 1..];
  }

  /** The predecessor a local insertion names: none before the start, nothing past the end. */
  ghost predicate PredecessorAt(nodes: Nodes, index: int, after: Ref) {
    if index <= 0 then after == Root
    else if index <= |Keys(nodes)| then after == At(Keys(nodes)[index - 1])
    else after == Nowhere
  }

  /** A newest node put right behind the visible character before `index` shows up at `index`. */
  lemma InsertShows(nodes: Nodes, rank: map<Id, nat>, op: Op, index: int)
    requires op.Ins? && op.id !in nodes && Grounded(nodes, rank) && Grounded(Inserting(nodes, op), rank)
    requires PredecessorAt(nodes, index, op.after) && index <= |Keys(nodes)|
    requires forall k :: k in nodes ==> Newer(op.id, k)
    ensures var i := if index <= 0 then 0 else index;
      && Text(Inserting(nodes, op)) == Text(nodes)[..i] + [op.value] + Text(nodes)[i..]
      && Keys(Inserting(nodes, op)) == Keys(nodes)[..i] + [op.id] + Keys(nodes)[i..]
  {
    hide Ordered, Shown, Visible, Grounded;
    var nodes', l := Inserting(nodes, op), Ordered(nodes);
    GainsHere(nodes, rank, op);
    var p := OrderedGains(nodes, nodes', rank, op.id);
    assert Newest(nodes, op.id, op.after);
    OrderedIsAll(nodes, rank);
    assert op.id !in l by { assert op.id !in Elements(l); }
    assert l == l[..p] + l[p..];
    ShownSpliced(nodes, op, l[..p], l[p..]);
    ShownAround(nodes, l, p, index, op.after);
    hide Inserting;
    Halves(Shown(nodes, l[..p]), Shown(nodes, l[p..]));
    Halves(Visible(nodes, l[..p]), Visible(nodes, l[p..]));
  }

  lemma Halves<T>(a: seq<T>, b: seq<T>)
    ensures (a + b)[..|a|] == a && (a + b)[|a|..] == b
  {}

  /** What shows on either side of a new node, and the node between. */
  lemma ShownSpliced(nodes: Nodes, op: Op, a: seq<Id>, b: seq<Id>)
    requires op.Ins? && op.id !in nodes && op.id !in a && op.id !in b
    ensures var nodes' := Inserting(nodes, op);
      && Shown(nodes', a + [op.id] + b) == Shown(nodes, a) + [op.value] + Shown(nodes, b)
      && Visible(nodes', a + [op.id] + b) == Visible(nodes, a) + [op.id] + Visible(nodes, b)
    ensures Shown(nodes, a + b) == Shown(nodes, a) + Shown(nodes, b)
    ensures Visible(nodes, a + b) == Visible(nodes, a) + Visible(nodes, b)
  {
    hide Shown, Visible;
    var nodes' := Inserting(nodes, op);
    ShownConcat(nodes, a, b);
    ShownConcat(nodes', a + [op.id], b);
    ShownConcat(nodes', a, [op.id]);
    ShownOne(nodes', op.id);
    ShownAgrees(nodes, nodes', a);
    ShownAgrees(nodes, nodes', b);
  }

  /** As much shows before the place of a new node as its index says. */
  lemma ShownAround(nodes: Nodes, l: seq<Id>, p: nat, index: int, after: Ref)
    requires l == Ordered(nodes) && Once(l) && p <= |l| && RightBehind(l, p, after, Root)
    requires PredecessorAt(nodes, index, after) && index <= |Keys(nodes)|
    ensures |Visible(nodes, l[..p])| == if index <= 0 then 0 else index
  {
    hide Ordered, Visible;
    if index <= 0 {
      ShownNone(nodes);
    } else {
      var k := after.id;
      assert l[..p] == l[..p - 1] + [k];
      assert l == l[..p - 1] + [k] + l[p..];
      PlaceOfKey(nodes, l, l[..p - 1], k, l[p..], index - 1);
      ShownConcat(nodes, l[..p - 1], [k]);
      ShownOne(nodes, k);
    }
  }

  /** Where one insertion at an index has shown up, a second one at that index names the same
      predecessor. */
  lemma SamePredecessor(nodes: Nodes, nodes': Nodes, id: Id, after: Ref, index: int)
    requires PredecessorAt(nodes, index, after) && index <= |Keys(nodes)|
    requires var i := if index <= 0 then 0 else index; Keys(nodes') == Keys(nodes)[..i] + [id] + Keys(nodes)[i..]
    ensures PredecessorAt(nodes', index, after) && index <= |Keys(nodes')|
  {}

  /** Two characters typed at one place by replicas that had not heard of each other: the one with the
      higher clock, or at equal clocks with the higher replica, comes first, whichever is applied first. */
  lemma TypedTogether(nodes: Nodes, rank: map<Id, nat>, first: Op, last: Op, index: int)
    requires first.Ins? && last.Ins? && Grounded(nodes, rank) && index <= |Text(nodes)|
    requires PredecessorAt(nodes, index, first.after) && PredecessorAt(nodes, index, last.after)
    requires forall k :: k in nodes ==> k.c < first.id.c && k.c < last.id.c
    requires first.id.c > last.id.c || (first.id.c == last.id.c && first.id.r > last.id.r)
    ensures var i := if index <= 0 then 0 else index;
      && Text(Inserting(Inserting(nodes, last), first)) ==
          Text(nodes)[..i] + [first.value, last.value] + Text(nodes)[i..]
      && Inserting(Inserting(nodes, first), last) == Inserting(Inserting(nodes, last), first)
  {
    var nodes', i := Inserting(nodes, last), if index <= 0 then 0 else index;
    AddedTwice(nodes, first, last);
    var rank' := OneTyped(nodes, rank, last, index);
    SamePredecessor(nodes, nodes', last.id, first.after, index);
    var _ := OneTyped(nodes', rank', first, index);
    hide *;
    BothIn(Text(nodes)[..i], last.value, first.value, Text(nodes)[i..]);
  }

  /** One character typed, newer than all: the text, and the ground for the next. */
  lemma OneTyped(nodes: Nodes, rank: map<Id, nat>, op: Op, index: int) returns (rank': map<Id, nat>)
    requires op.Ins? && op.id !in nodes && Grounded(nodes, rank)
    requires PredecessorAt(nodes, index, op.after) && index <= |Text(nodes)|
    requires forall k :: k in nodes ==> Newer(op.id, k)
    ensures Grounded(Inserting(nodes, op), rank')
    ensures var i := if index <= 0 then 0 else index;
      && Text(Inserting(nodes, op)) == Text(nodes)[..i] + [op.value] + Text(nodes)[i..]
      && Keys(Inserting(nodes, op)) == Keys(nodes)[..i] + [op.id] + Keys(nodes)[i..]
  {
    hide Ordered, Shown, Visible, Grounded, Text, Keys, Inserting, NewRank;
    SameLengths(nodes);
    PredecessorPresent(nodes, index, op.after);
    InsertGrounded(nodes, rank, op);
    rank' := NewRank(nodes, rank, op);
    InsertShows(nodes, rank', op, index);
  }

  lemma AddedTwice(nodes: Nodes, first: Op, last: Op)
    requires first.Ins? && last.Ins? && first.id != last.id
    ensures Inserting(Inserting(nodes, first), last) == Inserting(Inserting(nodes, last), first)
  {}

  lemma BothIn(a: seq<Value>, x: Value, y: Value, b: seq<Value>)
    ensures (a + [x] + b)[..|a|] + [y] + (a + [x] + b)[|a|..] == a + [y, x] + b
  {}

  lemma SameLengths(nodes: Nodes)
    ensures |Text(nodes)| == |Keys(nodes)|
  {}

  lemma PredecessorPresent(nodes: Nodes, index: int, after: Ref)
    requires PredecessorAt(nodes, index, after) && index <= |Keys(nodes)|
    ensures Present(nodes, after)
  {
    hide Ordered, Visible;
    if index > 0 { VisibleMembers(nodes, Ordered(nodes), Keys(nodes)[index - 1]); }
  }

  lemma ShownNone(nodes: Nodes)
    ensures Shown(nodes, []) == [] && Visible(nodes, []) == []
  {}

  lemma GainsHere(nodes: Nodes, rank: map<Id, nat>, op: Op)
    requires op.Ins? && op.id !in nodes && Grounded(nodes, rank) && Grounded(Inserting(nodes, op), rank)
    ensures Gains(nodes, Inserting(nodes, op), rank, op.id)
  {}

  /** Turning the visible character at `index` into a tombstone takes it out of the text. */
  lemma DeleteShows(nodes: Nodes, rank: map<Id, nat>, k: Id, index: nat)
    requires Grounded(nodes, rank) && index < |Keys(nodes)| && Keys(nodes)[index] == k && k in nodes
    ensures Text(Deleting(nodes, k)) == Text(nodes)[..index] + Text(nodes)[index + 1..]
  {
    var nodes' := Deleting(nodes, k);
    WalkSameShape(nodes, nodes', nodes.Keys, Root);
    assert Ordered(nodes') == Ordered(nodes);
    hide Ordered, Shown, Visible, Grounded;
    var l := Ordered(nodes);
    OrderedIsAll(nodes, rank);
    assert k in l by { assert k in Elements(l); }
    var a, b := SplitAt(l, k);
    PlaceOfKey(nodes, l, a, k, b, index);
    OnceApart(a, k, b);
    ShownApart(nodes, nodes', a, k, b);
    hide Deleting, KeyOf;
    CutOut(Shown(nodes, a), nodes[k].value, Shown(nodes, b));
  }

  lemma CutOut(a: seq<Value>, v: Value, b: seq<Value>)
    ensures (a + [v] + b)[..|a|] + (a + [v] + b)[|a| + 1..] == a + b
  {}

  lemma ShownApart(n1: Nodes, n2: Nodes, a: seq<Id>, k: Id, b: seq<Id>)
    requires k !in a && k !in b && k in n1 && !n1[k].deleted && n2 == Deleting(n1, k)
    ensures Shown(n1, a + [k] + b) == Shown(n1, a) + [n1[k].value] + Shown(n1, b)
    ensures Shown(n2, a + [k] + b) == Shown(n1, a) + Shown(n1, b)
  {
    hide Shown, Visible;
    ShownConcat(n1, a + [k], b);
    ShownConcat(n1, a, [k]);
    ShownConcat(n2, a + [k], b);
    ShownConcat(n2, a, [k]);
    ShownOne(n1, k);
    ShownOne(n2, k);
    ShownAgrees(n1, n2, a);
    ShownAgrees(n1, n2, b);
  }

  lemma OnceApart(a: seq<Id>, k: Id, b: seq<Id>)
    requires Once(a + [k] + b)
    ensures k !in a && k !in b
  {
    var l := a + [k] + b;
    assert l[|a|] == k;
    forall i | 0 <= i < |a| ensures a[i] != k { assert l[i] == a[i]; }
    forall i | 0 <= i < |b| ensures b[i] != k { assert l[|a| + 1 + i] == b[i]; }
  }
}
