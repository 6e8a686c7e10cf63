/** One replica of the replicated array of `JS-CRDT/src/rga.js`. */
module RgaReplica {
  import opened Options
  import opened RgaOrder
  import opened RgaTree
  import opened RgaInsert
  import opened RgaDelivery
  import opened RgaText

  class Replica {
    const replicaId: int
    var clock: int
    var nodes: Nodes
    var pending: Pending
    ghost var seen: set<Op>             // every operation delivered or made here
    ghost var rank: map<Id, nat>

    /** Nothing is in hand, and the clock is at least that of every id seen. */
    ghost predicate Settled()
      reads this
    {
      Sound(nodes, pending, seen, rank, {}, Root) && Dominated(seen, clock)
    }

    /** And no further ahead than the latest of them. */
    ghost predicate Valid()
      reads this
    {
      Settled() && clock >= 0 && Reached(seen, clock)
    }

    constructor (replicaId: int)
      ensures Valid() && this.replicaId == replicaId && seen == {} && clock == 0
    {
      this.replicaId := replicaId;
      clock, nodes, pending := 0, map[], map[];
      seen, rank := {}, map[];
    }

    // -------------------------------------------------------------- delivery

    /** A local or remote operation arrives, for the first time or again. */
    method Receive(op: Op)
      requires Settled() && UniqueIds(seen + {op})
      modifies this
      ensures Settled() && seen == old(seen) + {op} && clock == CaughtUp(op, old(clock))
      ensures old(Valid()) ==> Valid()
      ensures Effect(old(nodes), nodes, old(pending), op)
      ensures Present(old(nodes), Dep(op)) ==> pending.Keys <= old(pending).Keys
    {
      hide Sound;
      NodesUnderClock(nodes, pending, seen, rank, {}, clock);
      ReceiveSound(nodes, pending, seen, rank, op);
      assert {} + {op} == {op};
      DominatedMore(seen, op, clock);
      if Valid() { ReachedMore(seen, op, clock); }
      seen := seen + {op};
      Apply(op, {});
    }

    /** `apply`: nothing happens the second time, and an operation that comes too early waits. */
    method Apply(op: Op, ghost owed: set<Op>)
      requires Sound(nodes, pending, seen, rank, owed + {op}, Root) && op in seen && owed <= seen
      requires Dominated(seen - {op}, clock) && forall k :: k in nodes ==> k.c <= clock
      modifies this`clock, this`nodes, this`pending, this`rank
      ensures Sound(nodes, pending, seen, rank, owed, Root)
      ensures Dominated(seen, clock) && clock == CaughtUp(op, old(clock))
      ensures Grew(old(nodes), nodes) && Effect(old(nodes), nodes, old(pending), op)
      ensures Present(old(nodes), Dep(op)) ==> pending.Keys <= old(pending).Keys
      decreases |pending|, 1
    {
      hide Sound, Grew, Dominated;
      GrewSelf(nodes);
      match op
      case Ins(id, after, value) =>
        if id in nodes {
          SeenBefore(nodes, pending, seen, rank, owed, op);
          NotAhead(seen, op, clock, clock);
          return;
        }
        if id.c > clock { clock := id.c; }
        NotAhead(seen, op, old(clock), clock);
        if after != Root && !(after.At? && after.id in nodes) {
          DeferSound(nodes, pending, seen, rank, owed, op);
          Defer(op);
          return;
        }
        InsertSound(nodes, pending, seen, rank, owed, op);
        rank := NewRank(nodes, rank, op);
        nodes := nodes[id := Elem(after, value, false)];
        ghost var n := nodes;
        GrewInserting(old(nodes), op);
        Flush(At(id), owed);
        GrewTwice(old(nodes), n, nodes);
      case Del(target) =>
        NotAhead(seen, op, clock, clock);
        if target !in nodes {
          DeferSound(nodes, pending, seen, rank, owed, op);
          Defer(op);
          return;
        }
        DeleteSound(nodes, pending, seen, rank, owed, op);
        nodes := nodes[target := nodes[target].(deleted := true)];
        GrewDeleting(old(nodes), target);
    }

    method Defer(op: Op)
      modifies this`pending
      ensures pending == Deferred(old(pending), op)
    {
      if Dep(op) !in pending { pending := pending[Dep(op) := []]; }
      pending := pending[Dep(op) := pending[Dep(op)] + [op]];
    }

    /** `_flush`: everything that waited for this node is applied, and in turn what waited for that. */
    method Flush(ref: Ref, ghost owed: set<Op>)
      requires Sound(nodes, pending, seen, rank, owed, ref) && ref.At? && ref.id in nodes
      requires Dominated(seen, clock)
      modifies this`clock, this`nodes, this`pending, this`rank
      ensures Sound(nodes, pending, seen, rank, owed, Root) && Dominated(seen, clock) && clock == old(clock)
      ensures Grew(old(nodes), nodes) && pending.Keys <= old(pending).Keys
      ensures ref !in old(pending) ==> nodes == old(nodes)
      decreases |pending|, 0
    {
      hide Sound, Grew, Dominated;
      GrewSelf(nodes);
      if ref !in pending {
        NothingOpen(nodes, pending, seen, rank, owed, ref);
        return;
      }
      var waiting := pending[ref];
      TakeSound(nodes, pending, seen, rank, owed, ref);
      WaitingFacts(nodes, pending, seen, rank, owed, ref);
      FewerKeys(pending, ref);
      pending := pending - {ref};
      var i := 0;
      assert waiting[0..] == waiting;
      while i < |waiting|
        invariant i <= |waiting| && Sound(nodes, pending, seen, rank, owed + Ops(waiting[i..]), Root)
        invariant Dominated(seen, clock) && clock == old(clock) && Grew(old(nodes), nodes)
        invariant pending.Keys <= old(pending).Keys - {ref}
      {
        ghost var before := nodes;
        OpsNext(waiting, i, owed);
        NodesUnderClock(nodes, pending, seen, rank, owed + Ops(waiting[i..]), clock);
        OwedSeen(nodes, pending, seen, rank, owed + Ops(waiting[i..]));
        StillPresent(old(nodes), nodes, ref);
        NoMoreKeys(pending, old(pending), ref);
        DominatedLess(seen, waiting[i], clock);
        InstepAlready(seen, waiting[i], clock);
        Apply(waiting[i], owed + Ops(waiting[i + 1..]));
        GrewTwice(old(nodes), before, nodes);
        i := i + 1;
      }
      assert Ops(waiting[i..]) == {};
      assert owed + {} == owed;
    }

    // -------------------------------------------------------------- reading

    /** `_ordered`: groups children, sorts each group, and walks from the start. */
    method DocumentOrder() returns (out: seq<Id>)
      requires exists rank :: Grounded(nodes, rank)
      ensures out == Ordered(nodes)
    {
      hide Walk, Sorted;
      var children := GroupChildren();
      children := SortGroups(children);
      out := WalkFrom(children, Root, nodes.Keys, []);
    }

    method GroupChildren() returns (children: map<Ref, seq<Id>>)
      ensures forall ref :: Grouped(nodes, nodes.Keys, children, ref)
    {
      children := map[];
      var rest := nodes.Keys;
      while rest != {}
        invariant rest <= nodes.Keys
        invariant forall ref :: Grouped(nodes, nodes.Keys - rest, children, ref)
        decreases |rest|
      {
        var k :| k in rest;
        var after := nodes[k].after;
        ghost var before := children;
        if after !in children { children := children[after := []]; }
        children := children[after := children[after] + [k]];
        GroupMore(nodes, nodes.Keys - rest, before, k, nodes.Keys - (rest - {k}), children);
        rest := rest - {k};
      }
      assert nodes.Keys - rest == nodes.Keys;
    }

    method SortGroups(groups: map<Ref, seq<Id>>) returns (children: map<Ref, seq<Id>>)
      requires forall ref :: Grouped(nodes, nodes.Keys, groups, ref)
      ensures forall ref :: ListOf(children, ref) == Sorted(Kids(nodes, nodes.Keys, ref))
    {
      hide Sorted, Grouped;
      children := groups;
      var rest := groups.Keys;
      while rest != {}
        invariant rest <= groups.Keys && children.Keys == groups.Keys
        invariant forall ref :: ref in rest ==> children[ref] == groups[ref]
        invariant forall ref :: ref in groups.Keys - rest ==> children[ref] == Sorted(Kids(nodes, nodes.Keys, ref))
        decreases |rest|
      {
        var ref :| ref in rest;
        GroupedList(nodes, nodes.Keys, groups, ref);
        var l := SortIds(children[ref]);
        children := children[ref := l];
        rest := rest - {ref};
      }
      forall ref ensures ListOf(children, ref) == Sorted(Kids(nodes, nodes.Keys, ref)) {
        if ref !in groups { NoGroup(nodes, nodes.Keys, groups, ref); }
      }
    }

    /** `walk`: pushes each child and then what is below it. */
    method WalkFrom(children: map<Ref, seq<Id>>, key: Ref, ghost avail: set<Id>, out: seq<Id>) returns (out': seq<Id>)
      requires forall ref :: ListOf(children, ref) == Sorted(Kids(nodes, nodes.Keys, ref))
      requires avail <= nodes.Keys && Closed(nodes, avail, key) && exists rank :: Grounded(nodes, rank)
      ensures out' == out + Walk(nodes, avail, key)
      decreases |avail|
    {
      hide Sorted, Walk, WalkAll, Closed, Grounded, Kids, ListOf;
      ghost var rank :| Grounded(nodes, rank);
      var list := ListOf(children, key);
      KidsAreAvailable(nodes, avail, key);
      assert list == Sorted(Kids(nodes, avail, key));
      SortedKids(nodes, avail, key);
      WalkIs(nodes, avail, key);
      out' := out;
      var i := 0;
      assert list[..0] == [];
      WalkAllOfNone(nodes, avail);
      while i < |list|
        invariant i <= |list| && out' == out + WalkAll(nodes, avail, list[..i])
      {
        var c := list[i];
        ClosedBelow(nodes, rank, avail, key, c);
        out' := out' + [c];
        out' := WalkFrom(children, At(c), avail - {c}, out');
        assert list[..i + 1] == list[..i] + [c];
        WalkAllConcat(nodes, avail, list[..i], [c]);
        WalkAllOfOne(nodes, avail, c);
        i := i + 1;
      }
      assert list[..i] == list;
    }

    /** `_visibleKeys`. */
    method VisibleKeys() returns (keys: seq<Id>)
      requires Valid()
      ensures keys == Keys(nodes)
    {
      hide Ordered;
      var l := DocumentOrder();
      keys := [];
      var i := 0;
      assert l[..0] == [];
      while i < |l|
        invariant i <= |l| && keys == Visible(nodes, l[..i])
      {
        assert l[..i + 1] == l[..i] + [l[i]];
        ShownConcat(nodes, l[..i], [l[i]]);
        ShownOne(nodes, l[i]);
        keys := keys + KeyOf(nodes, l[i]);
        i := i + 1;
      }
      assert l[..i] == l;
    }

    /** `toArray`. */
    method ToArray() returns (values: seq<Value>)
      requires Valid()
      ensures values == Text(nodes)
    {
      hide Ordered;
      var l := DocumentOrder();
      values := [];
      var i := 0;
      assert l[..0] == [];
      while i < |l|
        invariant i <= |l| && values == Shown(nodes, l[..i])
      {
        assert l[..i + 1] == l[..i] + [l[i]];
        ShownConcat(nodes, l[..i], [l[i]]);
        ShownOne(nodes, l[i]);
        values := values + ValueOf(nodes, l[i]);
        i := i + 1;
      }
      assert l[..i] == l;
    }

    // -------------------------------------------------------------- local editing

    /** `insertAt`: the text gains the value at the index.  An index past the end makes an operation
        that can never be applied. */
    method InsertAt(index: int, value: Value) returns (op: Op)
      requires Valid()
      modifies this
      ensures Valid() && seen == old(seen) + {op} && op !in old(seen) && UniqueIds(seen)
      ensures op.Ins? && op.id == Id(old(clock) + 1, replicaId) && op.value == value && clock == op.id.c
      ensures op.after.At? ==> op.after.id in old(nodes)
      ensures PredecessorAt(old(nodes), index, op.after) && Effect(old(nodes), nodes, old(pending), op)
      ensures op.after == Nowhere <==> index > |old(Text(nodes))|
      ensures index > |old(Text(nodes))| ==> Text(nodes) == old(Text(nodes)) && !Present(nodes, Dep(op))
      ensures index <= |old(Text(nodes))| && (forall o :: o in old(seen) ==> Dep(o) != At(op.id)) ==>
        var i := if index <= 0 then 0 else index;
        Text(nodes) == old(Text(nodes))[..i] + [value] + old(Text(nodes))[i..]
    {
      hide Sound, Dominated, Ordered, Text, Keys, Grounded, Effect;
      var keys := VisibleKeys();
      KeysArePresent(nodes, pending, seen, rank, keys);
      NodesUnderClock(nodes, pending, seen, rank, {}, clock);
      SameLengths(nodes);
      var after := if index <= 0 then Root else if index - 1 < |keys| then At(keys[index - 1]) else Nowhere;
      clock := clock + 1;
      var id := Id(clock, replicaId);
      op := Ins(id, after, value);
      FreshId(nodes, pending, seen, rank, op, old(clock));
      DominatedSome(seen, old(clock), clock);
      ghost var before, r, waiting, known := nodes, rank, pending, seen;
      Receive(op);
      EffectOfInsert(before, nodes, waiting, op);
      if index <= |keys| && forall o :: o in known ==> Dep(o) != At(op.id) {
        InsertedShows(before, waiting, known, r, op, index, old(clock));
      }
    }

    /** `deleteAt`: the text loses the character at the index; out of range nothing happens. */
    method DeleteAt(index: int) returns (op: Option<Op>)
      requires Valid()
      modifies this
      ensures Valid() && seen == old(seen) + (if op.Some? then {op.value} else {}) && clock == old(clock)
      ensures op.Some? ==> op.value.Del? && op.value.target in old(nodes)
      ensures op.Some? <==> 0 <= index < |old(Text(nodes))|
      ensures Text(nodes) ==
        if op.None? then old(Text(nodes)) else old(Text(nodes))[..index] + old(Text(nodes))[index + 1..]
    {
      hide Sound, Dominated, Ordered, Text, Keys, Grounded, Effect;
      var keys := VisibleKeys();
      SameLengths(nodes);
      if index < 0 || index >= |keys| { return None; }
      KeysArePresent(nodes, pending, seen, rank, keys);
      SoundGrounded(nodes, pending, seen, rank);
      var d := Del(keys[index]);
      op := Some(d);
      ghost var before, r := nodes, rank;
      DeleteUnique(nodes, pending, seen, rank, d);
      Receive(d);
      EffectOfDelete(before, nodes, old(pending), d);
      DeleteShows(before, r, d.target, index);
    }
  }

  // ---------------------------------------------------------------- helpers

  /** The clock is at least that of every insertion. */
  ghost predicate Dominated(seen: set<Op>, clock: int) {
    forall op :: op in seen && op.Ins? ==> op.id.c <= clock
  }

  /** Some insertion brought the clock where it is. */
  ghost predicate Reached(seen: set<Op>, clock: int) {
    clock == 0 || exists op :: op in seen && op.Ins? && op.id.c == clock
  }

  /** Lamport's rule: an insertion moves the clock up to its own, never back. */
  function CaughtUp(op: Op, clock: int): int {
    if op.Ins? && op.id.c > clock then op.id.c else clock
  }

  lemma ReachedMore(seen: set<Op>, op: Op, clock: int)
    requires Reached(seen, clock)
    ensures Reached(seen + {op}, CaughtUp(op, clock))
  {
    if CaughtUp(op, clock) == clock != 0 {
      var o :| o in seen && o.Ins? && o.id.c == clock;
      assert o in seen + {op};
    } else if clock != CaughtUp(op, clock) {
      assert op in seen + {op};
    }
  }

  lemma InstepAlready(seen: set<Op>, op: Op, clock: int)
    requires Dominated(seen, clock) && op in seen
    ensures CaughtUp(op, clock) == clock
  {}

  /** What was seen settles the clock. */
  lemma SameClock(seen: set<Op>, c1: int, c2: int)
    requires Dominated(seen, c1) && Dominated(seen, c2) && Reached(seen, c1) && Reached(seen, c2)
    requires c1 >= 0 && c2 >= 0
    ensures c1 == c2
  {}

  lemma DominatedMore(seen: set<Op>, op: Op, clock: int)
    requires Dominated(seen, clock)
    ensures Dominated(seen + {op} - {op}, clock)
  {}

  lemma DominatedLess(seen: set<Op>, op: Op, clock: int)
    requires Dominated(seen, clock)
    ensures Dominated(seen - {op}, clock)
  {}

  lemma NotAhead(seen: set<Op>, op: Op, clock: int, clock': int)
    requires Dominated(seen - {op}, clock) && clock' >= clock && (op.Ins? ==> clock' >= op.id.c)
    ensures Dominated(seen, clock')
  {
    assert forall o :: o in seen ==> o == op || o in seen - {op};
  }

  lemma NodesUnderClock(nodes: Nodes, pending: Pending, seen: set<Op>, rank: map<Id, nat>, owed: set<Op>, clock: int)
    requires Sound(nodes, pending, seen, rank, owed, Root) && Dominated(seen, clock)
    ensures forall k :: k in nodes ==> k.c <= clock
  {
    forall k | k in nodes ensures k.c <= clock {
      assert Ins(k, nodes[k].after, nodes[k].value) in seen;
    }
  }

  /** Nodes are only added and only ever turn into tombstones. */
  ghost predicate Grew(a: Nodes, b: Nodes) {
    forall k :: k in a ==>
      k in b && b[k].after == a[k].after && b[k].value == a[k].value && (a[k].deleted ==> b[k].deleted)
  }

  lemma GrewSelf(a: Nodes)
    ensures Grew(a, a)
  {}

  lemma GrewTwice(a: Nodes, b: Nodes, c: Nodes)
    requires Grew(a, b) && Grew(b, c)
    ensures Grew(a, c)
  {}

  lemma GrewInserting(a: Nodes, op: Op)
    requires op.Ins? && op.id !in a
    ensures Grew(a, Inserting(a, op))
  {}

  lemma GrewDeleting(a: Nodes, k: Id)
    requires k in a
    ensures Grew(a, Deleting(a, k))
  {}

  lemma StillPresent(a: Nodes, b: Nodes, ref: Ref)
    requires Grew(a, b) && Present(a, ref)
    ensures Present(b, ref)
  {}

  /** What one operation does to the nodes, when nothing was waiting for it. */
  ghost predicate Effect(a: Nodes, b: Nodes, pending: Pending, op: Op) {
    match op
    case Ins(id, after, value) =>
      if id in a || !Present(a, after) then b == a
      else At(id) !in pending ==> b == Inserting(a, op)
    case Del(target) =>
      b == if target in a then Deleting(a, target) else a
  }

  lemma WaitingFacts(nodes: Nodes, pending: Pending, seen: set<Op>, rank: map<Id, nat>, owed: set<Op>, ref: Ref)
    requires Sound(nodes, pending, seen, rank, owed, ref) && ref in pending
    ensures forall i :: 0 <= i < |pending[ref]| ==> pending[ref][i] in seen && Dep(pending[ref][i]) == ref
  {
    assert forall i :: 0 <= i < |pending[ref]| ==> pending[ref][i] in pending[ref];
  }

  lemma FewerKeys(pending: Pending, ref: Ref)
    requires ref in pending
    ensures |pending - {ref}| < |pending| && (pending - {ref}).Keys == pending.Keys - {ref}
  {
    assert (pending - {ref}).Keys == pending.Keys - {ref};
  }

  lemma NoMoreKeys(a: Pending, b: Pending, ref: Ref)
    requires a.Keys <= b.Keys - {ref} && ref in b
    ensures |a| < |b|
  {
    SubsetSize(a.Keys, b.Keys - {ref});
  }

  lemma {:induction false} SubsetSize(a: set<Ref>, b: set<Ref>)
    requires a <= b
    ensures |a| <= |b|
    decreases |a|
  {
    if a != {} {
      var x :| x in a;
      SubsetSize(a - {x}, b - {x});
    }
  }

  lemma OpsNext(l: seq<Op>, i: nat, owed: set<Op>)
    requires i < |l|
    ensures owed + Ops(l[i..]) == owed + Ops(l[i + 1..]) + {l[i]}
  {
    assert l[i..] == [l[i]] + l[i + 1..];
  }

  lemma OwedSeen(nodes: Nodes, pending: Pending, seen: set<Op>, rank: map<Id, nat>, owed: set<Op>)
    requires Sound(nodes, pending, seen, rank, owed, Root)
    ensures owed <= seen
  {}

  // ---------------------------------------------------------------- grouping

  function ListOf(children: map<Ref, seq<Id>>, ref: Ref): seq<Id> {
    if ref in children then children[ref] else []
  }

  /** The list under `ref` holds the grouped children of `ref`, each once. */
  ghost predicate Grouped(nodes: Nodes, done: set<Id>, children: map<Ref, seq<Id>>, ref: Ref) {
    Once(ListOf(children, ref)) && Elements(ListOf(children, ref)) == Kids(nodes, done, ref)
  }

  lemma GroupMore(nodes: Nodes, done: set<Id>, children: map<Ref, seq<Id>>, k: Id,
                  done': set<Id>, children': map<Ref, seq<Id>>)
    requires (forall ref :: Grouped(nodes, done, children, ref)) && k in nodes && k !in done && done' == done + {k}
    requires children' == children[nodes[k].after := ListOf(children, nodes[k].after) + [k]]
    ensures forall ref :: Grouped(nodes, done', children', ref)
  {
    var after := nodes[k].after;
    forall ref ensures Grouped(nodes, done', children', ref) {
      assert Grouped(nodes, done, children, ref);
      if ref == after {
        assert k !in ListOf(children, ref) by { assert k !in Elements(ListOf(children, ref)); }
        OnceConcat(ListOf(children, ref), [k]);
        assert Elements(ListOf(children, ref) + [k]) == Elements(ListOf(children, ref)) + {k};
        assert Kids(nodes, done + {k}, ref) == Kids(nodes, done, ref) + {k};
      } else {
        assert Kids(nodes, done + {k}, ref) == Kids(nodes, done, ref);
      }
    }
  }

  lemma GroupedList(nodes: Nodes, done: set<Id>, children: map<Ref, seq<Id>>, ref: Ref)
    requires Grouped(nodes, done, children, ref) && ref in children
    ensures Once(children[ref]) && Elements(children[ref]) == Kids(nodes, done, ref)
  {}

  lemma NoGroup(nodes: Nodes, done: set<Id>, children: map<Ref, seq<Id>>, ref: Ref)
    requires Grouped(nodes, done, children, ref) && ref !in children
    ensures Sorted(Kids(nodes, done, ref)) == []
  {
    hide Sorted;
    assert Elements([]) == {};
    SortedOfNone();
  }

  /** All children of a node are still to be visited when the walk comes to it. */
  lemma KidsAreAvailable(nodes: Nodes, avail: set<Id>, key: Ref)
    requires avail <= nodes.Keys && Closed(nodes, avail, key)
    ensures Kids(nodes, avail, key) == Kids(nodes, nodes.Keys, key)
  {}

  // ---------------------------------------------------------------- local edits

  lemma KeysArePresent(nodes: Nodes, pending: Pending, seen: set<Op>, rank: map<Id, nat>, keys: seq<Id>)
    requires keys == Keys(nodes)
    ensures forall i :: 0 <= i < |keys| ==> keys[i] in nodes && !nodes[keys[i]].deleted
  {
    hide Ordered, Visible;
    forall i | 0 <= i < |keys| ensures keys[i] in nodes && !nodes[keys[i]].deleted {
      VisibleMembers(nodes, Ordered(nodes), keys[i]);
    }
  }

  lemma SoundGrounded(nodes: Nodes, pending: Pending, seen: set<Op>, rank: map<Id, nat>)
    requires Sound(nodes, pending, seen, rank, {}, Root)
    ensures Grounded(nodes, rank)
  {}

  /** An id with a clock beyond all others is new. */
  lemma FreshId(nodes: Nodes, pending: Pending, seen: set<Op>, rank: map<Id, nat>, op: Op, clock: int)
    requires Sound(nodes, pending, seen, rank, {}, Root) && Dominated(seen, clock) && op.Ins? && op.id.c == clock + 1
    requires forall k :: k in nodes ==> k.c <= clock
    ensures op.id !in nodes && op !in seen && UniqueIds(seen + {op})
  {}

  lemma DominatedSome(seen: set<Op>, clock: int, clock': int)
    requires Dominated(seen, clock) && clock <= clock'
    ensures Dominated(seen, clock')
  {}

  lemma InsertGrounds(nodes: Nodes, pending: Pending, seen: set<Op>, rank: map<Id, nat>, op: Op)
    requires Sound(nodes, pending, seen, rank, {}, Root) && op.Ins? && op.id !in nodes && Present(nodes, op.after)
    ensures Grounded(Inserting(nodes, op), NewRank(nodes, rank, op)) && Grounded(nodes, NewRank(nodes, rank, op))
  {
    InsertGrounded(nodes, rank, op);
  }

  /** A local insertion shows up at its index, unless something seen already waits for its id. */
  lemma InsertedShows(nodes: Nodes, pending: Pending, seen: set<Op>, rank: map<Id, nat>, op: Op, index: int, clock: int)
    requires Sound(nodes, pending, seen, rank, {}, Root) && op.Ins? && op.id !in nodes
    requires PredecessorAt(nodes, index, op.after) && index <= |Keys(nodes)| && Present(nodes, op.after)
    requires op.id.c == clock + 1 && forall k :: k in nodes ==> k.c <= clock
    requires forall o :: o in seen ==> Dep(o) != At(op.id)
    ensures At(op.id) !in pending
    ensures var i := if index <= 0 then 0 else index;
      Text(Inserting(nodes, op)) == Text(nodes)[..i] + [op.value] + Text(nodes)[i..]
  {
    NoneWaits(nodes, pending, seen, rank, op.id);
    InsertGrounds(nodes, pending, seen, rank, op);
    hide Sound, Keys, Text, Grounded;
    NewestOfAll(nodes, op.id, clock);
    InsertShows(nodes, NewRank(nodes, rank, op), op, index);
  }

  lemma EffectOfInsert(a: Nodes, b: Nodes, pending: Pending, op: Op)
    requires Effect(a, b, pending, op) && op.Ins? && op.id !in a
    ensures !Present(a, op.after) ==> b == a
    ensures Present(a, op.after) && At(op.id) !in pending ==> b == Inserting(a, op)
  {}

  lemma EffectOfDelete(a: Nodes, b: Nodes, pending: Pending, op: Op)
    requires Effect(a, b, pending, op) && op.Del? && op.target in a
    ensures b == Deleting(a, op.target)
  {}

  lemma NewestOfAll(nodes: Nodes, id: Id, clock: int)
    requires id.c == clock + 1 && forall k :: k in nodes ==> k.c <= clock
    ensures forall k :: k in nodes ==> Newer(id, k)
  {}

  lemma NoneWaits(nodes: Nodes, pending: Pending, seen: set<Op>, rank: map<Id, nat>, id: Id)
    requires Sound(nodes, pending, seen, rank, {}, Root) && forall o :: o in seen ==> Dep(o) != At(id)
    ensures At(id) !in pending
  {
    SomeWaiter(nodes, pending, seen, rank, At(id));
  }

  lemma SomeWaiter(nodes: Nodes, pending: Pending, seen: set<Op>, rank: map<Id, nat>, ref: Ref)
    requires Sound(nodes, pending, seen, rank, {}, Root)
    ensures ref in pending ==> exists o :: o in seen && Dep(o) == ref
  {
    if ref in pending {
      var o := pending[ref][0];
      assert o in pending[ref];
      assert o in seen && Dep(o) == ref;
    }
  }

  lemma DeleteUnique(nodes: Nodes, pending: Pending, seen: set<Op>, rank: map<Id, nat>, op: Op)
    requires Sound(nodes, pending, seen, rank, {}, Root) && op.Del?
    ensures UniqueIds(seen + {op})
  {}

  // ---------------------------------------------------------------- convergence

  /** Replicas that have seen the same operations, in any orders and however often, agree on their
      nodes, their clocks, on what is still blocked, and on the text. */
  lemma Convergence(a: Replica, b: Replica)
    requires a.Valid() && b.Valid() && a.seen == b.seen
    ensures a.nodes == b.nodes && Blocked(a.pending) == Blocked(b.pending) && Text(a.nodes) == Text(b.nodes)
    ensures a.clock == b.clock
  {
    SameClock(a.seen, a.clock, b.clock);
    SeenSettles(a.nodes, a.pending, a.rank, b.nodes, b.pending, b.rank, a.seen);
  }

  /** No operation is left waiting for a node that is present. */
  lemma NothingWaitsInVain(a: Replica, ref: Ref, op: Op)
    requires a.Valid() && ref in a.pending && op in a.pending[ref]
    ensures op in a.seen && Dep(op) == ref && !Present(a.nodes, ref)
  {}
}
