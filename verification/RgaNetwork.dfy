/** Any number of replicas of `JS-CRDT/src/rga.js` exchanging the operations they make: what one replica
    takes for granted about the operations that reach it, derived. */
module RgaNetwork {
  import opened Options
  import opened RgaOrder
  import opened RgaTree
  import opened RgaDelivery
  import opened RgaText
  import opened RgaReplica

  /** An operation made by a replica that had the node it refers to: that node's insertion was made
      too, is attached itself, and is older. */
  ghost predicate Founded(made: set<Op>, op: Op) {
    Dep(op).At? ==> exists o :: o in made && FoundsOn(o, op)
  }

  ghost predicate FoundsOn(o: Op, op: Op) {
    o.Ins? && Dep(op) == At(o.id) && o.after != Nowhere && (op.Ins? ==> o.id.c < op.id.c)
  }

  lemma FoundedStill(made: set<Op>, more: set<Op>, op: Op)
    requires Founded(made, op) && made <= more
    ensures Founded(more, op)
  {
    if Dep(op).At? {
      var o :| o in made && FoundsOn(o, op);
      assert o in more;
    }
  }

  /** No insertion in this replica's name is ahead of its clock. */
  ghost predicate InStep(made: set<Op>, r: int, clock: int) {
    forall op :: op in made && op.Ins? && op.id.r == r ==> op.id.c <= clock
  }

  ghost predicate Honest(made: set<Op>) {
    && UniqueIds(made)
    && forall op :: op in made ==> Founded(made, op) && (op.Ins? ==> op.id.c >= 1)
  }

  /** A node a replica has: its insertion was seen, and is attached. */
  ghost predicate Known(seen: set<Op>, k: Id, clock: int) {
    k.c <= clock && exists o :: o in seen && o.Ins? && o.id == k && o.after != Nowhere
  }

  lemma AllKnown(r: Replica)
    requires r.Valid()
    ensures r.clock >= 0 && forall k :: k in r.nodes ==> Known(r.seen, k, r.clock)
  {
    NodesUnderClock(r.nodes, r.pending, r.seen, r.rank, {}, r.clock);
    forall k | k in r.nodes ensures Known(r.seen, k, r.clock) {
      var o := Ins(k, r.nodes[k].after, r.nodes[k].value);
      assert o in r.seen;
    }
  }

  /** A new operation on a node its maker has. */
  lemma FoundedNow(made: set<Op>, seen: set<Op>, clock: int, op: Op)
    requires seen <= made && (Dep(op).At? ==> Known(seen, Dep(op).id, clock)) && (op.Ins? ==> op.id.c > clock)
    ensures Founded(made + {op}, op)
  {
    if Dep(op).At? {
      var o :| o in seen && o.Ins? && o.id == Dep(op).id && o.after != Nowhere;
      assert FoundsOn(o, op) && o in made + {op};
    }
  }

  lemma StillHonest(made: set<Op>, op: Op)
    requires Honest(made) && Founded(made + {op}, op)
    requires op.Ins? ==> op.id.c >= 1 && forall o :: o in made && o.Ins? ==> o.id != op.id
    ensures Honest(made + {op})
  {
    hide Founded;
    forall o | o in made + {op} ensures Founded(made + {op}, o) {
      if o in made { FoundedStill(made, made + {op}, o); }
    }
  }

  lemma FewerIds(made: set<Op>, some: set<Op>)
    requires Honest(made) && some <= made
    ensures UniqueIds(some)
  {}

  /** Nothing a replica has seen refers to an id it has not given out yet. */
  lemma NoneAhead(made: set<Op>, seen: set<Op>, r: int, clock: int)
    requires Honest(made) && seen <= made && InStep(made, r, clock)
    ensures forall o :: o in made && o.Ins? ==> o.id != Id(clock + 1, r)
    ensures forall o :: o in seen ==> Dep(o) != At(Id(clock + 1, r))
  {
    forall o | o in seen ensures Dep(o) != At(Id(clock + 1, r)) {
      assert Founded(made, o);
      if Dep(o).At? {
        var p :| p in made && FoundsOn(p, o);
        assert p.id.r == r ==> p.id.c <= clock;
      }
    }
  }

  lemma InStepAt(made: set<Op>, op: Op, r: int, clock: int)
    requires InStep(made, r, clock) && op in made
    ensures op.Ins? && op.id.r == r ==> op.id.c <= clock
  {}

  lemma InStepMore(made: set<Op>, op: Op, r: int, clock: int, clock': int)
    requires InStep(made, r, clock) && clock <= clock' && (op.Ins? && op.id.r == r ==> op.id.c <= clock')
    ensures InStep(made + {op}, r, clock')
  {}

  lemma IsSettled(r: Replica)
    requires r.Valid()
    ensures r.Settled()
  {}

  /** What one replica holds between two calls. */
  lemma Quiet(r: Replica, made: set<Op>)
    requires r.Valid() && Honest(made) && r.seen <= made && InStep(made, r.replicaId, r.clock)
    ensures Sound(r.nodes, r.pending, r.seen, r.rank, {}, Root) && Grounded(r.nodes, r.rank)
    ensures forall k :: k in r.nodes ==> k.c <= r.clock
    ensures forall o :: o in r.seen ==> Dep(o) != At(Id(r.clock + 1, r.replicaId))
  {
    NodesUnderClock(r.nodes, r.pending, r.seen, r.rank, {}, r.clock);
    NoneAhead(made, r.seen, r.replicaId, r.clock);
  }

  /** A new insertion on a node that is there, which nothing seen waits for, is all that changes. */
  lemma Takes(nodes: Nodes, pending: Pending, seen: set<Op>, rank: map<Id, nat>, op: Op, nodes': Nodes)
    requires Sound(nodes, pending, seen, rank, {}, Root) && Effect(nodes, nodes', pending, op)
    requires op.Ins? && op.id !in nodes && Present(nodes, op.after) && forall o :: o in seen ==> Dep(o) != At(op.id)
    ensures nodes' == Inserting(nodes, op)
  {
    NoneWaits(nodes, pending, seen, rank, op.id);
  }

  lemma PredecessorPresents(nodes: Nodes, index: int, after: Ref)
    requires PredecessorAt(nodes, index, after) && index <= |Text(nodes)|
    ensures Present(nodes, after)
  {
    SameLengths(nodes);
    PredecessorPresent(nodes, index, after);
  }

  lemma StillThere(nodes: Nodes, op1: Op, op2: Op)
    requires op1.Ins? && op2.Ins? && op2.id !in nodes && op1.id != op2.id && Present(nodes, op2.after)
    ensures op2.id !in Inserting(nodes, op1) && Present(Inserting(nodes, op1), op2.after)
  {}

  class Network {
    var replicas: seq<Replica>
    ghost var made: set<Op>             // every operation any replica ever made

    ghost predicate Valid()
      reads this, replicas
    {
      && Honest(made)
      && (forall i, j :: 0 <= i < j < |replicas| ==>
        replicas[i] != replicas[j] && replicas[i].replicaId != replicas[j].replicaId)
      && (forall i :: 0 <= i < |replicas| ==>
        replicas[i].Valid() && replicas[i].seen <= made &&
            InStep(made, replicas[i].replicaId, replicas[i].clock))
    }

    lemma Member(i: nat)
      requires Valid() && i < |replicas|
      ensures Honest(made) && replicas[i].Valid() && replicas[i].seen <= made
      ensures InStep(made, replicas[i].replicaId, replicas[i].clock)
    {}

    lemma Apart(i: nat, j: nat)
      requires Valid() && i < |replicas| && j < |replicas| && i != j
      ensures replicas[i] != replicas[j] && replicas[i].replicaId != replicas[j].replicaId
    {}

    constructor ()
      ensures Valid() && replicas == [] && made == {}
    {
      replicas, made := [], {};
    }

    /** A new replica, under a name nobody has made operations in. */
    method Join(replicaId: int)
      requires Valid() && forall i :: 0 <= i < |replicas| ==> replicas[i].replicaId != replicaId
      requires forall op :: op in made && op.Ins? ==> op.id.r != replicaId
      modifies this`replicas
      ensures Valid() && made == old(made) && |replicas| == |old(replicas)| + 1 &&
        replicas[..|old(replicas)|] == old(replicas)
      ensures var r := replicas[|old(replicas)|]; fresh(r) && r.replicaId == replicaId && r.seen == {}
    {
      var r := new Replica(replicaId);
      replicas := replicas + [r];
    }

    /** Any operation made reaches any replica, at any time and any number of times. */
    method Deliver(i: nat, op: Op)
      requires Valid() && i < |replicas| && op in made
      modifies replicas[i]
      ensures Valid() && made == old(made) && replicas[i].seen == old(replicas[i].seen) + {op}
      ensures Effect(old(replicas[i].nodes), replicas[i].nodes, old(replicas[i].pending), op)
      ensures replicas[i].clock == CaughtUp(op, old(replicas[i].clock))
    {
      hide Replica.Valid, Honest, InStep, Effect;
      IsSettled(replicas[i]);
      var r := replicas[i];
      ghost var clock := r.clock;
      FewerIds(made, r.seen + {op});
      r.Receive(op);
      assert made + {op} == made;
      InStepAt(made, op, r.replicaId, clock);
      InStepMore(made, op, r.replicaId, clock, r.clock);
    }

    /** A character typed anywhere in its text shows up there, at this replica at once. */
    method InsertAt(i: nat, index: int, value: Value) returns (op: Op)
      requires Valid() && i < |replicas|
      modifies replicas[i], this`made
      ensures Valid() && made == old(made) + {op} && op !in old(made)
      ensures replicas[i].seen == old(replicas[i].seen) + {op}
      ensures op.Ins? && op.id == Id(old(replicas[i].clock) + 1, replicas[i].replicaId) && op.value == value
      ensures PredecessorAt(old(replicas[i].nodes), index, op.after)
      ensures Effect(old(replicas[i].nodes), replicas[i].nodes, old(replicas[i].pending), op)
      ensures index > |old(Text(replicas[i].nodes))| ==>
        Text(replicas[i].nodes) == old(Text(replicas[i].nodes)) && Dep(op) == Nowhere
      ensures index <= |old(Text(replicas[i].nodes))| ==>
        var k := if index <= 0 then 0 else index;
        Text(replicas[i].nodes) == old(Text(replicas[i].nodes))[..k] + [value] + old(Text(replicas[i].nodes))[k..]
    {
      hide Replica.Valid, Text, Honest, InStep, Known, Founded, Effect, PredecessorAt;
      var r := replicas[i];
      ghost var clock, seen := r.clock, r.seen;
      NoneAhead(made, seen, r.replicaId, clock);
      AllKnown(r);
      op := r.InsertAt(index, value);
      FoundedNow(made, seen, clock, op);
      StillHonest(made, op);
      forall j | 0 <= j < |replicas| ensures InStep(made + {op}, replicas[j].replicaId, replicas[j].clock) {
        InStepMore(made, op, replicas[j].replicaId, old(replicas[j].clock), replicas[j].clock);
      }
      made := made + {op};
    }

    /** Two replicas that have seen the same type at the same place, neither knowing of the other, and
        then hear of each other: both show the two characters side by side, that of the higher replica
        first, for their clocks are equal. */
    method TypeTogether(i: nat, j: nat, index: int, x: Value, y: Value)
      requires Valid() && i < |replicas| && j < |replicas| && i != j && replicas[i].seen == replicas[j].seen
      requires index <= |Text(replicas[i].nodes)|
      modifies replicas[i], replicas[j], this`made
      ensures Valid() && replicas[i].seen == replicas[j].seen
      ensures var k, t := if index <= 0 then 0 else index, old(Text(replicas[i].nodes));
        Text(replicas[i].nodes) == Text(replicas[j].nodes) ==
          t[..k] + (if replicas[i].replicaId > replicas[j].replicaId then [x, y] else [y, x]) + t[k..]
    {
      hide Valid, Replica.Valid, Text, Honest, InStep, Effect, PredecessorAt, Present, Inserting, Sound, Grounded;
      var a, b := replicas[i], replicas[j];
      ghost var nodes, rank, pending, seen, clock := a.nodes, a.rank, a.pending, a.seen, b.clock;
      Member(i);
      Member(j);
      Apart(i, j);
      Convergence(a, b);
      Quiet(a, made);
      Quiet(b, made);
      var op1 := InsertAt(i, index, x);
      PredecessorPresents(nodes, index, op1.after);
      Takes(nodes, pending, seen, rank, op1, a.nodes);
      Member(i);
      Member(j);
      NoneAhead(made, a.seen, b.replicaId, clock);
      Quiet(a, made);
      ghost var nodes1, pending1, seen1, rank1 := a.nodes, a.pending, a.seen, a.rank;
      var op2 := InsertAt(j, index, y);
      PredecessorPresents(nodes, index, op2.after);
      StillThere(nodes, op1, op2);
      Deliver(i, op2);
      Takes(nodes1, pending1, seen1, rank1, op2, a.nodes);
      Deliver(j, op1);
      Member(i);
      Member(j);
      Convergence(a, b);
      if a.replicaId > b.replicaId {
        TypedTogether(nodes, rank, op1, op2, index);
      } else {
        TypedTogether(nodes, rank, op2, op1, index);
      }
    }

    /** A character deleted is gone from the text, at this replica at once. */
    method DeleteAt(i: nat, index: int) returns (op: Option<Op>)
      requires Valid() && i < |replicas|
      modifies replicas[i], this`made
      ensures Valid() && made == old(made) + (if op.Some? then {op.value} else {})
      ensures replicas[i].seen == old(replicas[i].seen) + (if op.Some? then {op.value} else {})
      ensures op.Some? <==> 0 <= index < |old(Text(replicas[i].nodes))|
      ensures Text(replicas[i].nodes) ==
        if op.None? then old(Text(replicas[i].nodes))
        else old(Text(replicas[i].nodes))[..index] + old(Text(replicas[i].nodes))[index + 1..]
    {
      hide Replica.Valid, Text, Honest, InStep, Known, Founded;
      var r := replicas[i];
      ghost var clock, seen := r.clock, r.seen;
      AllKnown(r);
      op := r.DeleteAt(index);
      ghost var more := if op.Some? then {op.value} else {};
      if op.Some? {
        FoundedNow(made, seen, clock, op.value);
        StillHonest(made, op.value);
      } else {
        assert made + more == made;
      }
      forall j | 0 <= j < |replicas| ensures InStep(made + more, replicas[j].replicaId, replicas[j].clock) {
        if op.Some? { InStepMore(made, op.value, replicas[j].replicaId, old(replicas[j].clock), replicas[j].clock); }
        else { InStepLater(made, replicas[j].replicaId, old(replicas[j].clock), replicas[j].clock); }
      }
      made := made + more;
    }
  }

  lemma InStepLater(made: set<Op>, r: int, clock: int, clock': int)
    requires InStep(made, r, clock) && clock <= clock'
    ensures InStep(made, r, clock')
  {}

  // ---------------------------------------------------------------- once everything has arrived

  /** With every operation made delivered, every insertion that is attached is there. */
  lemma {:induction false} Attached(made: set<Op>, nodes: Nodes, pending: Pending, rank: map<Id, nat>, op: Op)
    requires Honest(made) && Sound(nodes, pending, made, rank, {}, Root)
    requires op in made && op.Ins? && op.after != Nowhere
    ensures op.id in nodes
    decreases op.id.c
  {
    assert Founded(made, op);
    if op.after.At? {
      var o :| o in made && FoundsOn(o, op);
      Attached(made, nodes, pending, rank, o);
    }
    hide Founded;
    assert Present(nodes, Dep(op)) && !WaitsFor(pending, op);
    assert Applied(nodes, op);
  }

  /** A replica that has seen everything holds nothing back but what was inserted past the end of
      some text. */
  lemma NothingHeldBack(n: Network, i: nat)
    requires n.Valid() && i < |n.replicas| && n.replicas[i].seen == n.made
    ensures Blocked(n.replicas[i].pending) == set op | op in n.made && Dep(op) == Nowhere
  {
    var r := n.replicas[i];
    assert r.Valid();
    BlockedIs(r.nodes, r.pending, r.seen, r.rank);
    forall op | op in n.made && Dep(op) != Nowhere ensures Present(r.nodes, Dep(op)) {
      assert Founded(n.made, op);
      if Dep(op).At? {
        var o :| o in n.made && FoundsOn(o, op);
        Attached(n.made, r.nodes, r.pending, r.rank, o);
      }
    }
  }

  /** And all that have seen everything show the same text. */
  lemma AllAgree(n: Network, i: nat, j: nat)
    requires n.Valid() && i < |n.replicas| && j < |n.replicas|
    requires n.replicas[i].seen == n.made == n.replicas[j].seen
    ensures n.replicas[i].nodes == n.replicas[j].nodes && Text(n.replicas[i].nodes) == Text(n.replicas[j].nodes)
  {
    assert n.replicas[i].Valid() && n.replicas[j].Valid();
    Convergence(n.replicas[i], n.replicas[j]);
  }
}
