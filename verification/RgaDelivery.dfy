/** Delivery of operations in `JS-CRDT/src/rga.js`, as values: what a replica owes to the operations
    it has seen, and why that settles its nodes. */
module RgaDelivery {
  import opened RgaOrder
  import opened RgaTree

  datatype Op = Ins(id: Id, after: Ref, value: Value) | Del(target: Id)

  type Pending = map<Ref, seq<Op>>

  /** The node an operation has to wait for. */
  function Dep(op: Op): Ref {
    match op
    case Ins(_, after, _) => after
    case Del(target) => At(target)
  }

  predicate Present(nodes: Nodes, ref: Ref) {
    match ref
    case Root => true
    case At(k) => k in nodes
    case Nowhere => false
  }

  ghost predicate Applied(nodes: Nodes, op: Op) {
    match op
    case Ins(id, after, value) => id in nodes && nodes[id].after == after && nodes[id].value == value
    case Del(target) => target in nodes && nodes[target].deleted
  }

  ghost predicate UniqueIds(ops: set<Op>) {
    forall a, b :: a in ops && b in ops && a.Ins? && b.Ins? && a.id == b.id ==> a == b
  }

  // ---------------------------------------------------------------- the rules

  /** Every node and every tombstone comes from an operation seen. */
  ghost predicate Sourced(nodes: Nodes, seen: set<Op>) {
    forall k :: k in nodes ==>
      Ins(k, nodes[k].after, nodes[k].value) in seen && (nodes[k].deleted ==> Del(k) in seen)
  }

  ghost predicate WaitsFor(pending: Pending, op: Op) {
    Dep(op) in pending && op in pending[Dep(op)]
  }

  /** Every operation seen has been applied, waits, or is still in hand. */
  ghost predicate Answered(nodes: Nodes, pending: Pending, seen: set<Op>, owed: set<Op>) {
    forall op :: op in seen ==> Applied(nodes, op) || WaitsFor(pending, op) || op in owed
  }

  /** Whatever waits was seen, is filed under what it waits for, and that is absent, save `open`. */
  ghost predicate Filed(nodes: Nodes, pending: Pending, seen: set<Op>, open: Ref) {
    && (forall ref :: ref in pending ==> pending[ref] != [] && (!Present(nodes, ref) || (ref == open && ref != Root)))
    && (forall ref, op :: ref in pending && op in pending[ref] ==> op in seen && Dep(op) == ref)
  }

  ghost predicate Sound(nodes: Nodes, pending: Pending, seen: set<Op>, rank: map<Id, nat>, owed: set<Op>, open: Ref) {
    && UniqueIds(seen) && Grounded(nodes, rank) && Sourced(nodes, seen)
    && Answered(nodes, pending, seen, owed) && owed <= seen && Filed(nodes, pending, seen, open)
  }

  // ---------------------------------------------------------------- steps

  /** An insert whose id is there already has been applied before. */
  lemma SeenBefore(nodes: Nodes, pending: Pending, seen: set<Op>, rank: map<Id, nat>, owed: set<Op>, op: Op)
    requires Sound(nodes, pending, seen, rank, owed + {op}, Root) && op.Ins? && op.id in nodes && owed <= seen
    ensures Sound(nodes, pending, seen, rank, owed, Root)
  {
    assert op == Ins(op.id, nodes[op.id].after, nodes[op.id].value);
  }

  function Deferred(pending: Pending, op: Op): Pending {
    pending[Dep(op) := (if Dep(op) in pending then pending[Dep(op)] else []) + [op]]
  }

  lemma DeferSound(nodes: Nodes, pending: Pending, seen: set<Op>, rank: map<Id, nat>, owed: set<Op>, op: Op)
    requires Sound(nodes, pending, seen, rank, owed + {op}, Root) && !Present(nodes, Dep(op)) && owed <= seen
    ensures Sound(nodes, Deferred(pending, op), seen, rank, owed, Root)
  {
    hide Applied, Grounded, Sourced, UniqueIds, Present;
    var pending' := Deferred(pending, op);
    forall o | o in seen ensures Applied(nodes, o) || WaitsFor(pending', o) || o in owed {
      assert Applied(nodes, o) || WaitsFor(pending, o) || o in owed + {op};
    }
  }

  function NewRank(nodes: Nodes, rank: map<Id, nat>, op: Op): map<Id, nat>
    requires op.Ins?
  {
    rank[op.id := if op.after.At? && op.after.id in rank then rank[op.after.id] + 1 else 0]
  }

  function Inserting(nodes: Nodes, op: Op): Nodes
    requires op.Ins?
  {
    nodes[op.id := Elem(op.after, op.value, false)]
  }

  lemma InsertGrounded(nodes: Nodes, rank: map<Id, nat>, op: Op)
    requires Grounded(nodes, rank) && op.Ins? && op.id !in nodes && Present(nodes, op.after)
    ensures Grounded(Inserting(nodes, op), NewRank(nodes, rank, op)) && Grounded(nodes, NewRank(nodes, rank, op))
  {}

  lemma InsertSound(nodes: Nodes, pending: Pending, seen: set<Op>, rank: map<Id, nat>, owed: set<Op>, op: Op)
    requires Sound(nodes, pending, seen, rank, owed + {op}, Root) && owed <= seen
    requires op.Ins? && op.id !in nodes && Present(nodes, op.after)
    ensures Sound(Inserting(nodes, op), pending, seen, NewRank(nodes, rank, op), owed, At(op.id))
  {
    InsertGrounded(nodes, rank, op);
    InsertAnswered(nodes, pending, seen, owed, op);
    InsertSourced(nodes, seen, op);
    InsertFiled(nodes, pending, seen, op);
    hide Grounded, UniqueIds, Answered, Sourced, Filed, Inserting, NewRank;
  }

  lemma InsertAnswered(nodes: Nodes, pending: Pending, seen: set<Op>, owed: set<Op>, op: Op)
    requires op.Ins? && op.id !in nodes && Answered(nodes, pending, seen, owed + {op})
    ensures Answered(Inserting(nodes, op), pending, seen, owed)
  {
    hide WaitsFor;
    forall o | o in seen ensures Applied(Inserting(nodes, op), o) || WaitsFor(pending, o) || o in owed {
      assert Applied(nodes, o) || WaitsFor(pending, o) || o in owed + {op};
    }
  }

  lemma InsertSourced(nodes: Nodes, seen: set<Op>, op: Op)
    requires op.Ins? && op.id !in nodes && Sourced(nodes, seen) && op in seen
    ensures Sourced(Inserting(nodes, op), seen)
  {}

  lemma InsertFiled(nodes: Nodes, pending: Pending, seen: set<Op>, op: Op)
    requires op.Ins? && op.id !in nodes && Filed(nodes, pending, seen, Root)
    ensures Filed(Inserting(nodes, op), pending, seen, At(op.id))
  {}

  function Deleting(nodes: Nodes, k: Id): Nodes
    requires k in nodes
  {
    nodes[k := nodes[k].(deleted := true)]
  }

  lemma DeleteSound(nodes: Nodes, pending: Pending, seen: set<Op>, rank: map<Id, nat>, owed: set<Op>, op: Op)
    requires Sound(nodes, pending, seen, rank, owed + {op}, Root) && owed <= seen
    requires op.Del? && op.target in nodes
    ensures Sound(Deleting(nodes, op.target), pending, seen, rank, owed, Root)
  {
    hide UniqueIds;
    var nodes' := Deleting(nodes, op.target);
    forall o | o in seen ensures Applied(nodes', o) || WaitsFor(pending, o) || o in owed {
      assert Applied(nodes, o) || WaitsFor(pending, o) || o in owed + {op};
    }
  }

  ghost function Ops(l: seq<Op>): set<Op> {
    set op | op in l
  }

  /** Taking a list of waiting operations in hand. */
  lemma TakeSound(nodes: Nodes, pending: Pending, seen: set<Op>, rank: map<Id, nat>, owed: set<Op>, ref: Ref)
    requires Sound(nodes, pending, seen, rank, owed, ref) && ref in pending
    ensures Sound(nodes, pending - {ref}, seen, rank, owed + Ops(pending[ref]), Root)
  {
    hide UniqueIds, Grounded, Applied, Sourced, Present;
    forall o | o in seen ensures Applied(nodes, o) || WaitsFor(pending - {ref}, o) || o in owed + Ops(pending[ref]) {
      assert Applied(nodes, o) || WaitsFor(pending, o) || o in owed;
    }
  }

  lemma NothingOpen(nodes: Nodes, pending: Pending, seen: set<Op>, rank: map<Id, nat>, owed: set<Op>, ref: Ref)
    requires Sound(nodes, pending, seen, rank, owed, ref) && ref !in pending
    ensures Sound(nodes, pending, seen, rank, owed, Root)
  {}

  /** A new operation to answer for. */
  lemma ReceiveSound(nodes: Nodes, pending: Pending, seen: set<Op>, rank: map<Id, nat>, op: Op)
    requires Sound(nodes, pending, seen, rank, {}, Root) && UniqueIds(seen + {op})
    ensures Sound(nodes, pending, seen + {op}, rank, {op}, Root)
  {
    hide Applied, Present;
  }

  // ---------------------------------------------------------------- convergence

  /** The operations still blocked: those whose predecessor or target is absent. */
  ghost function Blocked(pending: Pending): set<Op> {
    set ref, op | ref in pending && op in pending[ref] :: op
  }

  lemma BlockedIs(nodes: Nodes, pending: Pending, seen: set<Op>, rank: map<Id, nat>)
    requires Sound(nodes, pending, seen, rank, {}, Root)
    ensures Blocked(pending) == set op | op in seen && !Present(nodes, Dep(op))
  {
    hide UniqueIds, Sourced;
    forall op | op in seen && !Present(nodes, Dep(op)) ensures op in Blocked(pending) {
      assert !Applied(nodes, op);
      assert WaitsFor(pending, op);
    }
  }

  /** Whatever one replica has, another that has seen the same operations has too. */
  lemma {:induction false} SameNode(n1: Nodes, p1: Pending, r1: map<Id, nat>, n2: Nodes, p2: Pending, r2: map<Id, nat>,
                                    seen: set<Op>, k: Id)
    requires Sound(n1, p1, seen, r1, {}, Root) && Sound(n2, p2, seen, r2, {}, Root) && k in n1
    ensures k in n2 && n2[k].after == n1[k].after && n2[k].value == n1[k].value && (n1[k].deleted ==> n2[k].deleted)
    decreases r1[k]
  {
    hide UniqueIds;
    var op := Ins(k, n1[k].after, n1[k].value);
    if op.after.At? { SameNode(n1, p1, r1, n2, p2, r2, seen, op.after.id); }
    assert Present(n2, Dep(op)) && !WaitsFor(p2, op);
    assert Applied(n2, op);
    if n1[k].deleted {
      assert Del(k) in seen && !WaitsFor(p2, Del(k));
      assert Applied(n2, Del(k));
    }
  }

  /** Order and repetition of delivery leave no trace: the operations seen settle everything. */
  lemma SeenSettles(n1: Nodes, p1: Pending, r1: map<Id, nat>, n2: Nodes, p2: Pending, r2: map<Id, nat>, seen: set<Op>)
    requires Sound(n1, p1, seen, r1, {}, Root) && Sound(n2, p2, seen, r2, {}, Root)
    ensures n1 == n2 && Blocked(p1) == Blocked(p2)
  {
    forall k | k in n1 ensures k in n2 && n2[k].after == n1[k].after && n2[k].value == n1[k].value &&
      (n1[k].deleted ==> n2[k].deleted) {
      SameNode(n1, p1, r1, n2, p2, r2, seen, k);
    }
    forall k | k in n2 ensures k in n1 && (n2[k].deleted ==> n1[k].deleted) {
      SameNode(n2, p2, r2, n1, p1, r1, seen, k);
    }
    BlockedIs(n1, p1, seen, r1);
    BlockedIs(n2, p2, seen, r2);
    hide Sound;
  }
}
