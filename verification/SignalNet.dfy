/** The graph behind `Reactive-Signals/src/signals.js` as a value: what each reaction computes, what
    its cached value stands for, and the rules the three colours obey. */
module SignalNet {
  type Value(==, !new)

  // ---------------------------------------------------------------- programs

  datatype Action = Return(value: Value) | Read(src: nat)

  /** The function of a computed or an effect: what it does next, given the values it has read so
      far.  `left` is an upper bound on the reads to come, so that every run ends. */
  datatype Prog = Prog(next: seq<Value> -> Action, left: seq<Value> -> ORDINAL)

  datatype Kind = Signal | Computed(p: Prog) | Effect(p: Prog)

  datatype Color = Clean | Check | Dirty

  /** Node ids are positions; a reaction reads only nodes created before it, and no effects. */
  datatype Net = Net(
    kinds: seq<Kind>,
    value: seq<Value>,
    state: seq<Color>,
    sources: seq<seq<nat>>,
    observers: seq<seq<nat>>,
    outcome: seq<Value>)         // what the function returned on its last run

  ghost predicate Ranked(p: Prog, n: nat) {
    forall h: seq<Value> :: p.next(h).Read? ==> p.next(h).src < n && forall v :: p.left(h + [v]) < p.left(h)
  }

  ghost predicate NoEffectRead(p: Prog, kinds: seq<Kind>) {
    forall h: seq<Value> :: p.next(h).Read? && p.next(h).src < |kinds| ==> !kinds[p.next(h).src].Effect?
  }

  ghost predicate AllRanked(kinds: seq<Kind>) {
    forall n :: 0 <= n < |kinds| && !kinds[n].Signal? ==> Ranked(kinds[n].p, n) && NoEffectRead(kinds[n].p, kinds[..n])
  }

  /** Adding to an ordered set, and taking away from one. */
  function Add(acc: seq<nat>, s: nat): seq<nat> {
    if s in acc then acc else acc + [s]
  }

  function Without(acc: seq<nat>, s: nat): (r: seq<nat>)
    ensures forall x :: x in r <==> x in acc && x != s
  {
    if acc == [] then []
    else if acc[0] == s then Without(acc[1..], s)
    else [acc[0]] + Without(acc[1..], s)
  }

  // ---------------------------------------------------------------- runs on cached values

  /** A run on cached values: the nodes read, in order of first reading, and what is returned. */
  ghost function Runs(p: Prog, n: nat, h: seq<Value>, value: seq<Value>, acc: seq<nat>)
    : (r: (seq<nat>, Value))
    requires Ranked(p, n) && n <= |value|
    decreases p.left(h)
  {
    match p.next(h)
    case Return(v) => (acc, v)
    case Read(s) => Runs(p, n, h + [value[s]], value, Add(acc, s))
  }

  lemma {:induction false} RunsReads(p: Prog, n: nat, h: seq<Value>, value: seq<Value>, acc: seq<nat>)
    requires Ranked(p, n) && n <= |value|
    requires forall s :: s in acc ==> s < n
    ensures forall s :: s in acc ==> s in Runs(p, n, h, value, acc).0
    ensures forall s :: s in Runs(p, n, h, value, acc).0 ==> s < n
    decreases p.left(h)
  {
    match p.next(h)
    case Return(_) =>
    case Read(s) => RunsReads(p, n, h + [value[s]], value, Add(acc, s));
  }

  /** A run depends only on the values it reads. */
  lemma {:induction false} RunsAgree(
    p: Prog, n: nat, h: seq<Value>, v1: seq<Value>, v2: seq<Value>, acc: seq<nat>)
    requires Ranked(p, n) && n <= |v1| && n <= |v2|
    requires forall s :: s in acc ==> s < n
    requires forall s :: s in Runs(p, n, h, v1, acc).0 && s < n ==> v1[s] == v2[s]
    ensures Runs(p, n, h, v1, acc) == Runs(p, n, h, v2, acc)
    decreases p.left(h)
  {
    match p.next(h)
    case Return(_) =>
    case Read(s) =>
      RunsReads(p, n, h + [v1[s]], v1, Add(acc, s));
      RunsAgree(p, n, h + [v1[s]], v1, v2, Add(acc, s));
  }

  // ---------------------------------------------------------------- what a node denotes

  /** The value of a node under the current values of the signals, by plain recomputation. */
  ghost function Truth(kinds: seq<Kind>, base: seq<Value>, n: nat): Value
    requires AllRanked(kinds) && n < |kinds| <= |base|
    decreases n
  {
    if kinds[n].Signal? then base[n] else Eval(kinds[n].p, kinds, base, n, [])
  }

  ghost function Eval(p: Prog, kinds: seq<Kind>, base: seq<Value>, n: nat, h: seq<Value>): Value
    requires AllRanked(kinds) && n <= |kinds| <= |base| && Ranked(p, n)
    decreases n, p.left(h)
  {
    match p.next(h)
    case Return(v) => v
    case Read(s) => Eval(p, kinds, base, n, h + [Truth(kinds, base, s)])
  }

  /** A run that reads only true values returns the true value. */
  lemma {:induction false} RunsTruly(
    p: Prog, kinds: seq<Kind>, n: nat, h: seq<Value>, value: seq<Value>, acc: seq<nat>)
    requires AllRanked(kinds) && n <= |kinds| <= |value| && Ranked(p, n)
    requires forall s :: s in acc ==> s < n
    requires forall s :: s in Runs(p, n, h, value, acc).0 && s < n ==> value[s] == Truth(kinds, value, s)
    ensures Runs(p, n, h, value, acc).1 == Eval(p, kinds, value, n, h)
    decreases p.left(h)
  {
    match p.next(h)
    case Return(_) =>
    case Read(s) =>
      RunsReads(p, n, h + [value[s]], value, Add(acc, s));
      RunsTruly(p, kinds, n, h + [value[s]], value, Add(acc, s));
  }

  /** The truth depends only on the signals. */
  lemma {:induction false} TruthAgrees(kinds: seq<Kind>, b1: seq<Value>, b2: seq<Value>, n: nat)
    requires AllRanked(kinds) && n < |kinds| && |b1| >= |kinds| && |b2| >= |kinds|
    requires forall s :: 0 <= s < |kinds| && kinds[s].Signal? ==> b1[s] == b2[s]
    ensures Truth(kinds, b1, n) == Truth(kinds, b2, n)
    decreases n
  {
    if !kinds[n].Signal? { EvalAgrees(kinds[n].p, kinds, b1, b2, n, []); }
  }

  lemma {:induction false} EvalAgrees(
    p: Prog, kinds: seq<Kind>, b1: seq<Value>, b2: seq<Value>, n: nat, h: seq<Value>)
    requires AllRanked(kinds) && n <= |kinds| && |b1| >= |kinds| && |b2| >= |kinds| && Ranked(p, n)
    requires forall s :: 0 <= s < |kinds| && kinds[s].Signal? ==> b1[s] == b2[s]
    ensures Eval(p, kinds, b1, n, h) == Eval(p, kinds, b2, n, h)
    decreases n, p.left(h)
  {
    match p.next(h)
    case Return(_) =>
    case Read(s) =>
      TruthAgrees(kinds, b1, b2, s);
      EvalAgrees(p, kinds, b1, b2, n, h + [Truth(kinds, b1, s)]);
  }

  // ---------------------------------------------------------------- the rules

  ghost predicate Sized(net: Net) {
    var n := |net.kinds|;
    |net.value| == n && |net.state| == n && |net.sources| == n && |net.observers| == n && |net.outcome| == n
  }

  /** Edges point down, are recorded at both ends, and end at no effect. */
  ghost predicate Wired(net: Net)
    requires Sized(net)
  {
    && (forall m, s {:trigger s in net.sources[m]} :: 0 <= m < |net.kinds| && s in net.sources[m] ==>
          s < m && !net.kinds[s].Effect? && !net.kinds[m].Signal? && m in net.observers[s])
    && (forall m, s {:trigger m in net.observers[s]} :: 0 <= s < |net.kinds| && m in net.observers[s] ==>
      m < |net.kinds| && s in net.sources[m])
  }

  /** The reaction's last run would go the same way on the values cached now. */
  ghost predicate Cached(net: Net, m: nat)
    requires Sized(net) && AllRanked(net.kinds) && m < |net.kinds| && !net.kinds[m].Signal?
  {
    && Runs(net.kinds[m].p, m, [], net.value, []) == (net.sources[m], net.outcome[m])
    && (net.kinds[m].Computed? ==> net.outcome[m] == net.value[m])
  }

  ghost predicate Formed(net: Net) {
    && Sized(net) && AllRanked(net.kinds) && Wired(net)
    && forall m :: 0 <= m < |net.kinds| && net.kinds[m].Signal? ==> net.state[m] == Clean
  }

  /** Whatever is not dirty holds a cached run, save the nodes in `late`. */
  ghost predicate Current(net: Net, late: set<nat>)
    requires Formed(net)
  {
    forall m :: 0 <= m < |net.kinds| && !net.kinds[m].Signal? && net.state[m] != Dirty && m !in late ==> Cached(net, m)
  }

  /** A node that is not clean has only observers that are not clean, save the nodes in `open`. */
  ghost predicate Alerted(net: Net, open: set<nat>)
    requires Formed(net)
  {
    forall m, s {:trigger s in net.sources[m]} :: 0 <= m < |net.kinds| && s in net.sources[m] ==>
      net.state[m] == Clean && s !in open ==> net.state[s] == Clean
  }

  ghost predicate Inv(net: Net) {
    Formed(net) && Current(net, {}) && Alerted(net, {})
  }

  /** A clean node is right: its cached value, and what its function returned, are the true ones. */
  lemma {:induction false} CleanIsTrue(net: Net, n: nat)
    requires Inv(net) && n < |net.kinds| && net.state[n] == Clean
    ensures !net.kinds[n].Effect? ==> net.value[n] == Truth(net.kinds, net.value, n)
    ensures !net.kinds[n].Signal? ==> net.outcome[n] == Truth(net.kinds, net.value, n)
    decreases n
  {
    if !net.kinds[n].Signal? {
      assert Cached(net, n);
      forall s | s in net.sources[n] ensures net.value[s] == Truth(net.kinds, net.value, s) {
        CleanIsTrue(net, s);
      }
      RunsTruly(net.kinds[n].p, net.kinds, n, [], net.value, []);
    }
  }

  // ---------------------------------------------------------------- what bringing nodes up to date may change

  /** From `a` to `b`: clean nodes keep everything, and nodes from `lim` on keep all but the chance
      of turning from `Check` to `Dirty`. */
  ghost predicate Settles(a: Net, b: Net, lim: nat) {
    && Sized(a) && Sized(b) && b.kinds == a.kinds
    && (forall k :: 0 <= k < |a.kinds| && a.state[k] == Clean ==> b.state[k] == Clean && Same(a, b, k))
    && (forall k :: lim <= k < |a.kinds| ==> Same(a, b, k))
    && (forall k :: lim <= k < |a.kinds| && b.state[k] != a.state[k] ==> a.state[k] == Check && b.state[k] == Dirty)
  }

  /** No effect but `m` comes to be clean. */
  ghost predicate EffectsWait(a: Net, b: Net, m: nat) {
    && |a.state| == |b.state| == |a.kinds|
    && forall e :: 0 <= e < |a.kinds| && a.kinds[e].Effect? && e != m && a.state[e] != Clean ==> b.state[e] != Clean
  }

  lemma WaitSelf(a: Net, m: nat)
    requires Sized(a)
    ensures EffectsWait(a, a, m)
  {}

  lemma EffectsWaitTwice(a: Net, b: Net, c: Net, m: nat)
    requires EffectsWait(a, b, m) && EffectsWait(b, c, m) && b.kinds == a.kinds
    ensures EffectsWait(a, c, m)
  {}

  /** Bringing a source up to date cleans no effect at all. */
  lemma EffectsWaitWider(a: Net, b: Net, s: nat, m: nat)
    requires EffectsWait(a, b, s) && s < |a.kinds| && !a.kinds[s].Effect?
    ensures EffectsWait(a, b, m)
  {}

  ghost predicate Same(a: Net, b: Net, k: nat)
    requires Sized(a) && Sized(b) && b.kinds == a.kinds && k < |a.kinds|
  {
    b.value[k] == a.value[k] && b.sources[k] == a.sources[k] && b.outcome[k] == a.outcome[k]
  }

  lemma SettlesTwice(a: Net, b: Net, c: Net, lim: nat)
    requires Settles(a, b, lim) && Settles(b, c, lim)
    ensures Settles(a, c, lim)
  {
    forall k | lim <= k < |a.kinds| ensures Same(a, c, k) &&
      (c.state[k] != a.state[k] ==> a.state[k] == Check && c.state[k] == Dirty) {
      assert Same(a, b, k) && Same(b, c, k);
    }
  }

  lemma SettlesWider(a: Net, b: Net, lim: nat, lim': nat)
    requires Settles(a, b, lim) && lim <= lim'
    ensures Settles(a, b, lim')
  {}
}
