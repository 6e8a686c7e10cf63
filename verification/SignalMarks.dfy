/** The push phase of `Reactive-Signals/src/signals.js` as changes of value: marking, queueing and
    appending nodes, and why each keeps the rules. */
module SignalMarks {
  import opened SignalNet
  import opened SignalSteps
  import opened SignalGrounds

  function Level(c: Color): nat {
    match c
    case Clean => 0
    case Check => 1
    case Dirty => 2
  }

  ghost function Members(s: seq<nat>): set<nat> {
    set x | x in s
  }

  /** The signals hold the same values. */
  ghost predicate SameSignals(kinds: seq<Kind>, a: seq<Value>, b: seq<Value>)
    requires |a| >= |kinds| && |b| >= |kinds|
  {
    forall s :: 0 <= s < |kinds| && kinds[s].Signal? ==> a[s] == b[s]
  }

  lemma SameSignalsTwice(kinds: seq<Kind>, a: seq<Value>, b: seq<Value>, c: seq<Value>)
    requires |a| >= |kinds| && |b| >= |kinds| && |c| >= |kinds|
    requires SameSignals(kinds, a, b) && SameSignals(kinds, b, c)
    ensures SameSignals(kinds, a, c)
  {}

  lemma SettlesValues(a: Net, b: Net, lim: nat)
    requires Settles(a, b, lim) && Inv(a)
    ensures Sized(a) && SameSignals(a.kinds, a.value, b.value)
  {}

  // ---------------------------------------------------------------- the queue

  /** The queue holds exactly the effects that are not clean, each once. */
  ghost predicate Queued(kinds: seq<Kind>, state: seq<Color>, pending: seq<nat>) {
    && |state| == |kinds|
    && (forall e :: e in pending ==> e < |kinds| && kinds[e].Effect? && state[e] != Clean)
    && (forall e :: 0 <= e < |kinds| && kinds[e].Effect? && state[e] != Clean ==> e in pending)
    && (forall i, j :: 0 <= i < j < |pending| ==> pending[i] != pending[j])
  }

  lemma QueuedSettles(a: Net, b: Net, lim: nat, s: nat, pending: seq<nat>)
    requires Settles(a, b, lim) && EffectsWait(a, b, s) && Queued(a.kinds, a.state, pending)
    requires s < |a.kinds| && !a.kinds[s].Effect?
    ensures Queued(b.kinds, b.state, pending)
  {}

  lemma QueuedEffect(kinds: seq<Kind>, state: seq<Color>, pending: seq<nat>, i: nat)
    requires i < |pending| && Queued(kinds, state, pending[i..])
    ensures pending[i] < |kinds| && kinds[pending[i]].Effect? && state[pending[i]] != Clean
  {
    assert pending[i] in pending[i..];
  }

  /** An effect that has been run leaves the queue, which is then exact again. */
  lemma QueuedRun(a: Net, b: Net, lim: nat, e: nat, pending: seq<nat>, k: nat)
    requires Settles(a, b, lim) && EffectsWait(a, b, e) && e < |b.state| && b.state[e] == Clean
    requires Queued(a.kinds, a.state, pending) && k < |pending| && pending[k] == e
    ensures Queued(b.kinds, b.state, pending[..k] + pending[k + 1..])
  {
    var rest := pending[..k] + pending[k + 1..];
    assert forall i :: 0 <= i < |rest| ==> rest[i] == pending[if i < k then i else i + 1];
    forall x | x in rest ensures x < |b.kinds| && b.kinds[x].Effect? && b.state[x] != Clean {
      var i :| 0 <= i < |rest| && rest[i] == x;
      var j := if i < k then i else i + 1;
      assert pending[j] == x && x in pending;
      assert x != e;
    }
    forall x: nat | x < |b.kinds| && b.kinds[x].Effect? && b.state[x] != Clean ensures x in rest {
      assert x in pending;
      var j :| 0 <= j < |pending| && pending[j] == x;
      assert rest[if j < k then j else j - 1] == x;
    }
  }

  lemma QueuedMarked(kinds: seq<Kind>, state: seq<Color>, pending: seq<nat>, n: nat, c: Color)
    requires Queued(kinds, state, pending) && n < |kinds| && c != Clean
    ensures Queued(kinds, state[n := c], if state[n] == Clean && kinds[n].Effect? then pending + [n] else pending)
  {}

  lemma QueuedAppend(kinds: seq<Kind>, state: seq<Color>, pending: seq<nat>, kind: Kind, color: Color)
    requires Queued(kinds, state, pending) && (kind.Effect? ==> color != Clean)
    ensures Queued(kinds + [kind], state + [color], if kind.Effect? then pending + [|kinds|] else pending)
  {
    var n, kinds', state' := |kinds|, kinds + [kind], state + [color];
    var longer := if kind.Effect? then pending + [n] else pending;
    assert kinds'[n] == kind && state'[n] == color;
    forall e | e in longer ensures e < |kinds'| && kinds'[e].Effect? && state'[e] != Clean {
      if e in pending { assert kinds'[e] == kinds[e] && state'[e] == state[e]; }
    }
    forall e: nat | e < |kinds'| && kinds'[e].Effect? && state'[e] != Clean ensures e in longer {
      if e < n {
        assert kinds'[e] == kinds[e] && state'[e] == state[e];
      } else {
        assert longer[|pending|] == n;
      }
    }
    forall i, j | 0 <= i < j < |longer| ensures longer[i] != longer[j] {
      assert longer[i] == pending[i] && pending[i] in pending;
    }
  }

  // ---------------------------------------------------------------- marking

  /** Only `n` may turn dirty; others only leave `Clean` for `Check`. */
  ghost predicate Staler(a: seq<Color>, b: seq<Color>, n: nat, c: Color) {
    && |a| == |b| && n < |a|
    && b[n] == (if Level(a[n]) >= Level(c) then a[n] else c)
    && forall k :: 0 <= k < |a| && k != n ==> b[k] == a[k] || (a[k] == Clean && b[k] == Check)
  }

  /** The first `i` of these nodes are not clean. */
  ghost predicate NoneClean(os: seq<nat>, i: nat, state: seq<Color>) {
    i <= |os| && forall j :: 0 <= j < i ==> os[j] < |state| && state[os[j]] != Clean
  }

  lemma StalerTwice(a: seq<Color>, b: seq<Color>, d: seq<Color>, n: nat, c: Color, os: seq<nat>, i: nat)
    requires Staler(a, b, n, c) && c != Clean && NoneClean(os, i, b)
    requires i < |os| && Staler(b, d, os[i], Check) && os[i] != n
    ensures Staler(a, d, n, c) && NoneClean(os, i + 1, d)
  {}

  /** Marking one reader of a written signal makes no one else dirty. */
  lemma OnlyMore(a: seq<Color>, b: seq<Color>, c: seq<Color>, os: seq<nat>, i: nat)
    requires OnlyReaders(a, b, os) && i < |os| && Staler(b, c, os[i], Dirty)
    ensures OnlyReaders(a, c, os)
  {}

  /** Without effects, none is queued. */
  lemma NoEffectQueued(kinds: seq<Kind>, state: seq<Color>, pending: seq<nat>)
    requires Queued(kinds, state, pending)
    ensures (forall e :: 0 <= e < |kinds| ==> !kinds[e].Effect?) ==> pending == []
  {
    if pending != [] { assert pending[0] in pending; }
  }

  lemma FormedSized(net: Net)
    requires Formed(net)
    ensures Sized(net) && AllRanked(net.kinds)
  {}

  lemma InvParts(net: Net)
    requires Formed(net) && Current(net, {}) && Alerted(net, {})
    ensures Inv(net)
  {}

  lemma ObserverReacts(net: Net, n: nat, i: nat)
    requires Formed(net) && n < |net.kinds| && i < |net.observers[n]|
    ensures n < net.observers[n][i] < |net.kinds| && !net.kinds[net.observers[n][i]].Signal?
  {
    assert net.observers[n][i] in net.observers[n];
  }

  lemma MarkBegins(net: Net, n: nat, c: Color, open: set<nat>)
    requires Formed(net) && Alerted(net, open) && n < |net.kinds| && !net.kinds[n].Signal? && c != Clean
    ensures Formed(net.(state := net.state[n := c])) && Alerted(net.(state := net.state[n := c]), open + {n})
    ensures if Level(net.state[n]) >= Level(c) then Staler(net.state, net.state, n, c)
            else Staler(net.state, net.state[n := c], n, c)
    ensures n < |net.observers| && NoneClean(net.observers[n], 0, net.state[n := c])
  {}

  lemma MarkEnds(net: Net, n: nat, open: set<nat>)
    requires Formed(net) && Alerted(net, open + {n}) && n < |net.kinds|
    requires NoneClean(net.observers[n], |net.observers[n]|, net.state)
    ensures Alerted(net, open)
  {
    assert forall m :: m in net.observers[n] ==> net.state[m] != Clean;
  }

  /** Marking an observer of the written signal settles what is owed to it. */
  lemma MarkedCurrent(a: Net, b: Net, n: nat, i: nat)
    requires Formed(a) && Formed(b) && b == a.(state := b.state) && n < |a.kinds| && i < |a.observers[n]|
    requires Current(a, Members(a.observers[n][i..])) && Staler(a.state, b.state, a.observers[n][i], Dirty)
    ensures Current(b, Members(b.observers[n][i + 1..]))
  {
    hide Runs, Ranked, NoEffectRead;
    var o := a.observers[n][i];
    assert a.observers[n][i..] == [o] + a.observers[n][i + 1..];
    forall m | 0 <= m < |b.kinds| && !b.kinds[m].Signal? && b.state[m] != Dirty &&
      m !in Members(b.observers[n][i + 1..])
      ensures Cached(b, m)
    {
      assert m != o && m !in Members(a.observers[n][i..]);
      assert Cached(a, m);
    }
  }

  /** A write makes nothing wrong but what observes the signal. */
  lemma WriteBegins(net: Net, n: nat, v: Value)
    requires Inv(net) && n < |net.kinds| && net.kinds[n].Signal?
    ensures var net' := net.(value := net.value[n := v]);
      Formed(net') && Alerted(net', {}) && Current(net', Members(net.observers[n]))
  {
    hide Runs, Ranked, NoEffectRead;
    var net' := net.(value := net.value[n := v]);
    forall m | 0 <= m < |net.kinds| && !net.kinds[m].Signal? && net.state[m] != Dirty && m !in Members(net.observers[n])
      ensures Cached(net', m)
    {
      assert Cached(net, m) && m !in net.observers[n] && n !in net.sources[m];
      CachedStands(net, net', m);
    }
  }

  // ---------------------------------------------------------------- new nodes

  function Appended(net: Net, kind: Kind, v: Value, color: Color): Net {
    Net(net.kinds + [kind], net.value + [v], net.state + [color], net.sources + [[]], net.observers + [[]],
        net.outcome + [v])
  }

  lemma AppendKeeps(net: Net, kind: Kind, v: Value, color: Color)
    requires Inv(net) && color == (if kind.Signal? then Clean else Dirty)
    requires !kind.Signal? ==> Ranked(kind.p, |net.kinds|) && NoEffectRead(kind.p, net.kinds)
    ensures Inv(Appended(net, kind, v, color))
  {
    var net' := Appended(net, kind, v, color);
    AllRankedAppend(net.kinds, kind);
    hide Runs, Ranked, NoEffectRead;
    assert Wired(net');
    forall m | 0 <= m < |net'.kinds| && !net'.kinds[m].Signal? && net'.state[m] != Dirty ensures Cached(net', m) {
      assert Cached(net, m);
      assert forall s :: s in net.sources[m] ==> s < m;
      RunsAgree(net.kinds[m].p, m, [], net.value, net'.value, []);
    }
  }

  lemma AllRankedAppend(kinds: seq<Kind>, kind: Kind)
    requires AllRanked(kinds) && (!kind.Signal? ==> Ranked(kind.p, |kinds|) && NoEffectRead(kind.p, kinds))
    ensures AllRanked(kinds + [kind])
  {
    hide Ranked, NoEffectRead;
    var all := kinds + [kind];
    forall n | 0 <= n < |all| && !all[n].Signal? ensures Ranked(all[n].p, n) && NoEffectRead(all[n].p, all[..n]) {
      assert all[..n] == kinds[..n];
      if n == |kinds| { assert kinds[..n] == kinds; }
    }
  }

  lemma OnceAppend(state: seq<Color>, runs: seq<nat>, color: Color)
    requires OnceEach(state, runs)
    ensures OnceEach(state + [color], runs)
  {}
}
