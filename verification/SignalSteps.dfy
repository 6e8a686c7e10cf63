/** The single changes that bringing a node up to date is made of, and why each keeps the rules. */
module SignalSteps {
  import opened SignalNet

  /** `m` no longer observes anything. */
  function Detached(net: Net, m: nat): Net
    requires m < |net.sources|
  {
    net.(sources := net.sources[m := []], observers := Unobserved(net.observers, net.sources[m], m))
  }

  /** `m` taken out of the observers of every node in `ss`. */
  function Unobserved(observers: seq<seq<nat>>, ss: seq<nat>, m: nat): (r: seq<seq<nat>>)
    ensures |r| == |observers|
  {
    seq(|observers|, s requires 0 <= s < |observers| => if s in ss then Without(observers[s], m) else observers[s])
  }

  lemma DetachedKeeps(net: Net, m: nat)
    requires Inv(net) && m < |net.kinds| && net.state[m] == Dirty
    ensures Inv(Detached(net, m)) && Settles(net, Detached(net, m), m + 1)
  {
    var net' := Detached(net, m);
    hide Runs, Ranked;
    assert Wired(net');
    forall k | 0 <= k < |net.kinds| && !net.kinds[k].Signal? && net'.state[k] != Dirty ensures Cached(net', k) {
      assert Cached(net, k);
    }
  }

  /** `r` observes `s`, recorded at both ends. */
  function Edge(net: Net, r: nat, s: nat): Net
    requires r < |net.sources| && s < |net.observers|
  {
    net.(sources := net.sources[r := Add(net.sources[r], s)], observers := net.observers[s := Add(net.observers[s], r)])
  }

  lemma EdgeKeeps(net: Net, r: nat, s: nat)
    requires Inv(net) && s < r < |net.kinds| && net.state[r] == Dirty
    requires !net.kinds[s].Effect? && !net.kinds[r].Signal?
    ensures Inv(Edge(net, r, s)) && Settles(net, Edge(net, r, s), r + 1)
  {
    var net' := Edge(net, r, s);
    hide Runs, Ranked;
    assert Wired(net');
    forall k | 0 <= k < |net.kinds| && !net.kinds[k].Signal? && net'.state[k] != Dirty ensures Cached(net', k) {
      assert Cached(net, k);
    }
  }

  /** What the function of `m` returned.  A computed with a new value makes its observers stale. */
  function Returned(net: Net, m: nat, v: Value): Net
    requires Sized(net) && m < |net.kinds|
  {
    var net' := net.(outcome := net.outcome[m := v]);
    if net.kinds[m].Computed? && net.value[m] != v
    then net'.(value := net.value[m := v], state := Stale(net.state, net.observers[m]))
    else net'
  }

  function Stale(state: seq<Color>, os: seq<nat>): (r: seq<Color>)
    ensures |r| == |state|
  {
    seq(|state|, k requires 0 <= k < |state| => if k in os then Dirty else state[k])
  }

  /** The others do not read `m`, so their cached runs stand. */
  lemma CachedStands(net: Net, net': Net, k: nat)
    requires Sized(net) && Sized(net') && net'.kinds == net.kinds && AllRanked(net.kinds)
    requires k < |net.kinds| && !net.kinds[k].Signal? && Cached(net, k) && Same(net, net', k)
    requires forall s :: s in net.sources[k] && s < k ==> net'.value[s] == net.value[s]
    ensures Cached(net', k)
  {
    RunsAgree(net.kinds[k].p, k, [], net.value, net'.value, []);
  }

  lemma ReturnedKeeps(net: Net, m: nat, v: Value)
    requires Inv(net) && m < |net.kinds| && net.state[m] == Dirty && !net.kinds[m].Signal?
    ensures Inv(Returned(net, m, v)) && Settles(net, Returned(net, m, v), m + 1)
    ensures Returned(net, m, v).state[m] == Dirty
  {
    var net' := Returned(net, m, v);
    hide Runs, Ranked, NoEffectRead;
    assert forall o :: o in net.observers[m] ==> m < o < |net.kinds|;
    assert Formed(net') && Alerted(net', {});
    forall k | 0 <= k < |net.kinds| && !net.kinds[k].Signal? && net'.state[k] != Dirty ensures Cached(net', k) {
      ReturnedStands(net, m, v, k);
    }
  }

  /** Neither forgetting the sources nor taking over a result cleans a node. */
  lemma ReactionWaits(net: Net, m: nat, ran: Net, v: Value)
    requires Inv(net) && Sized(ran) && m < |net.kinds| && ran.kinds == net.kinds
    requires EffectsWait(Detached(net, m), ran, m)
    ensures EffectsWait(net, Returned(ran, m, v), m)
  {}

  /** What does not come to be dirty did not read `m`, or `m` has kept its value. */
  lemma ReturnedStands(net: Net, m: nat, v: Value, k: nat)
    requires Inv(net) && m < |net.kinds| && net.state[m] == Dirty && k < |net.kinds| && !net.kinds[k].Signal?
    requires Returned(net, m, v).state[k] != Dirty
    ensures Cached(Returned(net, m, v), k)
  {
    hide Runs, Ranked, NoEffectRead;
    var net' := Returned(net, m, v);
    assert k != m;
    assert net'.value == net.value || (k !in net.observers[m] && m !in net.sources[k]);
    CachedStands(net, net', k);
  }

  /** `m` has just been run on clean sources. */
  ghost predicate Ready(net: Net, m: nat)
    requires Formed(net)
  {
    && m < |net.kinds| && !net.kinds[m].Signal? && Cached(net, m)
    && forall s :: s in net.sources[m] ==> net.state[s] == Clean
  }

  /** A finished run on clean sources leaves the node ready, whether or not its value changed. */
  lemma ReturnedReady(net: Net, m: nat, v: Value)
    requires Inv(net) && m < |net.kinds| && net.state[m] == Dirty && !net.kinds[m].Signal?
    requires Runs(net.kinds[m].p, m, [], net.value, []) == (net.sources[m], v)
    requires forall s :: s in net.sources[m] ==> net.state[s] == Clean
    ensures Formed(Returned(net, m, v)) && Ready(Returned(net, m, v), m)
  {
    var net' := Returned(net, m, v);
    ReturnedKeeps(net, m, v);
    hide Runs, Ranked;
    RunsAgree(net.kinds[m].p, m, [], net.value, net'.value, []);
    assert forall s :: s in net.sources[m] ==> s !in net.observers[m];
  }

  /** Once every source of a node marked `Check` is clean, its cached run stands. */
  lemma CheckedReady(net: Net, m: nat)
    requires Inv(net) && m < |net.kinds| && net.state[m] == Check
    requires forall i :: 0 <= i < |net.sources[m]| ==>
      net.sources[m][i] < |net.state| && net.state[net.sources[m][i]] == Clean
    ensures Ready(net, m)
  {
    hide Runs, Ranked;
    assert Cached(net, m);
  }

  lemma CleanedSettles(net: Net, m: nat)
    requires Sized(net) && m < |net.kinds|
    ensures Settles(net, net.(state := net.state[m := Clean]), m + 1)
  {}

  lemma CleanedKeeps(net: Net, m: nat)
    requires Inv(net) && Ready(net, m)
    ensures Inv(net.(state := net.state[m := Clean]))
  {
    var net' := net.(state := net.state[m := Clean]);
    hide Runs, Ranked;
    forall k | 0 <= k < |net.kinds| && !net.kinds[k].Signal? && net'.state[k] != Dirty ensures Cached(net', k) {
      assert Cached(net, k);
    }
  }

  // ---------------------------------------------------------------- a run in progress

  /** The reads so far: `h[i]` is what `ss[i]` holds, and `ss[i]` is what the function asked for. */
  ghost predicate Follows(p: Prog, ss: seq<nat>, h: seq<Value>, value: seq<Value>) {
    && |h| == |ss|
    && (forall i :: 0 <= i < |ss| ==> ss[i] < |value| && h[i] == value[ss[i]])
    && (forall i :: 0 <= i < |ss| ==> p.next(h[..i]) == Read(ss[i]))
  }

  function Collected(ss: seq<nat>): seq<nat> {
    if ss == [] then [] else Add(Collected(ss[..|ss| - 1]), ss[|ss| - 1])
  }

  lemma {:induction false} CollectedIs(ss: seq<nat>)
    ensures forall s :: s in Collected(ss) <==> s in ss
  {
    if ss != [] {
      var n := |ss| - 1;
      CollectedIs(ss[..n]);
      assert ss == ss[..n] + [ss[n]];
    }
  }

  /** Continuing a run from where it has got to gives the whole run. */
  lemma {:induction false} FollowsRuns(p: Prog, n: nat, ss: seq<nat>, h: seq<Value>, value: seq<Value>)
    requires Ranked(p, n) && n <= |value| && Follows(p, ss, h, value)
    ensures Runs(p, n, [], value, []) == Runs(p, n, h, value, Collected(ss))
    decreases |ss|
  {
    if ss == [] {
      assert h == [];
    } else {
      var m := |ss| - 1;
      FollowsLess(p, ss, h, value);
      FollowsRuns(p, n, ss[..m], h[..m], value);
    }
  }

  lemma FollowsLess(p: Prog, ss: seq<nat>, h: seq<Value>, value: seq<Value>)
    requires Follows(p, ss, h, value) && ss != []
    ensures var m := |ss| - 1;
      && Follows(p, ss[..m], h[..m], value) && ss[m] < |value|
      && p.next(h[..m]) == Read(ss[m]) && h[..m] + [value[ss[m]]] == h
  {
    var m := |ss| - 1;
    forall i | 0 <= i < m ensures p.next(h[..m][..i]) == Read(ss[..m][i]) {
      assert h[..m][..i] == h[..i];
    }
  }

  lemma FollowsMore(p: Prog, ss: seq<nat>, h: seq<Value>, value: seq<Value>, s: nat)
    requires Follows(p, ss, h, value) && p.next(h) == Read(s) && s < |value|
    ensures Follows(p, ss + [s], h + [value[s]], value)
    ensures Collected(ss + [s]) == Add(Collected(ss), s)
  {
    assert (ss + [s])[..|ss|] == ss;
    var h' := h + [value[s]];
    forall i | 0 <= i < |ss| + 1 ensures p.next(h'[..i]) == Read((ss + [s])[i]) {
      if i < |ss| { assert h'[..i] == h[..i]; } else { assert h'[..i] == h; }
    }
  }

  lemma FollowsStill(p: Prog, ss: seq<nat>, h: seq<Value>, v1: seq<Value>, v2: seq<Value>)
    requires Follows(p, ss, h, v1) && |v2| == |v1| && forall i :: 0 <= i < |ss| ==> v2[ss[i]] == v1[ss[i]]
    ensures Follows(p, ss, h, v2)
  {}

  // ---------------------------------------------------------------- parts of the rules

  lemma InvSized(net: Net)
    requires Inv(net)
    ensures Sized(net) && AllRanked(net.kinds)
  {}

  lemma SignalIsClean(net: Net, s: nat)
    requires Inv(net) && s < |net.kinds| && net.kinds[s].Signal?
    ensures net.state[s] == Clean
  {}

  lemma DirtyReacts(net: Net, m: nat)
    requires Inv(net) && m < |net.kinds| && net.state[m] == Dirty
    ensures !net.kinds[m].Signal?
  {}

  lemma EdgesInRange(net: Net, m: nat)
    requires Inv(net) && m < |net.kinds|
    ensures forall s :: s in net.sources[m] ==> s < |net.kinds|
    ensures forall o :: o in net.observers[m] ==> o < |net.kinds|
  {}

  lemma SourceBelow(net: Net, m: nat, i: nat)
    requires Inv(net) && m < |net.kinds| && i < |net.sources[m]|
    ensures net.sources[m][i] < m && !net.kinds[net.sources[m][i]].Effect?
  {
    assert net.sources[m][i] in net.sources[m];
  }

  lemma SettlesSelf(net: Net, lim: nat)
    requires Sized(net)
    ensures Settles(net, net, lim)
  {}

  /** What settling tells of one node. */
  lemma SettlesAt(a: Net, b: Net, lim: nat, k: nat)
    requires Settles(a, b, lim) && k < |a.kinds|
    ensures a.state[k] == Clean ==> b.state[k] == Clean && b.value[k] == a.value[k]
    ensures k >= lim ==> Same(a, b, k) && (b.state[k] != a.state[k] ==> a.state[k] == Check && b.state[k] == Dirty)
  {}

  /** No reaction has run twice, and those that ran are still clean. */
  ghost predicate OnceEach(state: seq<Color>, runs: seq<nat>) {
    && (forall i, j :: 0 <= i < j < |runs| ==> runs[i] != runs[j])
    && (forall i :: 0 <= i < |runs| ==> runs[i] < |state| && state[runs[i]] == Clean)
  }

  lemma OnceEachSettles(a: Net, b: Net, lim: nat, runs: seq<nat>)
    requires Settles(a, b, lim) && OnceEach(a.state, runs)
    ensures OnceEach(b.state, runs)
  {}

  lemma OnceMore(state: seq<Color>, runs: seq<nat>, m: nat)
    requires OnceEach(state, runs) && m < |state| && state[m] != Clean
    ensures OnceEach(state[m := Clean], runs + [m])
  {}
}
