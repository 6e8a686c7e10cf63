/** Why a reaction is run again: something it read has changed.  Laws of `Reactive-Signals/src/signals.js`
    over whole operations, however many nodes they bring up to date. */
module SignalGrounds {
  import opened SignalNet
  import opened SignalSteps

  /** `k` was run between these two histories. */
  ghost predicate Ran(h: seq<nat>, h': seq<nat>, k: nat) {
    exists i :: |h| <= i < |h'| && h'[i] == k
  }

  lemma RanTwice(h: seq<nat>, h': seq<nat>, h'': seq<nat>, k: nat)
    requires h <= h' <= h''
    ensures Ran(h, h'', k) <==> Ran(h, h', k) || Ran(h', h'', k)
  {
    if Ran(h, h'', k) {
      var i :| |h| <= i < |h''| && h''[i] == k;
      assert i < |h'| ==> h'[i] == k;
    }
    if Ran(h, h', k) {
      var i :| |h| <= i < |h'| && h'[i] == k;
      assert h''[i] == k;
    }
  }

  lemma RanOne(h: seq<nat>, m: nat, k: nat)
    ensures Ran(h, h + [m], k) <==> k == m
  {
    assert (h + [m])[|h|] == m;
  }

  /** A node read on the last run has another value now. */
  ghost predicate Moved(a: Net, b: Net, k: nat)
    requires Sized(a) && Sized(b) && b.kinds == a.kinds && k < |a.kinds|
  {
    exists s :: s in a.sources[k] && s < |a.kinds| && a.value[s] != b.value[s]
  }

  /** Grounds for a run: the reaction was known to be stale, or something it read has changed. */
  ghost predicate Provoked(a: Net, b: Net, k: nat)
    requires Sized(a) && Sized(b) && b.kinds == a.kinds && k < |a.kinds|
  {
    a.state[k] == Dirty || Moved(a, b, k)
  }

  /** Nothing was run, and nothing made stale, without grounds; and what changed was run and is clean.
      `but` is a reaction in the middle of its run. */
  ghost predicate GroundsBut(a: Net, b: Net, h: seq<nat>, h': seq<nat>, but: int) {
    && Sized(a) && Sized(b) && b.kinds == a.kinds && h <= h'
    && (forall k: nat :: Ran(h, h', k) ==> k < |a.kinds| && Provoked(a, b, k))
    && (forall k: nat :: k < |a.kinds| && a.state[k] != Dirty && b.state[k] == Dirty ==> Moved(a, b, k))
    && (forall k: nat :: k < |a.kinds| && k != but && a.value[k] != b.value[k] ==> b.state[k] == Clean)
    && (forall k: nat :: k < |a.kinds| && k != but && a.sources[k] != b.sources[k] ==> Ran(h, h', k))
  }

  ghost predicate Grounds(a: Net, b: Net, h: seq<nat>, h': seq<nat>) {
    GroundsBut(a, b, h, h', -1)
  }

  lemma GroundsSelf(a: Net, h: seq<nat>, but: int)
    requires Sized(a)
    ensures GroundsBut(a, a, h, h, but)
  {}

  /** Clean nodes stay as they are. */
  ghost predicate CleanKept(b: Net, c: Net) {
    && Sized(b) && Sized(c) && c.kinds == b.kinds
    && forall k: nat :: k < |b.kinds| && b.state[k] == Clean ==> c.state[k] == Clean && c.value[k] == b.value[k]
  }

  lemma SettlesKeepsClean(b: Net, c: Net, lim: nat)
    requires Settles(b, c, lim)
    ensures CleanKept(b, c)
  {}

  /** What has moved has moved for good. */
  lemma MovedStays(a: Net, b: Net, c: Net, h: seq<nat>, h': seq<nat>, but: int, k: nat)
    requires GroundsBut(a, b, h, h', but) && CleanKept(b, c) && k < |a.kinds| && Moved(a, b, k)
    requires 0 <= but < |a.kinds| ==> b.value[but] == a.value[but]
    ensures Moved(a, c, k)
  {
    var s :| s in a.sources[k] && s < |a.kinds| && a.value[s] != b.value[s];
    assert b.state[s] == Clean;
  }

  /** What moves later has moved since the beginning, unless the reaction was run in between. */
  lemma MovedLater(a: Net, b: Net, c: Net, h: seq<nat>, h': seq<nat>, but: int, k: nat)
    requires GroundsBut(a, b, h, h', but) && CleanKept(b, c) && k < |a.kinds| && Moved(b, c, k)
    requires 0 <= but < |a.kinds| ==> b.value[but] == a.value[but]
    ensures Ran(h, h', k) || k == but || Moved(a, c, k)
  {
    if !Ran(h, h', k) && k != but {
      var s :| s in b.sources[k] && s < |b.kinds| && b.value[s] != c.value[s];
      assert a.value[s] == b.value[s];
    }
  }

  lemma GroundsTwice(a: Net, b: Net, c: Net, h: seq<nat>, h': seq<nat>, h'': seq<nat>, but: int)
    requires GroundsBut(a, b, h, h', but) && GroundsBut(b, c, h', h'', but) && CleanKept(b, c)
    requires forall k: nat :: Ran(h, h', k) ==> b.state[k] == Clean
    requires 0 <= but < |a.kinds| ==> b.value[but] == a.value[but] && a.state[but] == Dirty
    ensures GroundsBut(a, c, h, h'', but)
  {
    hide Moved, Ran;
    forall k: nat ensures Ran(h, h'', k) <==> Ran(h, h', k) || Ran(h', h'', k) { RanTwice(h, h', h'', k); }
    forall k: nat | k < |a.kinds| ensures Moved(a, b, k) ==> Moved(a, c, k) {
      if Moved(a, b, k) { MovedStays(a, b, c, h, h', but, k); }
    }
    forall k: nat | k < |a.kinds| ensures Moved(b, c, k) ==> Ran(h, h', k) || k == but || Moved(a, c, k) {
      if Moved(b, c, k) { MovedLater(a, b, c, h, h', but, k); }
    }
  }

  /** No one is run that was clean. */
  ghost predicate NoneIdle(a: Net, h: seq<nat>, h': seq<nat>) {
    && h <= h' && forall k: nat :: Ran(h, h', k) ==> k < |a.state| && a.state[k] != Clean
  }

  lemma NoneIdleTwice(a: Net, b: Net, h: seq<nat>, h': seq<nat>, h'': seq<nat>)
    requires NoneIdle(a, h, h') && NoneIdle(b, h', h'') && CleanKept(a, b)
    ensures NoneIdle(a, h, h'')
  {
    hide Ran;
    forall k: nat ensures Ran(h, h'', k) <==> Ran(h, h', k) || Ran(h', h'', k) { RanTwice(h, h', h'', k); }
  }

  // ---------------------------------------------------------------- the single steps

  /** Forgetting the sources of a stale reaction, and recording a read of it. */
  lemma DetachedGrounds(a: Net, m: nat, h: seq<nat>)
    requires Inv(a) && m < |a.kinds| && a.state[m] == Dirty
    ensures GroundsBut(a, Detached(a, m), h, h, m) && Detached(a, m).value == a.value
  {}

  lemma EdgeGrounds(a: Net, m: nat, s: nat, h: seq<nat>)
    requires Sized(a) && s < m < |a.kinds|
    ensures GroundsBut(a, Edge(a, m, s), h, h, m) && Edge(a, m, s).value == a.value
  {}

  lemma GroundsWider(a: Net, b: Net, h: seq<nat>, h': seq<nat>, but: int)
    requires Grounds(a, b, h, h')
    ensures GroundsBut(a, b, h, h', but)
  {}

  /** Calling the function of a stale reaction. */
  lemma CalledGrounds(a: Net, b: Net, h: seq<nat>, h': seq<nat>, m: nat)
    requires GroundsBut(a, b, h, h', m) && m < |a.kinds| && a.state[m] == Dirty
    ensures GroundsBut(a, b, h, h' + [m], m)
  {
    hide Moved, Ran;
    forall k: nat ensures Ran(h, h' + [m], k) <==> Ran(h, h', k) || k == m {
      RanTwice(h, h', h' + [m], k);
      RanOne(h', m, k);
    }
  }

  /** A new value makes exactly the readers stale, which therefore have grounds. */
  lemma ReturnedGrounds(a: Net, b: Net, h: seq<nat>, h': seq<nat>, m: nat, v: Value)
    requires GroundsBut(a, b, h, h', m) && Inv(b) && m < |a.kinds| && b.value[m] == a.value[m]
    requires a.state[m] == Dirty && b.state[m] == Dirty && forall k: nat :: Ran(h, h', k) ==> k <= m
    ensures GroundsBut(a, Returned(b, m, v), h, h', m)
  {
    var c := Returned(b, m, v);
    hide Ran;
    forall k: nat | k < |a.kinds| ensures Moved(a, b, k) ==> Moved(a, c, k) {
      if Moved(a, b, k) {
        var s :| s in a.sources[k] && s < |a.kinds| && a.value[s] != b.value[s];
        assert c.value[s] == b.value[s];
      }
    }
    forall k: nat | k < |a.kinds| && a.state[k] != Dirty && c.state[k] == Dirty ensures Moved(a, c, k) {
      if b.state[k] != Dirty {
        assert k in b.observers[m] && m in b.sources[k] && k > m;
        assert a.sources[k] == b.sources[k];
      }
    }
    forall k: nat | k < |a.kinds| && k != m && a.value[k] != c.value[k] ensures c.state[k] == Clean {
      if c.state[k] != b.state[k] { NotBefore(b, m, k); }
    }
  }

  lemma NotBefore(b: Net, m: nat, k: nat)
    requires Inv(b) && m < |b.kinds| && k in b.observers[m]
    ensures k < |b.kinds| && m in b.sources[k] && m < k && (b.state[m] == Dirty ==> b.state[k] != Clean)
  {}

  /** The run is over. */
  lemma CleanedGrounds(a: Net, b: Net, h: seq<nat>, h': seq<nat>, m: nat)
    requires GroundsBut(a, b, h, h', m) && m < |a.kinds| && Ran(h, h', m)
    ensures Grounds(a, b.(state := b.state[m := Clean]), h, h')
  {
    var c := b.(state := b.state[m := Clean]);
    hide Ran;
    forall k: nat | k < |a.kinds| ensures Moved(a, b, k) == Moved(a, c, k) {}
  }

  /** Nor was there anything to run. */
  lemma CheckedGrounds(a: Net, b: Net, h: seq<nat>, h': seq<nat>, m: nat)
    requires Grounds(a, b, h, h') && m < |a.kinds|
    ensures Grounds(a, b.(state := b.state[m := Clean]), h, h')
  {
    var c := b.(state := b.state[m := Clean]);
    hide Ran;
    forall k: nat | k < |a.kinds| ensures Moved(a, b, k) == Moved(a, c, k) {}
  }

  // ---------------------------------------------------------------- laws of an operation

  ghost predicate RanBelow(h: seq<nat>, h': seq<nat>, lim: nat) {
    forall k: nat :: Ran(h, h', k) ==> k < lim
  }

  /** What bringing nodes below `lim` up to date may do. */
  ghost predicate LawfulBut(a: Net, b: Net, h: seq<nat>, h': seq<nat>, lim: nat, but: int) {
    GroundsBut(a, b, h, h', but) && NoneIdle(a, h, h') && RanBelow(h, h', lim)
  }

  ghost predicate Lawful(a: Net, b: Net, h: seq<nat>, h': seq<nat>, lim: nat) {
    LawfulBut(a, b, h, h', lim, -1)
  }

  lemma LawfulSelf(a: Net, h: seq<nat>, lim: nat, but: int)
    requires Sized(a)
    ensures LawfulBut(a, a, h, h, lim, but)
  {}

  lemma LawfulWider(a: Net, b: Net, h: seq<nat>, h': seq<nat>, lim: nat, lim': nat, but: int)
    requires Lawful(a, b, h, h', lim) && lim <= lim'
    ensures LawfulBut(a, b, h, h', lim', but)
  {
    hide GroundsBut, Ran;
    GroundsWider(a, b, h, h', but);
  }

  /** No reaction has run twice since the last write, at `mark`, and those that ran are still clean. */
  ghost predicate Once(state: seq<Color>, h: seq<nat>, mark: nat) {
    mark <= |h| && OnceEach(state, h[mark..])
  }

  /** So it was until `m` was run. */
  ghost predicate OnceBut(state: seq<Color>, h: seq<nat>, mark: nat, m: nat) {
    h != [] && h[|h| - 1] == m && Once(state, h[..|h| - 1], mark)
  }

  lemma RanClean(state: seq<Color>, h: seq<nat>, h': seq<nat>, mark: nat)
    requires Once(state, h', mark) && h <= h' && mark <= |h|
    ensures forall k: nat :: Ran(h, h', k) ==> k < |state| && state[k] == Clean
  {
    forall k: nat | Ran(h, h', k) ensures k < |state| && state[k] == Clean {
      var i :| |h| <= i < |h'| && h'[i] == k;
      assert h'[mark..][i - mark] == k;
    }
  }

  lemma LawfulTwice(a: Net, b: Net, c: Net, h: seq<nat>, h': seq<nat>, h'': seq<nat>, lim: nat, but: int, mark: nat)
    requires LawfulBut(a, b, h, h', lim, but) && LawfulBut(b, c, h', h'', lim, but)
    requires CleanKept(a, b) && CleanKept(b, c) && Once(b.state, h', mark) && mark <= |h|
    requires 0 <= but < |a.kinds| ==> b.value[but] == a.value[but] && a.state[but] == Dirty
    ensures LawfulBut(a, c, h, h'', lim, but)
  {
    RanClean(b.state, h, h', mark);
    GroundsTwice(a, b, c, h, h', h'', but);
    hide Ran, Moved, GroundsBut;
    NoneIdleTwice(a, b, h, h', h'');
    forall k: nat ensures Ran(h, h'', k) <==> Ran(h, h', k) || Ran(h', h'', k) { RanTwice(h, h', h'', k); }
  }

  lemma CleanKeptTwice(a: Net, b: Net, c: Net)
    requires CleanKept(a, b) && CleanKept(b, c)
    ensures CleanKept(a, c)
  {}

  /** One read in the middle of a run. */
  lemma LawfulRead(start: Net, before: Net, after: Net, h: seq<nat>, h': seq<nat>, h'': seq<nat>, m: nat, s: nat,
      mark: nat)
    requires LawfulBut(start, before, h, h', m + 1, m) && Sized(before) && s < m < |before.kinds|
    requires Lawful(Edge(before, m, s), after, h', h'', s + 1) && Settles(Edge(before, m, s), after, s + 1)
    requires CleanKept(start, before) && Once(before.state, h', mark) && mark <= |h|
    requires before.value[m] == start.value[m] && start.state[m] == Dirty
    ensures LawfulBut(start, after, h, h'', m + 1, m) && after.value[m] == start.value[m]
    ensures CleanKept(start, after)
  {
    var linked := Edge(before, m, s);
    EdgeLawful(before, m, s, h');
    hide GroundsBut, NoneIdle, RanBelow, Ran;
    EdgeKeepsClean(before, m, s);
    CleanKeptTwice(start, before, linked);
    LawfulTwice(start, before, linked, h, h', h', m + 1, m, mark);
    SettlesKeepsClean(linked, after, s + 1);
    LawfulWider(linked, after, h', h'', s + 1, m + 1, m);
    LawfulTwice(start, linked, after, h, h', h'', m + 1, m, mark);
    CleanKeptTwice(start, linked, after);
    SettlesAt(linked, after, s + 1, m);
  }

  lemma EdgeKeepsClean(a: Net, m: nat, s: nat)
    requires Sized(a) && s < m < |a.kinds|
    ensures CleanKept(a, Edge(a, m, s)) && Edge(a, m, s).value == a.value && Edge(a, m, s).state == a.state
  {}

  lemma EdgeLawful(a: Net, m: nat, s: nat, h: seq<nat>)
    requires Sized(a) && s < m < |a.kinds|
    ensures LawfulBut(a, Edge(a, m, s), h, h, m + 1, m)
  {
    EdgeGrounds(a, m, s, h);
  }

  lemma DetachedLawful(a: Net, m: nat, h: seq<nat>)
    requires Inv(a) && m < |a.kinds| && a.state[m] == Dirty
    ensures LawfulBut(a, Detached(a, m), h, h, m + 1, m) && CleanKept(a, Detached(a, m))
    ensures Sized(Detached(a, m)) && Detached(a, m).value == a.value && Detached(a, m).state == a.state
  {
    DetachedGrounds(a, m, h);
  }

  /** The function has been called. */
  lemma CalledLawful(a: Net, b: Net, h: seq<nat>, h': seq<nat>, m: nat, mark: nat)
    requires LawfulBut(a, b, h, h', m + 1, m) && m < |a.kinds| && a.state[m] == Dirty && Once(b.state, h', mark)
    ensures LawfulBut(a, b, h, h' + [m], m + 1, m) && OnceBut(b.state, h' + [m], mark, m)
  {
    CalledGrounds(a, b, h, h', m);
    hide GroundsBut, Ran;
    forall k: nat ensures Ran(h, h' + [m], k) <==> Ran(h, h', k) || k == m {
      RanTwice(h, h', h' + [m], k);
      RanOne(h', m, k);
    }
    assert (h' + [m])[..|h'|] == h';
  }

  lemma ReturnedLawful(a: Net, b: Net, h: seq<nat>, h': seq<nat>, m: nat, v: Value)
    requires LawfulBut(a, b, h, h', m + 1, m) && Inv(b) && m < |a.kinds| && b.value[m] == a.value[m]
    requires a.state[m] == Dirty && b.state[m] == Dirty
    ensures LawfulBut(a, Returned(b, m, v), h, h', m + 1, m)
  {
    ReturnedGrounds(a, b, h, h', m, v);
  }

  /** A reaction was checked, and then run: both together. */
  lemma LawfulRun(a: Net, b: Net, c: Net, h: seq<nat>, h': seq<nat>, h'': seq<nat>, m: nat, mark: nat)
    requires Lawful(a, b, h, h', m + 1) && LawfulBut(b, c, h', h'', m + 1, m) && Sized(b) && m < |b.kinds|
    requires CleanKept(a, b) && Settles(b, c, m + 1) && Once(b.state, h', mark) && mark <= |h|
    requires b.state[m] == Dirty && c.state[m] == Dirty && OnceBut(c.state, h'', mark, m) && |h'| < |h''|
    ensures Lawful(a, c.(state := c.state[m := Clean]), h, h'', m + 1)
    ensures Once(c.state[m := Clean], h'', mark)
  {
    var d := c.(state := c.state[m := Clean]);
    RunLawful(b, c, h', h'', m);
    hide GroundsBut, NoneIdle, RanBelow, Ran;
    SettlesKeepsClean(b, c, m + 1);
    CleanKeptMore(b, c, m);
    LawfulTwice(a, b, d, h, h', h'', m + 1, -1, mark);
    OnceRun(c, h'', m, mark);
  }

  /** A reaction was checked and its cached run stands. */
  lemma CheckedLawful(a: Net, b: Net, h: seq<nat>, h': seq<nat>, m: nat, mark: nat)
    requires Lawful(a, b, h, h', m + 1) && Sized(b) && m < |b.kinds| && Once(b.state, h', mark)
    ensures Lawful(a, b.(state := b.state[m := Clean]), h, h', m + 1) && Once(b.state[m := Clean], h', mark)
  {
    hide NoneIdle, RanBelow;
    CheckedGrounds(a, b, h, h', m);
    OnceKept(b.state, b.state[m := Clean], h', mark);
  }

  /** A reaction that forgot its sources has been run. */
  lemma RanLawful(start: Net, detached: Net, ran: Net, h: seq<nat>, h': seq<nat>, m: nat, mark: nat)
    requires Inv(start) && m < |start.kinds| && start.state[m] == Dirty && detached == Detached(start, m)
    requires LawfulBut(detached, ran, h, h', m + 1, m) && Settles(detached, ran, m + 1)
    requires ran.value[m] == start.value[m]
    requires Once(start.state, h, mark)
    ensures LawfulBut(start, ran, h, h', m + 1, m)
  {
    DetachedLawful(start, m, h);
    SettlesKeepsClean(detached, ran, m + 1);
    hide LawfulBut;
    LawfulTwice(start, detached, ran, h, h, h', m + 1, m, mark);
  }

  lemma OnceButSettles(a: Net, b: Net, lim: nat, h: seq<nat>, mark: nat, m: nat)
    requires Settles(a, b, lim) && OnceBut(a.state, h, mark, m)
    ensures OnceBut(b.state, h, mark, m)
  {
    OnceEachSettles(a, b, lim, h[..|h| - 1][mark..]);
  }

  lemma RanLast(h: seq<nat>, h': seq<nat>, mark: nat, m: nat, state: seq<Color>)
    requires OnceBut(state, h', mark, m) && h <= h' && |h| < |h'|
    ensures Ran(h, h', m)
  {
    assert h'[|h'| - 1] == m;
  }

  lemma CleanKeptMore(b: Net, c: Net, m: nat)
    requires CleanKept(b, c) && m < |b.kinds|
    ensures CleanKept(b, c.(state := c.state[m := Clean]))
  {}

  lemma RunLawful(b: Net, c: Net, h: seq<nat>, h': seq<nat>, m: nat)
    requires LawfulBut(b, c, h, h', m + 1, m) && m < |b.kinds| && |h| < |h'| && h'[|h'| - 1] == m
    ensures Lawful(b, c.(state := c.state[m := Clean]), h, h', m + 1)
  {
    assert Ran(h, h', m);
    CleanedGrounds(b, c, h, h', m);
  }

  lemma OnceRun(c: Net, h': seq<nat>, m: nat, mark: nat)
    requires OnceBut(c.state, h', mark, m) && m < |c.state| && c.state[m] != Clean
    ensures Once(c.state[m := Clean], h', mark)
  {
    var front := h'[..|h'| - 1];
    OnceMore(c.state, front[mark..], m);
    assert h' == front + [m];
    assert h'[mark..] == front[mark..] + [m];
  }

  lemma OnceKept(state: seq<Color>, state': seq<Color>, h: seq<nat>, mark: nat)
    requires Once(state, h, mark) && |state'| >= |state|
    requires forall k: nat :: k < |state| && state[k] == Clean ==> state'[k] == Clean
    ensures Once(state', h, mark)
  {}

  lemma OnceNow(state: seq<Color>, h: seq<nat>)
    ensures Once(state, h, |h|)
  {
    assert h[|h|..] == [];
  }

  /** No effect runs when something else is brought up to date. */
  lemma NoEffectRan(a: Net, b: Net, h: seq<nat>, h': seq<nat>, n: nat, mark: nat)
    requires EffectsWait(a, b, n) && NoneIdle(a, h, h') && Once(b.state, h', mark) && mark <= |h|
    requires n < |a.kinds| && !a.kinds[n].Effect? && b.kinds == a.kinds
    ensures forall k: nat :: Ran(h, h', k) ==> k < |a.kinds| && !a.kinds[k].Effect?
  {
    RanClean(b.state, h, h', mark);
  }

  /** Since `since`, no effect has run. */
  ghost predicate NoEffects(kinds: seq<Kind>, h: seq<nat>, since: nat) {
    since <= |h| && forall i :: since <= i < |h| ==> h[i] < |kinds| && !kinds[h[i]].Effect?
  }

  lemma NoEffectsYet(kinds: seq<Kind>, h: seq<nat>, h': seq<nat>, since: nat)
    requires NoEffects(kinds, h, since) && h <= h'
    requires forall k: nat :: Ran(h, h', k) ==> k < |kinds| && !kinds[k].Effect?
    ensures NoEffects(kinds, h', since)
  {
    forall i | since <= i < |h'| ensures h'[i] < |kinds| && !kinds[h'[i]].Effect? {
      if i >= |h| { assert Ran(h, h', h'[i]); }
    }
  }

  /** Since `since`, each effect has run at most once. */
  ghost predicate EffectsOnce(kinds: seq<Kind>, h: seq<nat>, since: nat) {
    forall i, j :: since <= i < j < |h| && h[i] < |kinds| && kinds[h[i]].Effect? ==> h[i] != h[j]
  }

  lemma EffectsRanOnce(kinds: seq<Kind>, state: seq<Color>, h: seq<nat>, h': seq<nat>, since: nat, mark: nat)
    requires NoEffects(kinds, h, since) && h <= h' && Once(state, h', mark) && mark <= |h|
    ensures EffectsOnce(kinds, h', since)
  {
    forall i, j | since <= i < j < |h'| && h'[i] < |kinds| && kinds[h'[i]].Effect? ensures h'[i] != h'[j] {
      assert i >= |h|;
      assert h'[mark..][i - mark] == h'[i] && h'[mark..][j - mark] == h'[j];
    }
  }

  lemma NoEffectsGrow(kinds: seq<Kind>, kinds': seq<Kind>, h: seq<nat>, since: nat)
    requires NoEffects(kinds, h, since) && kinds <= kinds'
    ensures NoEffects(kinds', h, since)
  {}

  // ---------------------------------------------------------------- a write

  /** Only readers of the written signal come to be dirty; others may have to be checked. */
  ghost predicate OnlyReaders(a: seq<Color>, b: seq<Color>, os: seq<nat>) {
    && |a| == |b| && forall k: nat :: k < |a| && a[k] != Dirty && b[k] == Dirty ==> k in os
  }

  lemma OnlySelf(a: seq<Color>, os: seq<nat>)
    ensures OnlyReaders(a, a, os)
  {}

  /** A write is grounds enough for its readers. */
  lemma WrittenGrounds(a: Net, n: nat, v: Value, b: Net, h: seq<nat>)
    requires Inv(a) && n < |a.kinds| && a.kinds[n].Signal? && a.value[n] != v
    requires Inv(b) && b == a.(value := a.value[n := v], state := b.state)
    requires OnlyReaders(a.state, b.state, a.observers[n])
    ensures Grounds(a, b, h, h)
  {
    forall k: nat | k < |a.kinds| && a.state[k] != Dirty && b.state[k] == Dirty ensures Moved(a, b, k) {
      assert n in a.sources[k] && a.value[n] != b.value[n];
    }
  }

  lemma GroundsAfter(a: Net, b: Net, c: Net, h: seq<nat>, h': seq<nat>)
    requires Grounds(a, b, h, h) && Grounds(b, c, h, h') && CleanKept(b, c)
    ensures Grounds(a, c, h, h')
  {
    GroundsTwice(a, b, c, h, h, h', -1);
  }
}
