/** `Reactive-Signals/src/signals.js`: signals, computeds and effects that are marked by writes and
    brought up to date by reads. */
module Signals {
  import opened Options
  import opened SignalNet
  import opened SignalSteps
  import opened SignalMarks
  import opened SignalGrounds

  class Graph {
    const undef: Value              // what a reaction holds before its first run
    var kinds: seq<Kind>
    var value: seq<Value>
    var state: seq<Color>
    var sources: seq<seq<nat>>      // nodes read on the last run, in order of first reading
    var observers: seq<seq<nat>>    // reactions that read this node
    var pendingEffects: seq<nat>
    var batchDepth: nat
    ghost var outcome: seq<Value>   // what each function returned on its last run
    ghost var history: seq<nat>     // every call of a reaction's function, in order
    ghost var mark: nat             // where in it the last write was
    ghost var since: nat            // and where the outermost open batch began

    ghost function Now(): Net
      reads this
    {
      Net(kinds, value, state, sources, observers, outcome)
    }

    constructor (undef: Value)
      ensures this.undef == undef && kinds == [] && Valid() && history == [] && batchDepth == 0
    {
      this.undef := undef;
      kinds, value, state, sources, observers := [], [], [], [], [];
      pendingEffects, batchDepth, outcome, history, mark, since := [], 0, [], [], 0, 0;
    }

    // -------------------------------------------------------------- bringing up to date

    /** `get`: records the edge, brings the node up to date, and yields its value. */
    method Fetch(s: nat, reader: Option<nat>) returns (v: Value)
      requires Inv(Now()) && Once(state, history, mark) && s < |kinds| && !kinds[s].Effect?
      requires reader.Some? ==>
        s < reader.value < |kinds| && Sized(Now()) && state[reader.value] == Dirty && !kinds[reader.value].Signal?
      modifies this`value, this`state, this`sources, this`observers, this`outcome, this`history
      ensures Inv(Now()) && Once(state, history, mark) && old(history) <= history && Sized(Now()) && Sized(old(Now()))
      ensures v == value[s] && state[s] == Clean
      ensures Settles(if reader.Some? then Edge(old(Now()), reader.value, s) else old(Now()), Now(), s + 1)
      ensures EffectsWait(old(Now()), Now(), s)
      ensures Lawful(if reader.Some? then Edge(old(Now()), reader.value, s) else old(Now()), Now(),
                     old(history), history,
                     s + 1)
      ensures reader.None? && old(state[s]) == Clean ==> Now() == old(Now()) && history == old(history)
      decreases s, 3
    {
      hide Inv, Settles, OnceEach, LawfulBut;
      InvSized(Now());
      if reader.Some? {
        EdgeKeeps(Now(), reader.value, s);
        EdgeKeepsClean(Now(), reader.value, s);
        sources := sources[reader.value := Add(sources[reader.value], s)];
        observers := observers[s := Add(observers[s], reader.value)];
      }
      InvSized(Now());
      if !kinds[s].Signal? {
        UpdateIfNecessary(s);
      } else {
        SignalIsClean(Now(), s);
        SettlesSelf(Now(), s + 1);
        LawfulSelf(Now(), history, s + 1, -1);
      }
      v := value[s];
    }

    method UpdateIfNecessary(m: nat)
      requires Inv(Now()) && Once(state, history, mark) && m < |kinds|
      modifies this`value, this`state, this`sources, this`observers, this`outcome, this`history
      ensures Inv(Now()) && Once(state, history, mark) && old(history) <= history && Sized(Now())
      ensures Settles(old(Now()), Now(), m + 1) && EffectsWait(old(Now()), Now(), m) && state[m] == Clean
      ensures Lawful(old(Now()), Now(), old(history), history, m + 1)
      ensures old(state[m]) == Clean ==> Now() == old(Now()) && history == old(history)
      ensures old(state[m]) == Dirty ==> Ran(old(history), history, m)
      decreases m, 2
    {
      hide Inv, Settles, OnceEach, OnceBut, Ready, GroundsBut, NoneIdle, RanBelow, Ran;
      InvSized(Now());
      ghost var start := Now();
      SettlesSelf(start, m + 1);
      LawfulSelf(start, history, m + 1, -1);
      if state[m] == Clean { return; }
      if state[m] == Check {
        CheckSources(m);
        SettlesWider(start, Now(), m, m + 1);
        LawfulWider(start, Now(), old(history), history, m, m + 1, -1);
      }
      ghost var checked, before := Now(), history;
      SettlesKeepsClean(start, checked, m + 1);
      if state[m] == Dirty {
        DirtyReacts(checked, m);
        Update(m);
        SettlesTwice(start, checked, Now(), m + 1);
        LawfulRun(start, checked, Now(), old(history), before, history, m, mark);
        RanLast(old(history), history, mark, m, state);
      } else {
        CheckedLawful(start, checked, old(history), history, m, mark);
      }
      CleanedKeeps(Now(), m);
      CleanedSettles(Now(), m);
      SettlesTwice(start, Now(), Now().(state := state[m := Clean]), m + 1);
      state := state[m := Clean];
    }

    /** Brings each source up to date in turn, until one of them turns `m` dirty. */
    method CheckSources(m: nat)
      requires Inv(Now()) && Once(state, history, mark) && Sized(Now()) && m < |kinds| && state[m] == Check
      modifies this`value, this`state, this`sources, this`observers, this`outcome, this`history
      ensures Inv(Now()) && Once(state, history, mark) && old(history) <= history && Sized(Now())
      ensures Settles(old(Now()), Now(), m) && EffectsWait(old(Now()), Now(), m)
      ensures Lawful(old(Now()), Now(), old(history), history, m)
      ensures state[m] == Dirty || (state[m] == Check && Ready(Now(), m))
      decreases m, 1
    {
      hide Inv, Settles, OnceEach, Ready, GroundsBut, NoneIdle, RanBelow;
      ghost var start := Now();
      SettlesSelf(start, m);
      LawfulSelf(start, history, m, -1);
      var i := 0;
      while i < |sources[m]|
        invariant Inv(Now()) && Once(state, history, mark) && old(history) <= history && Sized(Now()) && m < |kinds|
        invariant Settles(start, Now(), m) && state[m] == Check && sources[m] == start.sources[m]
        invariant EffectsWait(start, Now(), m) && Lawful(start, Now(), old(history), history, m)
        invariant i <= |sources[m]|
        invariant forall j :: 0 <= j < i ==> sources[m][j] < m && state[sources[m][j]] == Clean
        decreases |start.sources[m]| - i
      {
        ghost var before, ran := Now(), history;
        SourceBelow(before, m, i);
        UpdateIfNecessary(sources[m][i]);
        SettlesWider(before, Now(), before.sources[m][i] + 1, m);
        SettlesKeepsClean(start, before, m);
        SettlesKeepsClean(before, Now(), m);
        LawfulWider(before, Now(), ran, history, before.sources[m][i] + 1, m, -1);
        LawfulTwice(start, before, Now(), old(history), ran, history, m, -1, mark);
        EffectsWaitWider(before, Now(), before.sources[m][i], m);
        EffectsWaitTwice(start, before, Now(), m);
        SettlesTwice(start, before, Now(), m);
        SettlesAt(before, Now(), m, m);
        if state[m] == Dirty { return; }
        StillClean(before, Now(), m, i);
        i := i + 1;
      }
      CheckedReady(Now(), m);
    }

    /** Reruns a reaction and records its dependencies anew. */
    method Update(m: nat)
      requires Inv(Now()) && Once(state, history, mark) && Sized(Now())
      requires m < |kinds| && state[m] == Dirty && !kinds[m].Signal?
      modifies this`value, this`state, this`sources, this`observers, this`outcome, this`history
      ensures Inv(Now()) && OnceBut(state, history, mark, m) && old(history) < history && Sized(Now())
      ensures Settles(old(Now()), Now(), m + 1) && state[m] == Dirty && Ready(Now(), m)
      ensures EffectsWait(old(Now()), Now(), m)
      ensures LawfulBut(old(Now()), Now(), old(history), history, m + 1, m)
      decreases m, 1
    {
      hide Inv, Settles, OnceEach, OnceBut, Ready, Runs, EffectsWait, LawfulBut;
      ghost var start := Now();
      DetachedKeeps(start, m);
      DetachedLawful(start, m, history);
      EdgesInRange(start, m);
      Detach(m);
      ghost var detached := Now();
      assert detached == Detached(start, m);
      var next := RunReaction(m);
      ghost var ran := Now();
      SettlesTwice(start, detached, ran, m + 1);
      RanLawful(start, detached, ran, old(history), history, m, mark);
      ReturnedKeeps(ran, m, next);
      ReturnedReady(ran, m, next);
      ReturnedLawful(start, ran, old(history), history, m, next);
      ReactionWaits(start, m, ran, next);
      EdgesInRange(ran, m);
      outcome := outcome[m := next];
      if kinds[m].Computed? && next != value[m] {
        value := value[m := next];
        MarkObservers(m);
      }
      assert Now() == Returned(ran, m, next);
      SettlesTwice(start, ran, Now(), m + 1);
      OnceButSettles(ran, Now(), m + 1, history, mark, m);
    }

    method Detach(m: nat)
      requires m < |sources| && (forall s :: s in sources[m] ==> s < |observers|)
      modifies this`sources, this`observers
      ensures sources == old(sources)[m := []] && observers == Unobserved(old(observers), old(sources)[m], m)
    {
      var i := 0;
      while i < |sources[m]|
        invariant sources == old(sources) && i <= |sources[m]|
        invariant observers == Unobserved(old(observers), sources[m][..i], m)
      {
        var s := sources[m][i];
        assert s in sources[m];
        UnobservedMore(old(observers), sources[m], i, m);
        observers := observers[s := Without(observers[s], m)];
        i := i + 1;
      }
      assert sources[m][..i] == sources[m];
      sources := sources[m := []];
    }

    method MarkObservers(m: nat)
      requires m < |observers| && (forall o :: o in observers[m] ==> o < |state|)
      modifies this`state
      ensures state == Stale(old(state), observers[m])
    {
      var i := 0;
      while i < |observers[m]|
        invariant i <= |observers[m]| && state == Stale(old(state), observers[m][..i])
      {
        assert observers[m][i] in observers[m];
        StaleMore(old(state), observers[m], i);
        state := state[observers[m][i] := Dirty];
        i := i + 1;
      }
      assert observers[m][..i] == observers[m];
    }

    /** Calls the function of `m`: every read is tracked and brings its source up to date. */
    method RunReaction(m: nat) returns (v: Value)
      requires Inv(Now()) && Once(state, history, mark) && Sized(Now())
      requires m < |kinds| && state[m] == Dirty && !kinds[m].Signal? && sources[m] == []
      modifies this`value, this`state, this`sources, this`observers, this`outcome, this`history
      ensures Inv(Now()) && OnceBut(state, history, mark, m) && old(history) < history
      ensures Sized(Now()) && AllRanked(kinds)
      ensures Settles(old(Now()), Now(), m + 1) && state[m] == Dirty && EffectsWait(old(Now()), Now(), m)
      ensures LawfulBut(old(Now()), Now(), old(history), history, m + 1, m) && value[m] == old(value[m])
      ensures Runs(kinds[m].p, m, [], value, []) == (sources[m], v)
      ensures forall s :: s in sources[m] ==> s < |state| && state[s] == Clean
      decreases m, 0
    {
      hide Inv, Settles, OnceEach, OnceBut, Ready, Runs, Follows, Collected, Ranked, LawfulBut, CleanKept,
           EffectsWait;
      ghost var start := Now();
      InvSized(start);
      SettlesSelf(start, m + 1);
      LawfulSelf(start, history, m + 1, m);
      SettlesKeepsClean(start, start, m + 1);
      WaitSelf(start, m);
      var p := kinds[m].p;
      var h: seq<Value> := [];
      ghost var ss: seq<nat> := [];
      FollowsNone(p, value);
      while p.next(h).Read?
        invariant Inv(Now()) && Once(state, history, mark) && old(history) <= history
        invariant Sized(Now()) && AllRanked(kinds)
        invariant Settles(start, Now(), m + 1) && state[m] == Dirty && EffectsWait(start, Now(), m)
        invariant LawfulBut(start, Now(), old(history), history, m + 1, m) && value[m] == start.value[m]
        invariant CleanKept(start, Now())
        invariant Follows(p, ss, h, value) && sources[m] == Collected(ss)
        invariant forall i :: 0 <= i < |ss| ==> ss[i] < m && state[ss[i]] == Clean
        decreases p.left(h)
      {
        ghost var before, ran := Now(), history;
        var s := p.next(h).src;
        RankedRead(p, kinds, m, h);
        EdgeKeeps(before, m, s);
        ghost var linked := Edge(before, m, s);
        var x := Fetch(s, Some(m));
        ReadSettles(before, linked, Now(), m, s);
        LawfulRead(start, before, Now(), old(history), ran, history, m, s, mark);
        EffectsWaitWider(before, Now(), s, m);
        EffectsWaitTwice(start, before, Now(), m);
        SettlesTwice(start, before, Now(), m + 1);
        FollowsKept(p, ss, h, before, Now(), m + 1);
        FollowsMore(p, ss, h, value, s);
        RankedLess(p, kinds, m, h, x);
        h := h + [x];
        ss := ss + [s];
      }
      v := p.next(h).value;
      CalledLawful(start, Now(), old(history), history, m, mark);
      history := history + [m];
      FollowsRuns(p, m, ss, h, value);
      RunsDone(p, m, h, value, Collected(ss));
      CollectedIs(ss);
    }

    // -------------------------------------------------------------- the public operations

    /** Between operations.  The queue is exact, and empty outside a batch; inside one, no effect has run
        since it began. */
    ghost predicate Valid()
      reads this
    {
      && Inv(Now()) && Once(state, history, mark)
      && Queued(kinds, state, pendingEffects) && (batchDepth == 0 ==> pendingEffects == [])
      && (batchDepth > 0 ==> NoEffects(kinds, history, since))
    }

    /** Reading a signal or a computed: never a glitch, whatever has been written before.  What is clean
        is not computed again, and is clean after one reading. */
    method Read(n: nat) returns (v: Value)
      requires Valid() && n < |kinds| && !kinds[n].Effect?
      modifies this`value, this`state, this`sources, this`observers, this`outcome, this`history
      ensures Valid() && old(history) <= history && AllRanked(kinds) && |value| == |kinds|
      ensures SameSignals(kinds, old(value), value)
      ensures v == Truth(kinds, value, n) && state[n] == Clean
      ensures old(state[n]) == Clean ==> Now() == old(Now()) && history == old(history)
      ensures Lawful(old(Now()), Now(), old(history), history, n + 1)
    {
      hide Inv, Settles, OnceEach, Queued, GroundsBut, RanBelow, NoEffects;
      ghost var start := Now();
      v := Fetch(n, None);
      SettlesValues(start, Now(), n + 1);
      QueuedSettles(start, Now(), n + 1, n, pendingEffects);
      InvSized(Now());
      CleanIsTrue(Now(), n);
      if batchDepth > 0 {
        NoEffectRan(start, Now(), old(history), history, n, mark);
        NoEffectsYet(kinds, old(history), history, since);
      }
    }

    /** Writing a signal.  A write of the value it has does nothing at all.  In a batch nothing is run;
        outside one, every effect has been brought up to date on return. */
    method Set(n: nat, v: Value)
      requires Valid() && n < |kinds| && kinds[n].Signal?
      modifies this`value, this`state, this`sources, this`observers, this`outcome, this`history, this`pendingEffects,
          this`mark
      ensures Valid() && |value| == |kinds| && value[n] == v && Sized(old(Now())) && old(history) <= history
      ensures SameSignals(kinds, old(value)[n := v], value)
      ensures v == old(value)[n] ==>
        Now() == old(Now()) && history == old(history) && pendingEffects == old(pendingEffects)
      ensures batchDepth > 0 ==>
        && Now() == old(Now()).(value := old(value)[n := v], state := state) && history == old(history)
        && old(pendingEffects) <= pendingEffects
      ensures Grounds(old(Now()), Now(), old(history), history)
      ensures (forall e :: 0 <= e < |kinds| ==> !kinds[e].Effect?) ==> history == old(history)
    {
      hide Inv, Settles, OnceEach, Queued, Current, Alerted, Formed, GroundsBut, NoneIdle, RanBelow;
      InvSized(Now());
      ghost var was := Now();
      GroundsSelf(was, history, -1);
      if v == value[n] { return; }
      ghost var start := Now();
      WriteBegins(start, n, v);
      value := value[n := v];
      mark := |history|;
      MarkAll(n);
      ghost var marked := Now();
      OnceNow(state, history);
      WrittenGrounds(was, n, v, marked, history);
      NoEffectQueued(kinds, state, pendingEffects);
      Flush();
      GroundsAfter(was, marked, Now(), old(history), history);
    }

    /** Marks the direct observers of a signal that has just been written. */
    method MarkAll(n: nat)
      requires Formed(Now()) && Alerted(Now(), {}) && n < |kinds| && |observers| == |kinds|
      requires Current(Now(), Members(observers[n])) && Queued(kinds, state, pendingEffects)
      modifies this`state, this`pendingEffects
      ensures Inv(Now()) && Queued(kinds, state, pendingEffects) && old(pendingEffects) <= pendingEffects
      ensures OnlyReaders(old(state), state, observers[n])
    {
      hide Inv, Queued, Current, Alerted, Formed, Staler, OnlyReaders;
      var i := 0;
      FormedSized(Now());
      OnlySelf(state, observers[n]);
      assert observers[n][0..] == observers[n];
      while i < |observers[n]|
        invariant Formed(Now()) && Alerted(Now(), {}) && i <= |observers[n]|
        invariant Current(Now(), Members(observers[n][i..])) && Queued(kinds, state, pendingEffects)
        invariant old(pendingEffects) <= pendingEffects && OnlyReaders(old(state), state, observers[n])
      {
        ghost var before := Now();
        ObserverReacts(before, n, i);
        MarkStale(observers[n][i], Dirty, {});
        OnlyMore(old(state), before.state, state, observers[n], i);
        MarkedCurrent(before, Now(), n, i);
        i := i + 1;
      }
      assert Members(observers[n][i..]) == {};
      InvParts(Now());
    }

    /** `markStale`: a node only ever moves to a staler colour, and stops where it is already as stale.
        `open` are the nodes whose observers are still being marked further up. */
    method MarkStale(n: nat, c: Color, ghost open: set<nat>)
      requires Formed(Now()) && Alerted(Now(), open) && n < |kinds| && !kinds[n].Signal? && c != Clean
      requires Queued(kinds, state, pendingEffects)
      modifies this`state, this`pendingEffects
      ensures Formed(Now()) && Alerted(Now(), open) && Queued(kinds, state, pendingEffects)
      ensures Staler(old(state), state, n, c) && old(pendingEffects) <= pendingEffects
      decreases |kinds| - n
    {
      hide Queued, Alerted, Formed, AllRanked, Staler, NoneClean;
      ghost var start := Now();
      FormedSized(start);
      MarkBegins(start, n, c, open);
      if Level(state[n]) >= Level(c) { return; }
      var wasClean := state[n] == Clean;
      QueuedMarked(kinds, state, pendingEffects, n, c);
      state := state[n := c];
      if wasClean && kinds[n].Effect? {
        pendingEffects := pendingEffects + [n];
      }
      var i := 0;
      while i < |observers[n]|
        invariant Formed(Now()) && Alerted(Now(), open + {n}) && Queued(kinds, state, pendingEffects)
        invariant Staler(start.state, state, n, c) && |observers| == |kinds| == |state|
        invariant i <= |observers[n]| && NoneClean(observers[n], i, state)
        invariant old(pendingEffects) <= pendingEffects
        decreases |observers[n]| - i
      {
        ghost var before := Now();
        ObserverReacts(before, n, i);
        MarkStale(observers[n][i], Check, open + {n});
        StalerTwice(start.state, before.state, state, n, c, observers[n], i);
        i := i + 1;
      }
      MarkEnds(Now(), n, open);
    }

    /** `flush`: outside a batch, runs what is queued until nothing is; in a batch it does nothing. */
    method Flush()
      requires Inv(Now()) && Once(state, history, mark) && Queued(kinds, state, pendingEffects)
      requires batchDepth > 0 ==> NoEffects(kinds, history, since)
      modifies this`value, this`state, this`sources, this`observers, this`outcome, this`history, this`pendingEffects
      ensures Valid() && old(history) <= history && |value| == |kinds| && |old(value)| == |kinds|
      ensures SameSignals(kinds, old(value), value)
      ensures batchDepth > 0 || old(pendingEffects) == [] ==>
        Now() == old(Now()) && history == old(history) && pendingEffects == old(pendingEffects)
      ensures Lawful(old(Now()), Now(), old(history), history, |kinds|) && CleanKept(old(Now()), Now())
    {
      hide Inv, Settles, OnceEach, Queued, GroundsBut, NoneIdle, RanBelow;
      InvSized(Now());
      ghost var start := Now();
      LawfulSelf(start, history, |kinds|, -1);
      SettlesSelf(start, 0);
      SettlesKeepsClean(start, start, 0);
      if batchDepth > 0 { return; }
      while |pendingEffects| > 0
        invariant Inv(Now()) && Once(state, history, mark) && Queued(kinds, state, pendingEffects)
        invariant |value| == |kinds| && SameSignals(kinds, old(value), value) && old(history) <= history
        invariant Lawful(start, Now(), old(history), history, |kinds|) && CleanKept(start, Now())
        invariant old(pendingEffects) == [] ==> Now() == start && history == old(history) && pendingEffects == []
        decreases |pendingEffects|
      {
        var effects := pendingEffects;
        pendingEffects := [];
        ghost var before, ran := Now(), history;
        RunEffects(effects);
        SameSignalsTwice(kinds, old(value), before.value, value);
        CleanKeptTwice(start, before, Now());
        LawfulTwice(start, before, Now(), old(history), ran, history, |kinds|, -1, mark);
      }
    }

    method RunEffects(effects: seq<nat>)
      requires Inv(Now()) && Once(state, history, mark) && Queued(kinds, state, effects)
      modifies this`value, this`state, this`sources, this`observers, this`outcome, this`history
      ensures Inv(Now()) && Once(state, history, mark) && Queued(kinds, state, []) && old(history) <= history
      ensures |value| == |kinds| && |old(value)| == |kinds| && SameSignals(kinds, old(value), value)
      ensures Lawful(old(Now()), Now(), old(history), history, |kinds|) && CleanKept(old(Now()), Now())
    {
      hide Inv, Settles, OnceEach, Queued, GroundsBut, NoneIdle, RanBelow, CleanKept;
      InvSized(Now());
      ghost var start := Now();
      LawfulSelf(start, history, |kinds|, -1);
      SettlesSelf(start, 0);
      SettlesKeepsClean(start, start, 0);
      var i := 0;
      assert effects[0..] == effects;
      while i < |effects|
        invariant Inv(Now()) && Once(state, history, mark) && i <= |effects| && Queued(kinds, state, effects[i..])
        invariant old(history) <= history && Sized(Now())
        invariant SameSignals(kinds, old(value), value)
        invariant Lawful(start, Now(), old(history), history, |kinds|) && CleanKept(start, Now())
      {
        ghost var before, ran := Now(), history;
        var e := effects[i];
        QueuedEffect(kinds, state, effects, i);
        if state[e] != Clean {
          UpdateIfNecessary(e);
          SettlesValues(before, Now(), e + 1);
          SameSignalsTwice(kinds, old(value), before.value, value);
          QueuedRun(before, Now(), e + 1, e, effects[i..], 0);
          assert effects[i..][..0] + effects[i..][1..] == effects[i + 1..];
          SettlesKeepsClean(before, Now(), e + 1);
          CleanKeptTwice(start, before, Now());
          LawfulWider(before, Now(), ran, history, e + 1, |kinds|, -1);
          LawfulTwice(start, before, Now(), old(history), ran, history, |kinds|, -1, mark);
        }
        i := i + 1;
      }
      assert effects[i..] == [];
    }

    method BeginBatch()
      requires Valid()
      modifies this`batchDepth, this`since
      ensures Valid() && batchDepth == old(batchDepth) + 1
      ensures since == if old(batchDepth) == 0 then |history| else old(since)
    {
      if batchDepth == 0 { since := |history|; }
      batchDepth := batchDepth + 1;
    }

    /** Closing the outermost batch runs each queued effect once, after all the writes: none has run since
        the batch began, and none runs twice now. */
    method EndBatch()
      requires Valid() && batchDepth > 0
      modifies this`value, this`state, this`sources, this`observers, this`outcome, this`history, this`pendingEffects,
          this`batchDepth
      ensures Valid() && batchDepth == old(batchDepth) - 1 && old(history) <= history
      ensures |value| == |kinds| && |old(value)| == |kinds| && SameSignals(kinds, old(value), value)
      ensures batchDepth > 0 ==>
        Now() == old(Now()) && history == old(history) && pendingEffects == old(pendingEffects)
      ensures NoEffects(kinds, old(history), since) && EffectsOnce(kinds, history, since)
      ensures Lawful(old(Now()), Now(), old(history), history, |kinds|)
    {
      hide Inv, OnceEach, Queued, NoEffects, Lawful, EffectsOnce;
      batchDepth := batchDepth - 1;
      Flush();
      EffectsRanOnce(kinds, state, old(history), history, since, mark);
    }

    // -------------------------------------------------------------- creation

    method NewSignal(v: Value) returns (n: nat)
      requires Valid()
      modifies this`kinds, this`value, this`state, this`sources, this`observers, this`outcome
      ensures Valid() && n == |old(kinds)| && kinds == old(kinds) + [Signal] && value == old(value) + [v]
      ensures state == old(state) + [Clean] && sources == old(sources) + [[]] && observers == old(observers) + [[]]
    {
      hide Inv, Once, Queued, NoEffects;
      n := Append(Signal, v, Clean);
    }

    /** A computed is dirty until it is first read. */
    method NewComputed(p: Prog) returns (n: nat)
      requires Valid() && Ranked(p, |kinds|) && NoEffectRead(p, kinds)
      modifies this`kinds, this`value, this`state, this`sources, this`observers, this`outcome
      ensures Valid() && n == |old(kinds)| && kinds == old(kinds) + [Computed(p)] && value == old(value) + [undef]
      ensures state == old(state) + [Dirty] && sources == old(sources) + [[]] && observers == old(observers) + [[]]
    {
      hide Inv, Once, Queued, Ranked, NoEffectRead, NoEffects;
      n := Append(Computed(p), undef, Dirty);
    }

    /** An effect runs at once, or is queued inside a batch. */
    method NewEffect(p: Prog) returns (n: nat)
      requires Valid() && Ranked(p, |kinds|) && NoEffectRead(p, kinds)
      modifies this`kinds, this`value, this`state, this`sources, this`observers, this`outcome, this`history,
          this`pendingEffects
      ensures Valid() && n == |old(kinds)| && kinds == old(kinds) + [Effect(p)] && old(history) <= history
      ensures |value| == |kinds| && |old(value)| == n && SameSignals(old(kinds), old(value), value)
      ensures if batchDepth > 0
              then history == old(history) && value == old(value) + [undef] &&
                    pendingEffects == old(pendingEffects) + [n]
              else pendingEffects == [] && |state| == |kinds| && state[n] == Clean && Ran(old(history), history, n)
    {
      hide Inv, OnceEach, Queued, Ranked, NoEffectRead, Settles, Lawful, NoEffects;
      InvSized(Now());
      n := Enqueued(p);
      ghost var start := Now();
      if batchDepth > 0 {
        NoEffectsGrow(old(kinds), kinds, history, since);
        pendingEffects := pendingEffects + [n];
      } else {
        UpdateIfNecessary(n);
        SettlesValues(start, Now(), n + 1);
        ghost var k := |pendingEffects|;
        QueuedRun(start, Now(), n + 1, n, pendingEffects + [n], k);
        assert (pendingEffects + [n])[..k] + (pendingEffects + [n])[k + 1..] == pendingEffects;
      }
    }

    /** The node of an effect, before it is queued or run. */
    method Enqueued(p: Prog) returns (n: nat)
      requires Inv(Now()) && Once(state, history, mark) && Queued(kinds, state, pendingEffects)
      requires Ranked(p, |kinds|) && NoEffectRead(p, kinds)
      modifies this`kinds, this`value, this`state, this`sources, this`observers, this`outcome
      ensures Inv(Now()) && Once(state, history, mark) && Queued(kinds, state, pendingEffects + [n])
      ensures n == |old(kinds)| && kinds == old(kinds) + [Effect(p)] && value == old(value) + [undef]
      ensures |state| == |kinds| && state[n] == Dirty
    {
      hide Inv, OnceEach, Queued, Ranked, NoEffectRead;
      InvSized(Now());
      AppendKeeps(Now(), Effect(p), undef, Dirty);
      OnceAppend(state, history[mark..], Dirty);
      QueuedAppend(kinds, state, pendingEffects, Effect(p), Dirty);
      n := |kinds|;
      kinds, value, state := kinds + [Effect(p)], value + [undef], state + [Dirty];
      sources, observers, outcome := sources + [[]], observers + [[]], outcome + [undef];
    }

    method Append(kind: Kind, v: Value, color: Color) returns (n: nat)
      requires Valid() && !kind.Effect? && color == (if kind.Signal? then Clean else Dirty)
      requires kind.Computed? ==> Ranked(kind.p, |kinds|) && NoEffectRead(kind.p, kinds)
      modifies this`kinds, this`value, this`state, this`sources, this`observers, this`outcome
      ensures Valid() && n == |old(kinds)| && kinds == old(kinds) + [kind] && value == old(value) + [v]
      ensures state == old(state) + [color] && sources == old(sources) + [[]] && observers == old(observers) + [[]]
    {
      hide Inv, OnceEach, Queued, Ranked, NoEffectRead, NoEffects;
      InvSized(Now());
      if batchDepth > 0 { NoEffectsGrow(kinds, kinds + [kind], history, since); }
      AppendKeeps(Now(), kind, v, color);
      OnceAppend(state, history[mark..], color);
      QueuedAppend(kinds, state, pendingEffects, kind, color);
      n := |kinds|;
      kinds, value, state := kinds + [kind], value + [v], state + [color];
      sources, observers, outcome := sources + [[]], observers + [[]], outcome + [v];
    }
  }

  lemma StillClean(a: Net, b: Net, m: nat, i: nat)
    requires Settles(a, b, m) && m < |a.kinds| && i < |a.sources[m]| && b.sources[m] == a.sources[m]
    requires forall j :: 0 <= j < i ==> a.sources[m][j] < m && a.state[a.sources[m][j]] == Clean
    requires a.sources[m][i] < m && b.state[a.sources[m][i]] == Clean
    ensures forall j :: 0 <= j < i + 1 ==> b.sources[m][j] < m && b.state[b.sources[m][j]] == Clean
  {}

  lemma UnobservedMore(observers: seq<seq<nat>>, ss: seq<nat>, i: nat, m: nat)
    requires i < |ss| && ss[i] < |observers|
    ensures Unobserved(observers, ss[..i + 1], m) ==
      Unobserved(observers, ss[..i], m)[ss[i] := Without(Unobserved(observers, ss[..i], m)[ss[i]], m)]
  {
    assert ss[..i + 1] == ss[..i] + [ss[i]];
    WithoutTwice(observers[ss[i]], m);
  }

  lemma {:induction false} WithoutTwice(acc: seq<nat>, s: nat)
    ensures Without(Without(acc, s), s) == Without(acc, s)
  {
    if acc != [] { WithoutTwice(acc[1..], s); }
  }

  lemma StaleMore(state: seq<Color>, os: seq<nat>, i: nat)
    requires i < |os| && os[i] < |state|
    ensures Stale(state, os[..i + 1]) == Stale(state, os[..i])[os[i] := Dirty]
  {
    assert os[..i + 1] == os[..i] + [os[i]];
  }

  lemma FollowsNone(p: Prog, value: seq<Value>)
    ensures Follows(p, [], [], value) && Collected([]) == []
  {}

  lemma RankedRead(p: Prog, kinds: seq<Kind>, n: nat, h: seq<Value>)
    requires n < |kinds| && AllRanked(kinds) && !kinds[n].Signal? && p == kinds[n].p && p.next(h).Read?
    ensures p.next(h).src < n && !kinds[p.next(h).src].Effect?
  {
    assert Ranked(p, n) && NoEffectRead(p, kinds[..n]);
  }

  lemma RankedLess(p: Prog, kinds: seq<Kind>, n: nat, h: seq<Value>, v: Value)
    requires n < |kinds| && AllRanked(kinds) && !kinds[n].Signal? && p == kinds[n].p && p.next(h).Read?
    ensures p.left(h + [v]) < p.left(h)
  {
    assert Ranked(p, n) && NoEffectRead(p, kinds[..n]);
  }

  lemma RunsDone(p: Prog, n: nat, h: seq<Value>, value: seq<Value>, acc: seq<nat>)
    requires Ranked(p, n) && n <= |value| && p.next(h).Return?
    ensures Runs(p, n, h, value, acc) == (acc, p.next(h).value)
  {}

  /** One tracked read, seen from the reaction that makes it. */
  lemma ReadSettles(before: Net, linked: Net, after: Net, m: nat, s: nat)
    requires Settles(before, linked, m + 1) && Settles(linked, after, s + 1) && s < m < |before.kinds|
    requires Sized(before) && linked == Edge(before, m, s) && before.state[m] == Dirty
    ensures Settles(before, after, m + 1) && after.state[m] == Dirty
    ensures after.sources[m] == Add(before.sources[m], s)
  {
    SettlesWider(linked, after, s + 1, m + 1);
    SettlesTwice(before, linked, after, m + 1);
    SettlesAt(linked, after, s + 1, m);
  }

  lemma FollowsKept(p: Prog, ss: seq<nat>, h: seq<Value>, a: Net, b: Net, lim: nat)
    requires Settles(a, b, lim) && Follows(p, ss, h, a.value)
    requires forall i :: 0 <= i < |ss| ==> ss[i] < |a.kinds| && a.state[ss[i]] == Clean
    ensures Follows(p, ss, h, b.value)
    ensures forall i :: 0 <= i < |ss| ==> b.state[ss[i]] == Clean
  {
    FollowsStill(p, ss, h, a.value, b.value);
  }

  // ---------------------------------------------------------------- what always holds

  /** Outside a batch, what every effect last did is what it would do now. */
  lemma EffectsAreCurrent(g: Graph, e: nat)
    requires g.Valid() && g.batchDepth == 0 && e < |g.kinds| && g.kinds[e].Effect?
    ensures Sized(g.Now()) && AllRanked(g.kinds) && g.outcome[e] == Truth(g.kinds, g.value, e)
  {
    hide Inv;
    InvSized(g.Now());
    CleanIsTrue(g.Now(), e);
  }

  /** Throughout, a node that is not clean has only observers that are not clean. */
  lemma StalenessIsKnown(g: Graph, n: nat, o: nat)
    requires g.Valid() && Sized(g.Now()) && n < |g.kinds| && g.state[n] != Clean && o in g.observers[n]
    ensures o < |g.kinds| && g.state[o] != Clean
  {}
}
