/** The thread pool of `CPP-WorkStealing/include/workstealing.hpp` never gets stuck: every task takes
    five steps from its announcement to its completion, in whatever order the threads move, and as
    long as one is outstanding some thread has its next step. */
module WorkStealingDrain {
  import opened WorkStealingDeque
  import opened WorkStealingPool

  function Sum(ns: seq<nat>): nat {
    if ns == [] then 0 else Sum(ns[..|ns| - 1]) + ns[|ns| - 1]
  }

  lemma {:induction false} SumUpdate(ns: seq<nat>, i: nat, n: nat)
    requires i < |ns|
    ensures Sum(ns[i := n]) + ns[i] == Sum(ns) + n
  {
    var m := |ns| - 1;
    if i == m {
      assert ns[i := n][..m] == ns[..m];
    } else {
      SumUpdate(ns[..m], i, n);
      assert ns[i := n][..m] == ns[..m][i := n];
    }
  }

  lemma {:induction false} SumOfNothing(ns: seq<nat>)
    ensures Sum(ns) == 0 <==> forall i :: 0 <= i < |ns| ==> ns[i] == 0
  {
    if ns != [] {
      SumOfNothing(ns[..|ns| - 1]);
      assert forall i :: 0 <= i < |ns| - 1 ==> ns[..|ns| - 1][i] == ns[i];
    }
  }

  /** The steps a thread has yet to take, with those of the task it is about to queue. */
  function StepsAhead(t: Thread): nat {
    match t
    case Free => 0
    case Submitting(_) => 4
    case Running(_) => 2
    case Spawning(_, _) => 6
    case Finished(_) => 1
  }

  function Lengths(ds: seq<seq<Task>>): (r: seq<nat>)
    ensures |r| == |ds|
  {
    seq(|ds|, i requires 0 <= i < |ds| => |ds[i]|)
  }

  function Aheads(ts: seq<Thread>): (r: seq<nat>)
    ensures |r| == |ts|
  {
    seq(|ts|, i requires 0 <= i < |ts| => StepsAhead(ts[i]))
  }

  /** The steps the pool has yet to take for the tasks announced so far: three for each queued one. */
  function Remaining(s: Pool): nat {
    3 * |s.global| + 3 * Sum(Lengths(s.deques)) + Sum(Aheads(s.threads))
  }

  lemma LengthChanged(s: Pool, v: nat, q: seq<Task>)
    requires v < |s.deques|
    ensures Sum(Lengths(s.deques[v := q])) + |s.deques[v]| == Sum(Lengths(s.deques)) + |q|
  {
    SumUpdate(Lengths(s.deques), v, |q|);
    assert Lengths(s.deques[v := q]) == Lengths(s.deques)[v := |q|];
  }

  lemma AheadChanged(s: Pool, k: nat, t: Thread)
    requires k < |s.threads|
    ensures Sum(Aheads(s.threads[k := t])) + StepsAhead(s.threads[k]) == Sum(Aheads(s.threads)) + StepsAhead(t)
  {
    SumUpdate(Aheads(s.threads), k, StepsAhead(t));
    assert Aheads(s.threads[k := t]) == Aheads(s.threads)[k := StepsAhead(t)];
  }

  /** A submission brings five steps and is the first of them; every other step is one of those. */
  lemma StepCounts(s: Pool, a: Act, s': Pool)
    requires PoolStep(s, a, s')
    ensures Remaining(s') + 1 == Remaining(s) + if a.Submits? then 5 else 0
  {
    hide Sum, Lengths, Aheads;
    var k: nat :| k < |s.threads| && (EnqueueStep(s, k, a, s') || RunStep(s, k, a, s'));
    if EnqueueStep(s, k, a, s') {
      AheadChanged(s, k, s'.threads[k]);
      if s.threads[k].Spawning? { LengthChanged(s, k, s.deques[k] + [s.threads[k].x]); }
    } else if s.threads[k].Free? {
      FetchCounts(s, k, s');
    } else {
      AheadChanged(s, k, s'.threads[k]);
    }
  }

  lemma FetchCounts(s: Pool, k: nat, s': Pool)
    requires k < |s.threads| && s.threads[k].Free? && RunStep(s, k, Quiet, s')
    ensures Remaining(s') + 1 == Remaining(s)
  {
    hide Sum, Lengths, Aheads;
    var q := s.deques[k];
    if PopsOwn(s, k, s') {
      AheadChanged(s, k, s'.threads[k]);
      LengthChanged(s, k, q[..|q| - 1]);
    } else if TakesGlobal(s, k, s') {
      AheadChanged(s, k, s'.threads[k]);
    } else {
      var v: nat :| Steals(s, k, v, s');
      AheadChanged(s, k, s'.threads[k]);
      LengthChanged(s, v, s.deques[v][1..]);
    }
  }

  lemma NothingAhead(s: Pool)
    ensures Remaining(s) == 0 <==> WorkStealingPool.Idle(s)
  {
    SumOfNothing(Lengths(s.deques));
    SumOfNothing(Aheads(s.threads));
    hide Sum;
    if Remaining(s) == 0 {
      forall i | 0 <= i < |s.deques| ensures s.deques[i] == [] { assert Lengths(s.deques)[i] == 0; }
      forall k | 0 <= k < |s.threads| ensures s.threads[k] == Free { assert Aheads(s.threads)[k] == 0; }
    }
  }

  /** In every run, whatever the order: five steps for each task, less those yet to come. */
  lemma {:induction false} FiveStepsEach(states: seq<Pool>, acts: seq<Act>, n: nat)
    requires IsPoolRun(states, acts) && n <= |acts|
    ensures n + Remaining(states[n]) == 5 * |Submitted(acts[..n])|
  {
    hide Remaining, PoolStep;
    if n == 0 {
      StartsIdle(states[0]);
      NothingAhead(states[0]);
    } else {
      FiveStepsEach(states, acts, n - 1);
      assert PoolStep(states[n - 1], acts[n - 1], states[n]);
      StepCounts(states[n - 1], acts[n - 1], states[n]);
      assert acts[..n][..n - 1] == acts[..n - 1];
    }
  }

  lemma StartsIdle(s: Pool)
    requires Started(s)
    ensures WorkStealingPool.Idle(s)
  {}

  // ---------------------------------------------------------------- some thread can always move

  /** Only workers run tasks. */
  ghost predicate InPlace(s: Pool) {
    && |s.deques| <= |s.threads|
    && forall k: nat :: k < |s.threads| && !Worker(s, k) ==> s.threads[k].Free? || s.threads[k].Submitting?
  }

  lemma StaysInPlace(s: Pool, a: Act, s': Pool)
    requires InPlace(s) && PoolStep(s, a, s')
    ensures InPlace(s') && |s'.deques| == |s.deques| && |s'.threads| == |s.threads|
  {}

  lemma {:induction false} RunInPlace(states: seq<Pool>, acts: seq<Act>, n: nat)
    requires IsPoolRun(states, acts) && n <= |acts|
    ensures InPlace(states[n]) && |states[n].deques| == |states[0].deques|
  {
    hide PoolStep;
    if n > 0 {
      RunInPlace(states, acts, n - 1);
      hide InPlace;
      assert PoolStep(states[n - 1], acts[n - 1], states[n]);
      StaysInPlace(states[n - 1], acts[n - 1], states[n]);
    }
  }

  ghost predicate Queued(s: Pool) {
    s.global != [] || exists v: nat :: v < |s.deques| && s.deques[v] != []
  }

  /** A worker between tasks finds one exactly when some queue holds one: its own newest if it has any,
      and otherwise the oldest of another queue. */
  lemma FindsWork(s: Pool, k: nat)
    requires k < |s.threads| && Worker(s, k) && s.threads[k].Free?
    ensures (exists s' :: RunStep(s, k, Quiet, s')) <==> Queued(s)
  {
    if s.deques[k] != [] {
      var q := s.deques[k];
      var s' := s.(deques := s.deques[k := q[..|q| - 1]], threads := s.threads[k := Running(q[|q| - 1])]);
      assert PopsOwn(s, k, s');
      assert RunStep(s, k, Quiet, s');
    } else if s.global != [] {
      assert RunStep(s, k, Quiet, s.(global := s.global[1..], threads := s.threads[k := Running(s.global[0])]));
    } else if Queued(s) {
      var v: nat :| v < |s.deques| && s.deques[v] != [];
      var s' := s.(deques := s.deques[v := s.deques[v][1..]], threads := s.threads[k := Running(s.deques[v][0])]);
      assert Steals(s, k, v, s');
      assert RunStep(s, k, Quiet, s');
    }
  }

  lemma BusyMoves(s: Pool, k: nat) returns (a: Act, s': Pool)
    requires InPlace(s) && k < |s.threads| && !s.threads[k].Free?
    ensures PoolStep(s, a, s') && !a.Submits?
  {
    match s.threads[k]
    case Submitting(x) =>
      a, s' := Quiet, s.(global := s.global + [x], threads := s.threads[k := Free]);
      assert EnqueueStep(s, k, a, s');
    case Spawning(t, x) =>
      a, s' := Quiet, s.(deques := s.deques[k := s.deques[k] + [x]], threads := s.threads[k := Running(t)]);
      assert EnqueueStep(s, k, a, s');
    case Running(t) =>
      a, s' := Completes(t), s.(threads := s.threads[k := Finished(t)]);
      assert RunStep(s, k, a, s');
    case Finished(t) =>
      a, s' := Quiet, s.(pending := s.pending - 1, threads := s.threads[k := Free]);
      assert RunStep(s, k, a, s');
  }

  /** No deadlock: while the count is not zero some thread has a step that is no new submission, and
      that step leaves one fewer to come; so once nobody submits any more, `Remaining` steps later,
      whichever they are, the count is zero. */
  lemma NeverStuck(states: seq<Pool>, acts: seq<Act>) returns (a: Act, s': Pool)
    requires IsPoolRun(states, acts) && |states[0].deques| > 0 && states[|acts|].pending != 0
    ensures PoolStep(states[|acts|], a, s') && !a.Submits? && Remaining(s') == Remaining(states[|acts|]) - 1
  {
    hide PoolStep, RunStep, Started, Submitted, Completed, Remaining;
    var s := states[|acts|];
    IdleMeansDone(states, acts);
    RunInPlace(states, acts, |acts|);
    if exists k: nat :: k < |s.threads| && !s.threads[k].Free? {
      var k: nat :| k < |s.threads| && !s.threads[k].Free?;
      a, s' := BusyMoves(s, k);
    } else {
      assert s.threads[0].Free?;
      FindsWork(s, 0);
      a := Quiet;
      s' :| RunStep(s, 0, Quiet, s');
      Moves(s, 0, Quiet, s');
    }
    StepCounts(s, a, s');
  }

  lemma Moves(s: Pool, k: nat, a: Act, s': Pool)
    requires k < |s.threads| && RunStep(s, k, a, s')
    ensures PoolStep(s, a, s')
  {}

  /** With nothing left to come the count is zero, and only then. */
  lemma DrainedMeansDone(states: seq<Pool>, acts: seq<Act>)
    requires IsPoolRun(states, acts)
    ensures |acts| == 5 * |Submitted(acts)| <==> states[|acts|].pending == 0
  {
    hide PoolStep, Started, Submitted, Completed, Remaining;
    IdleMeansDone(states, acts);
    FiveStepsEach(states, acts, |acts|);
    assert acts[..|acts|] == acts;
    NothingAhead(states[|acts|]);
  }

  // ---------------------------------------------------------------- in which order

  /** A worker that spawns a task, ends its own and looks for the next runs the one it spawned, and its
      deque is as before. */
  lemma LastSpawnedFirst(s0: Pool, k: nat, s1: Pool, a: Act, s2: Pool, s3: Pool, s4: Pool)
    requires k < |s0.threads| && s0.threads[k].Spawning? && EnqueueStep(s0, k, Quiet, s1)
    requires k < |s1.threads| && RunStep(s1, k, a, s2) && k < |s2.threads| && RunStep(s2, k, Quiet, s3)
    requires k < |s3.threads| && RunStep(s3, k, Quiet, s4)
    ensures a == Completes(s0.threads[k].t) && s4.threads == s0.threads[k := Running(s0.threads[k].x)]
    ensures s4.deques == s0.deques && s4.global == s0.global && s4.pending == s0.pending - 1
  {
    var x, q := s0.threads[k].x, s0.deques[k];
    assert s3.deques[k] == q + [x] && Worker(s3, k);
    assert PopsOwn(s3, k, s4);
    assert (q + [x])[..|q + [x]| - 1] == q;
  }

  ghost predicate HandsOver(s: Pool, s': Pool, k: nat) {
    k < |s.threads| && k < |s'.threads| && s.threads[k].Submitting? && s'.threads[k].Free?
  }

  ghost predicate Begins(s: Pool, s': Pool, k: nat) {
    k < |s.threads| && k < |s'.threads| && s.threads[k].Free? && s'.threads[k].Running?
  }

  /** The task an outside thread hands over in this step. */
  ghost function HandedOver(s: Pool, s': Pool): seq<Task> {
    if exists k: nat :: HandsOver(s, s', k) then
      var k: nat :| HandsOver(s, s', k);
      [s.threads[k].x]
    else []
  }

  /** The task a worker begins in this step, if it comes from the global queue. */
  ghost function Drawn(s: Pool, s': Pool): seq<Task> {
    if s'.global != s.global && exists k: nat :: Begins(s, s', k) then
      var k: nat :| Begins(s, s', k);
      [s'.threads[k].t]
    else []
  }

  lemma DrawnInOrder(s: Pool, a: Act, s': Pool)
    requires PoolStep(s, a, s')
    ensures s.global + HandedOver(s, s') == Drawn(s, s') + s'.global
  {
    var k: nat :| k < |s.threads| && (EnqueueStep(s, k, a, s') || RunStep(s, k, a, s'));
    assert forall j: nat :: j < |s.threads| && j != k ==> s'.threads[j] == s.threads[j];
    assert forall j: nat :: HandsOver(s, s', j) || Begins(s, s', j) ==> j == k;
    if EnqueueStep(s, k, a, s') {
      assert HandsOver(s, s', k) <==> s.threads[k].Submitting?;
    } else if s.threads[k].Free? {
      assert Begins(s, s', k);
      if s.global != [] { assert s.global == [s.global[0]] + s.global[1..]; }
    }
  }

  ghost function AllHandedOver(states: seq<Pool>, n: nat): seq<Task>
    requires n < |states|
  {
    if n == 0 then [] else AllHandedOver(states, n - 1) + HandedOver(states[n - 1], states[n])
  }

  ghost function AllDrawn(states: seq<Pool>, n: nat): seq<Task>
    requires n < |states|
  {
    if n == 0 then [] else AllDrawn(states, n - 1) + Drawn(states[n - 1], states[n])
  }

  /** Tasks from outside begin in the order in which they were handed over. */
  lemma {:induction false} FirstInFirstOut(states: seq<Pool>, acts: seq<Act>, n: nat)
    requires IsPoolRun(states, acts) && n <= |acts|
    ensures AllHandedOver(states, n) == AllDrawn(states, n) + states[n].global
  {
    hide PoolStep;
    if n > 0 {
      FirstInFirstOut(states, acts, n - 1);
      assert PoolStep(states[n - 1], acts[n - 1], states[n]);
      DrawnInOrder(states[n - 1], acts[n - 1], states[n]);
      Regroup(AllDrawn(states, n - 1), states[n - 1].global, HandedOver(states[n - 1], states[n]),
              Drawn(states[n - 1], states[n]), states[n].global);
    }
  }

  lemma Regroup<T>(a: seq<T>, b: seq<T>, c: seq<T>, d: seq<T>, e: seq<T>)
    requires b + c == d + e
    ensures (a + b) + c == (a + d) + e
  {
    assert (a + b) + c == a + (b + c) == a + (d + e);
  }
}
