/** The thread pool of `CPP-WorkStealing/include/workstealing.hpp` over atomic deques, as
    `WorkStealingSafety.StepRefines` lets one see them: why a zero `pending_` means that every
    submitted task has run, however tasks spawn tasks. */
module WorkStealingPool {
  import opened WorkStealingDeque

  /** Where a thread is: between tasks, announcing a task, running one, or done with it. */
  datatype Thread =
    | Free
    | Submitting(x: Task)                     // an outside thread: counted, not yet queued
    | Running(t: Task)
    | Spawning(t: Task, x: Task)              // a running task: `x` counted, not yet queued
    | Finished(t: Task)                       // run, not yet counted off

  /** One deque for each worker; threads beyond the workers are outside ones. */
  datatype Pool = Pool(pending: int, global: seq<Task>, deques: seq<seq<Task>>, threads: seq<Thread>)

  datatype Act =
    | Quiet
    | Submits(x: Task)
    | Completes(t: Task)

  predicate Worker(s: Pool, k: nat) {
    k < |s.deques|
  }

  // ---------------------------------------------------------------- steps

  /** `enqueue`: count, then queue: on the worker's own deque, or on the global queue. */
  ghost predicate EnqueueStep(s: Pool, k: nat, a: Act, s': Pool) {
    k < |s.threads| &&
    match s.threads[k]
    case Free =>
      && !Worker(s, k) && a.Submits?
      && s' == s.(pending := s.pending + 1, threads := s.threads[k := Submitting(a.x)])
    case Submitting(x) =>
      a == Quiet && s' == s.(global := s.global + [x], threads := s.threads[k := Free])
    case Running(t) =>
      && a.Submits?
      && s' == s.(pending := s.pending + 1, threads := s.threads[k := Spawning(t, a.x)])
    case Spawning(t, x) =>
      && Worker(s, k) && a == Quiet
      && s' == s.(deques := s.deques[k := s.deques[k] + [x]], threads := s.threads[k := Running(t)])
    case Finished(_) => false
  }

  /** One turn of `run`: pop the newest own task; when there is none take the oldest global one, or
      steal the oldest of another worker, whichever the pool finds; run it; count it off.  A worker that
      found no own task gets none before its next turn, for nobody else pushes to its deque. */
  ghost predicate RunStep(s: Pool, k: nat, a: Act, s': Pool) {
    k < |s.threads| &&
    match s.threads[k]
    case Free =>
      && Worker(s, k) && a == Quiet
      && (PopsOwn(s, k, s') || TakesGlobal(s, k, s') || exists v: nat :: Steals(s, k, v, s'))
    case Running(t) =>
      a == Completes(t) && s' == s.(threads := s.threads[k := Finished(t)])
    case Finished(t) =>
      a == Quiet && s' == s.(pending := s.pending - 1, threads := s.threads[k := Free])
    case _ => false
  }

  ghost predicate PopsOwn(s: Pool, k: nat, s': Pool) {
    && k < |s.threads| && Worker(s, k) && s.deques[k] != []
    && var q := s.deques[k];
    s' == s.(deques := s.deques[k := q[..|q| - 1]], threads := s.threads[k := Running(q[|q| - 1])])
  }

  ghost predicate TakesGlobal(s: Pool, k: nat, s': Pool) {
    && k < |s.threads| && Worker(s, k) && s.deques[k] == [] && s.global != []
    && s' == s.(global := s.global[1..], threads := s.threads[k := Running(s.global[0])])
  }

  ghost predicate Steals(s: Pool, k: nat, v: nat, s': Pool) {
    && k < |s.threads| && Worker(s, k) && s.deques[k] == [] && v < |s.deques| && v != k && s.deques[v] != []
    && s' == s.(deques := s.deques[v := s.deques[v][1..]], threads := s.threads[k := Running(s.deques[v][0])])
  }

  ghost predicate PoolStep(s: Pool, a: Act, s': Pool) {
    exists k: nat :: k < |s.threads| && (EnqueueStep(s, k, a, s') || RunStep(s, k, a, s'))
  }

  ghost predicate Started(s: Pool) {
    && s.pending == 0 && s.global == [] && |s.deques| <= |s.threads|
    && (forall i :: 0 <= i < |s.deques| ==> s.deques[i] == [])
    && (forall k :: 0 <= k < |s.threads| ==> s.threads[k] == Free)
  }

  ghost predicate IsPoolRun(states: seq<Pool>, acts: seq<Act>) {
    && |states| == |acts| + 1 && Started(states[0])
    && forall i :: 0 <= i < |acts| ==> PoolStep(states[i], acts[i], states[i + 1])
  }

  // ---------------------------------------------------------------- who holds what

  function Total(ms: seq<multiset<Task>>): multiset<Task> {
    if ms == [] then multiset{} else Total(ms[..|ms| - 1]) + ms[|ms| - 1]
  }

  lemma {:induction false} TotalUpdate(ms: seq<multiset<Task>>, i: nat, m: multiset<Task>)
    requires i < |ms|
    ensures Total(ms[i := m]) + ms[i] == Total(ms) + m
  {
    var n := |ms| - 1;
    if i == n {
      assert ms[i := m][..n] == ms[..n];
      Swapped(Total(ms[..n]), m, ms[n]);
    } else {
      TotalUpdate(ms[..n], i, m);
      assert ms[i := m][..n] == ms[..n][i := m];
      Carried(Total(ms[..n][i := m]), ms[i], Total(ms[..n]), m, ms[n]);
    }
  }

  // Sums of multisets, rearranged.

  lemma Swapped<T>(a: multiset<T>, b: multiset<T>, c: multiset<T>)
    ensures (a + b) + c == (a + c) + b
  {}

  lemma Carried<T>(a: multiset<T>, x: multiset<T>, b: multiset<T>, y: multiset<T>, c: multiset<T>)
    requires a + x == b + y
    ensures (a + c) + x == (b + c) + y
  {
    Swapped(a, c, x);
    Swapped(b, c, y);
  }

  lemma NoneAdded<T>(a: multiset<T>)
    ensures a + multiset{} == a
  {}

  /** Three parts change; what leaves one may enter another. */
  lemma PartsChange<T>(g: multiset<T>, b: multiset<T>, h: multiset<T>, g': multiset<T>, b': multiset<T>,
      h': multiset<T>,
                       og: multiset<T>, ob: multiset<T>, oh: multiset<T>, ig: multiset<T>, ib: multiset<T>,
                           ih: multiset<T>,
                       out: multiset<T>, into: multiset<T>)
    requires g' + og == g + ig && b' + ob == b + ib && h' + oh == h + ih
    requires out + (ig + ib + ih) == into + (og + ob + oh)
    ensures (g' + b' + h') + out == (g + b + h) + into
  {
    forall t ensures ((g' + b' + h') + out)[t] == ((g + b + h) + into)[t] {
      assert (g' + og)[t] == (g + ig)[t] && (b' + ob)[t] == (b + ib)[t] && (h' + oh)[t] == (h + ih)[t];
      assert (out + (ig + ib + ih))[t] == (into + (og + ob + oh))[t];
    }
  }

  lemma {:induction false} TotalOfNothing(ms: seq<multiset<Task>>)
    requires forall i :: 0 <= i < |ms| ==> ms[i] == multiset{}
    ensures Total(ms) == multiset{}
  {
    if ms != [] { TotalOfNothing(ms[..|ms| - 1]); }
  }

  lemma {:induction false} TotalHolds(ms: seq<multiset<Task>>, i: nat)
    requires i < |ms| && Total(ms) == multiset{}
    ensures ms[i] == multiset{}
  {
    var n := |ms| - 1;
    assert forall t :: t in Total(ms[..n]) || t in ms[n] ==> t in Total(ms);
    if i < n { TotalHolds(ms[..n], i); }
  }

  function Bags(ds: seq<seq<Task>>): (r: seq<multiset<Task>>)
    ensures |r| == |ds|
  {
    seq(|ds|, i requires 0 <= i < |ds| => multiset(ds[i]))
  }

  function InHand(t: Thread): multiset<Task> {
    match t
    case Free => multiset{}
    case Submitting(x) => multiset{x}
    case Running(t) => multiset{t}
    case Spawning(t, x) => multiset{t, x}
    case Finished(t) => multiset{t}
  }

  function Hands(ts: seq<Thread>): (r: seq<multiset<Task>>)
    ensures |r| == |ts|
  {
    seq(|ts|, i requires 0 <= i < |ts| => InHand(ts[i]))
  }

  /** Every task announced and not yet counted off: queued, announced or in a worker's hands. */
  function Load(s: Pool): multiset<Task> {
    multiset(s.global) + Total(Bags(s.deques)) + Total(Hands(s.threads))
  }

  lemma DequeChanged(s: Pool, v: nat, q: seq<Task>)
    requires v < |s.deques|
    ensures Total(Bags(s.deques[v := q])) + multiset(s.deques[v]) == Total(Bags(s.deques)) + multiset(q)
  {
    TotalUpdate(Bags(s.deques), v, multiset(q));
    assert Bags(s.deques[v := q]) == Bags(s.deques)[v := multiset(q)];
  }

  lemma ThreadChanged(s: Pool, k: nat, t: Thread)
    requires k < |s.threads|
    ensures Total(Hands(s.threads[k := t])) + InHand(s.threads[k]) == Total(Hands(s.threads)) + InHand(t)
  {
    TotalUpdate(Hands(s.threads), k, InHand(t));
    assert Hands(s.threads[k := t]) == Hands(s.threads)[k := InHand(t)];
  }

  // ---------------------------------------------------------------- the count is right

  function SubmittedBy(a: Act): multiset<Task> {
    if a.Submits? then multiset{a.x} else multiset{}
  }

  function CompletedBy(a: Act): multiset<Task> {
    if a.Completes? then multiset{a.t} else multiset{}
  }

  /** A task counted off by this step: one its thread had finished. */
  function CountedOff(s: Pool, k: nat): multiset<Task>
    requires k < |s.threads|
  {
    if s.threads[k].Finished? then multiset{s.threads[k].t} else multiset{}
  }

  /** What goes out of and comes into the three parts of the load. */
  lemma LoadChanges(s: Pool, s': Pool, og: multiset<Task>, ob: multiset<Task>, oh: multiset<Task>,
                    ig: multiset<Task>, ib: multiset<Task>, ih: multiset<Task>, out: multiset<Task>,
                        into: multiset<Task>)
    requires multiset(s'.global) + og == multiset(s.global) + ig
    requires Total(Bags(s'.deques)) + ob == Total(Bags(s.deques)) + ib
    requires Total(Hands(s'.threads)) + oh == Total(Hands(s.threads)) + ih
    requires out + (ig + ib + ih) == into + (og + ob + oh)
    ensures Load(s') + out == Load(s) + into
    ensures out == multiset{} ==> Load(s') == Load(s) + into
    ensures into == multiset{} ==> Load(s') + out == Load(s)
  {
    hide Total, Bags, Hands;
    PartsChange(multiset(s.global), Total(Bags(s.deques)), Total(Hands(s.threads)),
                multiset(s'.global), Total(Bags(s'.deques)), Total(Hands(s'.threads)), og, ob, oh, ig, ib, ih, out,
                    into);
    NoneAdded(Load(s'));
    NoneAdded(Load(s));
  }

  lemma EnqueueKeepsLoad(s: Pool, k: nat, a: Act, s': Pool)
    requires k < |s.threads| && EnqueueStep(s, k, a, s')
    ensures Load(s') == Load(s) + SubmittedBy(a) && s'.pending == s.pending + |SubmittedBy(a)|
  {
    if a.Submits? {
      AnnounceKeepsLoad(s, k, a, s');
    } else {
      QueueKeepsLoad(s, k, a, s');
    }
    hide Load;
    NoneAdded(Load(s));
  }

  lemma AnnounceKeepsLoad(s: Pool, k: nat, a: Act, s': Pool)
    requires k < |s.threads| && EnqueueStep(s, k, a, s') && a.Submits?
    ensures Load(s') == Load(s) + multiset{a.x} && s'.pending == s.pending + 1
  {
    hide Total, Bags, Hands, Load;
    ghost var none: multiset<Task> := multiset{};
    ThreadChanged(s, k, s'.threads[k]);
    LoadChanges(s, s', none, none, InHand(s.threads[k]), none, none, InHand(s'.threads[k]), none, multiset{a.x});
  }

  lemma QueueKeepsLoad(s: Pool, k: nat, a: Act, s': Pool)
    requires k < |s.threads| && EnqueueStep(s, k, a, s') && !a.Submits?
    ensures Load(s') == Load(s) && s'.pending == s.pending
  {
    hide Total, Bags, Hands, Load;
    ghost var none: multiset<Task> := multiset{};
    var x, before, after := s.threads[k].x, InHand(s.threads[k]), InHand(s'.threads[k]);
    ThreadChanged(s, k, s'.threads[k]);
    if s.threads[k].Submitting? {
      LoadChanges(s, s', none, none, before, multiset{x}, none, after, none, none);
    } else {
      var q := s.deques[k];
      DequeChanged(s, k, q + [x]);
      LoadChanges(s, s', none, multiset(q), before, none, multiset(q + [x]), after, none, none);
    }
    NoneAdded(Load(s));
  }

  lemma RunKeepsLoad(s: Pool, k: nat, a: Act, s': Pool)
    requires k < |s.threads| && RunStep(s, k, a, s')
    ensures Load(s') + CountedOff(s, k) == Load(s) && s'.pending + |CountedOff(s, k)| == s.pending
  {
    hide Total, Bags, Hands, Load;
    ghost var none: multiset<Task> := multiset{};
    if s.threads[k].Free? {
      FetchKeepsLoad(s, k, s');
      NoneAdded(Load(s));
    } else {
      ThreadChanged(s, k, s'.threads[k]);
      LoadChanges(s, s', none, none, InHand(s.threads[k]), none, none, InHand(s'.threads[k]), CountedOff(s, k), none);
    }
  }

  /** A worker takes a task from one of the three places. */
  lemma FetchKeepsLoad(s: Pool, k: nat, s': Pool)
    requires k < |s.threads| && s.threads[k].Free? && RunStep(s, k, Quiet, s')
    ensures Load(s') == Load(s) && s'.pending == s.pending
  {
    hide Total, Bags, Hands, Load;
    var x := s'.threads[k].t;
    FetchedThread(s, k, x, s');
    if PopsOwn(s, k, s') {
      var q := s.deques[k];
      assert q == q[..|q| - 1] + [q[|q| - 1]];
      DequeTaken(s, k, q[..|q| - 1], x, s');
    } else if TakesGlobal(s, k, s') {
      GlobalTaken(s, x, s');
    } else {
      var v: nat :| Steals(s, k, v, s');
      assert s.deques[v] == [x] + s.deques[v][1..];
      DequeTaken(s, v, s.deques[v][1..], x, s');
    }
  }

  lemma FetchedThread(s: Pool, k: nat, x: Task, s': Pool)
    requires k < |s.threads| && s.threads[k].Free? && s'.threads == s.threads[k := Running(x)]
    ensures Total(Hands(s'.threads)) == Total(Hands(s.threads)) + multiset{x}
  {
    hide Total, Hands;
    ThreadChanged(s, k, Running(x));
    NoneAdded(Total(Hands(s'.threads)));
  }

  lemma DequeTaken(s: Pool, v: nat, q: seq<Task>, x: Task, s': Pool)
    requires v < |s.deques| && multiset(s.deques[v]) == multiset(q) + multiset{x}
    requires s'.global == s.global && s'.deques == s.deques[v := q]
    requires Total(Hands(s'.threads)) == Total(Hands(s.threads)) + multiset{x}
    ensures Load(s') == Load(s)
  {
    hide Total, Bags, Hands, Load;
    ghost var none: multiset<Task> := multiset{};
    DequeChanged(s, v, q);
    LoadChanges(s, s', none, multiset(s.deques[v]), none, none, multiset(q), multiset{x}, none, none);
    NoneAdded(Load(s));
  }

  lemma GlobalTaken(s: Pool, x: Task, s': Pool)
    requires s.global != [] && x == s.global[0] && s'.global == s.global[1..] && s'.deques == s.deques
    requires Total(Hands(s'.threads)) == Total(Hands(s.threads)) + multiset{x}
    ensures Load(s') == Load(s)
  {
    hide Total, Bags, Hands, Load;
    ghost var none: multiset<Task> := multiset{};
    assert s.global == [x] + s.global[1..];
    LoadChanges(s, s', multiset{x}, none, none, none, none, multiset{x}, none, none);
    NoneAdded(Load(s));
  }

  function Submitted(acts: seq<Act>): multiset<Task> {
    if acts == [] then multiset{} else Submitted(acts[..|acts| - 1]) + SubmittedBy(acts[|acts| - 1])
  }

  function Completed(acts: seq<Act>): multiset<Task> {
    if acts == [] then multiset{}
    else Completed(acts[..|acts| - 1]) + CompletedBy(acts[|acts| - 1])
  }

  /** Tasks run but not yet counted off. */
  function Done(t: Thread): multiset<Task> {
    if t.Finished? then multiset{t.t} else multiset{}
  }

  function Dones(ts: seq<Thread>): (r: seq<multiset<Task>>)
    ensures |r| == |ts|
  {
    seq(|ts|, i requires 0 <= i < |ts| => Done(ts[i]))
  }

  lemma DoneChanged(s: Pool, k: nat, t: Thread)
    requires k < |s.threads|
    ensures Total(Dones(s.threads[k := t])) + Done(s.threads[k]) == Total(Dones(s.threads)) + Done(t)
  {
    TotalUpdate(Dones(s.threads), k, Done(t));
    assert Dones(s.threads[k := t]) == Dones(s.threads)[k := Done(t)];
  }

  /** `pending_` counts the load; a submitted task is in the load or completed, not both. */
  ghost predicate Balanced(acts: seq<Act>, s: Pool) {
    && s.pending == |Load(s)|
    && Submitted(acts) + Total(Dones(s.threads)) == Completed(acts) + Load(s)
  }

  lemma StepBalances(acts: seq<Act>, s: Pool, a: Act, s': Pool)
    requires Balanced(acts, s) && PoolStep(s, a, s')
    ensures Balanced(acts + [a], s')
  {
    hide Load, Total, Dones, EnqueueStep, RunStep;
    assert (acts + [a])[..|acts|] == acts;
    var k: nat :| k < |s.threads| && (EnqueueStep(s, k, a, s') || RunStep(s, k, a, s'));
    if EnqueueStep(s, k, a, s') {
      EnqueueThread(s, k, a, s');
      EnqueueKeepsLoad(s, k, a, s');
    } else {
      RunThread(s, k, a, s');
      RunKeepsLoad(s, k, a, s');
    }
    DoneChanged(s, k, s'.threads[k]);
    hide SubmittedBy, CompletedBy, CountedOff, Done;
    Adds(Submitted(acts), Completed(acts), Load(s), Total(Dones(s.threads)), Load(s'), Total(Dones(s'.threads)),
         SubmittedBy(a), Completed(acts + [a]), CountedOff(s, k), Done(s'.threads[k]));
  }

  /** Only thread `k` moves; nothing is completed. */
  lemma EnqueueThread(s: Pool, k: nat, a: Act, s': Pool)
    requires k < |s.threads| && EnqueueStep(s, k, a, s')
    ensures |s'.threads| == |s.threads| && s'.threads == s.threads[k := s'.threads[k]]
    ensures Done(s'.threads[k]) == CompletedBy(a) == multiset{}
    ensures Done(s.threads[k]) == CountedOff(s, k) == multiset{}
  {}

  /** Only thread `k` moves, and it completes a task exactly when it comes to `Finished`. */
  lemma RunThread(s: Pool, k: nat, a: Act, s': Pool)
    requires k < |s.threads| && RunStep(s, k, a, s')
    ensures |s'.threads| == |s.threads| && s'.threads == s.threads[k := s'.threads[k]]
    ensures Done(s'.threads[k]) == CompletedBy(a) && SubmittedBy(a) == multiset{}
    ensures Done(s.threads[k]) == CountedOff(s, k)
  {
    if s.threads[k].Free? { FetchingThread(s, k, s'); }
  }

  lemma FetchingThread(s: Pool, k: nat, s': Pool)
    requires k < |s.threads| && s.threads[k].Free? && RunStep(s, k, Quiet, s')
    ensures |s'.threads| == |s.threads| && s'.threads[k].Running? && s'.threads == s.threads[k := s'.threads[k]]
  {}

  lemma Adds(sub: multiset<Task>, com: multiset<Task>, load: multiset<Task>, done: multiset<Task>,
             load': multiset<Task>, done': multiset<Task>, more: multiset<Task>, com': multiset<Task>,
             off: multiset<Task>, fin: multiset<Task>)
    requires sub + done == com + load && load' + off == load + more && done' + off == done + fin && com' == com + fin
    ensures (sub + more) + done' == com' + load' && |load'| + |off| == |load| + |more|
  {
    assert |load' + off| == |load + more|;
    forall t ensures ((sub + more) + done')[t] == (com' + load')[t] {
      assert (sub + done)[t] == (com + load)[t] && (load' + off)[t] == (load + more)[t] &&
        (done' + off)[t] == (done + fin)[t];
    }
  }

  lemma StartBalanced(s: Pool)
    requires Started(s)
    ensures Balanced([], s)
  {
    TotalOfNothing(Bags(s.deques));
    TotalOfNothing(Hands(s.threads));
    TotalOfNothing(Dones(s.threads));
    hide Total, Bags, Hands, Dones;
  }

  lemma {:induction false} RunBalanced(states: seq<Pool>, acts: seq<Act>, n: nat)
    requires IsPoolRun(states, acts) && n <= |acts|
    ensures Balanced(acts[..n], states[n])
  {
    hide Balanced, PoolStep, Started;
    if n == 0 {
      StartBalanced(states[0]);
      assert acts[..0] == [];
    } else {
      RunBalanced(states, acts, n - 1);
      assert PoolStep(states[n - 1], acts[n - 1], states[n]);
      StepBalances(acts[..n - 1], states[n - 1], acts[n - 1], states[n]);
      assert acts[..n] == acts[..n - 1] + [acts[n - 1]];
    }
  }

  /** Nothing is queued, and no thread holds a task. */
  ghost predicate Idle(s: Pool) {
    && s.global == []
    && (forall i :: 0 <= i < |s.deques| ==> s.deques[i] == [])
    && (forall k :: 0 <= k < |s.threads| ==> s.threads[k] == Free)
  }

  /** What `wait_idle` waits for: with the count at zero every task submitted so far has completed,
      with multiplicity, and the pool is idle; and only then. */
  lemma IdleMeansDone(states: seq<Pool>, acts: seq<Act>)
    requires IsPoolRun(states, acts)
    ensures var s := states[|acts|];
      s.pending >= 0 && (s.pending == 0 <==> Idle(s)) && (s.pending == 0 ==> Submitted(acts) == Completed(acts))
  {
    hide Balanced, PoolStep, Started, Idle;
    RunBalanced(states, acts, |acts|);
    assert acts[..|acts|] == acts;
    BalancedIdle(acts, states[|acts|]);
  }

  lemma BalancedIdle(acts: seq<Act>, s: Pool)
    requires Balanced(acts, s)
    ensures s.pending >= 0 && (s.pending == 0 <==> Idle(s)) && (s.pending == 0 ==> Submitted(acts) == Completed(acts))
  {
    hide Submitted, Completed, Total, Bags, Hands, Dones;
    if s.pending == 0 {
      hide Load, Idle;
      NothingHeld(s);
      NoneAdded(Submitted(acts));
      NoneAdded(Completed(acts));
    } else if Idle(s) {
      IdleLoad(s);
    }
  }

  lemma IdleLoad(s: Pool)
    requires Idle(s)
    ensures |Load(s)| == 0
  {
    TotalOfNothing(Bags(s.deques));
    TotalOfNothing(Hands(s.threads));
    hide Total, Bags, Hands;
  }

  lemma NothingHeld(s: Pool)
    requires |Load(s)| == 0
    ensures Idle(s) && Total(Dones(s.threads)) == multiset{} && Load(s) == multiset{}
  {
    var l := Load(s);
    assert l == multiset{};
    NoneIn(s.global);
    assert forall t :: t in multiset(s.global) || t in Total(Bags(s.deques)) || t in Total(Hands(s.threads)) ==> t in l;
    forall i: nat | i < |s.deques| ensures s.deques[i] == [] {
      TotalHolds(Bags(s.deques), i);
      NoneIn(s.deques[i]);
    }
    forall k: nat | k < |s.threads| ensures s.threads[k] == Free {
      TotalHolds(Hands(s.threads), k);
      HoldsNothing(s.threads[k]);
    }
    TotalOfNothing(Dones(s.threads));
  }

  lemma NoneIn(q: seq<Task>)
    ensures multiset(q) == multiset{} ==> q == []
  {
    if q != [] { assert q[0] in multiset(q); }
  }

  lemma HoldsNothing(t: Thread)
    ensures InHand(t) == multiset{} ==> t == Free
  {
    match t
    case Free =>
    case Submitting(x) => assert x in InHand(t);
    case Running(x) => assert x in InHand(t);
    case Spawning(x, _) => assert x in InHand(t);
    case Finished(x) => assert x in InHand(t);
  }
}
