/** Exactly-once delivery for the Chase-Lev deque: the inductive invariant, the refinement of an
    atomic double-ended queue, and conservation of tasks over every run. */
module WorkStealingSafety {
  import opened Options
  import opened WorkStealingDeque

  // ---------------------------------------------------------------- the invariant

  /** `h[i]` is the task most recently pushed at index `i` and not since popped. */
  ghost predicate Holds(r: Ring, lo: nat, hi: nat, h: seq<Task>)
    requires r.Valid() && hi <= |h|
  {
    forall i: nat :: lo <= i < hi ==> r.Get(i) == h[i]
  }

  ghost predicate MemoryOk(s: State, h: seq<Task>) {
    && RingsValid(s)
    && s.top <= |h| <= s.top + s.rings[s.ring].cap
    && Holds(s.rings[s.ring], s.top, |h|, h)
  }

  ghost predicate OwnerOk(s: State, h: seq<Task>)
    requires MemoryOk(s, h)
  {
    var r := s.rings[s.ring];
    match s.owner
    case Idle => s.bottom == |h|
    case PushLoadTop(x, b) => s.bottom == b == |h|
    case PushLoadRing(x, b, t) => s.bottom == b == |h| && t <= s.top && b <= t + r.cap
    case PushCopy(x, b, t, na, i) =>
      && s.bottom == b == |h| && t <= s.top && b <= t + r.cap && t <= i <= b
      && na < |s.rings| && na != s.ring && s.rings[na].cap == 2 * r.cap
      && Holds(s.rings[na], s.top, i, h)
    case PushPut(x, b, t) => s.bottom == b == |h| && t <= s.top && b < t + r.cap
    case PushStoreBottom(x, b) => s.bottom == b == |h| && b < s.top + r.cap && r.Get(b) == x
    case PopLoadRing(p) => s.bottom == |h| == p + 1
    case PopStoreBottom(p) => s.bottom == |h| == p + 1
    case PopLoadTop(p) => s.bottom == p && |h| == p + 1
    case PopGet(b, t) => s.bottom == b && t <= b && t <= s.top && |h| == (if t == b then b + 1 else b)
    case PopCas(b, x) => s.bottom == b <= s.top && |h| == b + 1 && (s.top == b ==> x == h[b])
    case PopRestore(p, res) => s.bottom == p && |h| == p + 1 == s.top
  }

  /** A thief whose loaded `top` is still current holds only true facts about index `t`. */
  ghost predicate ThiefOk(s: State, h: seq<Task>, k: nat)
    requires RingsValid(s) && k < |s.thieves|
  {
    match s.thieves[k]
    case Away => true
    case StealLoadBottom(t) => t <= s.top
    case StealLoadRing(t) => t <= s.top && (t == s.top ==> t < |h|)
    case StealGet(t, a) =>
      && t <= s.top && a < |s.rings| && (s.owner.PushCopy? ==> a != s.owner.na)
      && (t == s.top ==> t < |h| && s.rings[a].Get(t) == h[t])
    case StealCas(t, x) => t <= s.top && (t == s.top ==> t < |h| && x == h[t])
  }

  ghost predicate ThievesOk(s: State, h: seq<Task>)
    requires RingsValid(s)
  {
    forall k :: 0 <= k < |s.thieves| ==> ThiefOk(s, h, k)
  }

  ghost predicate Inv(s: State, h: seq<Task>) {
    MemoryOk(s, h) && OwnerOk(s, h) && ThievesOk(s, h)
  }

  // ---------------------------------------------------------------- linearization points

  /** How a step changes the history: a push takes effect at its store to `bottom`; a pop that
      cannot race takes effect when it loads `top`. */
  function NextHistory(s: State, s': State, h: seq<Task>): seq<Task> {
    if s.owner == s'.owner then h
    else if s.owner.PushStoreBottom? then h + [s.owner.x]
    else if s.owner.PopLoadTop? && 0 <= s.owner.p < |h| && s.top < s.owner.p then h[..s.owner.p]
    else h
  }

  lemma InitialInvariant(s: State, cap: nat, thieves: nat)
    requires Init(s, cap, thieves)
    ensures Inv(s, [])
  {}

  /** An owner step that leaves `top`, the thieves and every published slot at `top` alone. */
  lemma ThievesUndisturbed(s: State, h: seq<Task>, s': State, h': seq<Task>)
    requires MemoryOk(s, h) && ThievesOk(s, h) && RingsValid(s')
    requires s'.top == s.top && s'.thieves == s.thieves && |s.rings| <= |s'.rings|
    requires s.top < |h| ==> s.top < |h'| && h'[s.top] == h[s.top]
    requires forall a | 0 <= a < |s.rings| && !(s.owner.PushCopy? && a == s.owner.na) ::
      s.top < |h| && s.rings[a].Get(s.top) == h[s.top] ==> s'.rings[a].Get(s.top) == h[s.top]
    requires s'.owner.PushCopy? ==>
      s'.owner.na >= |s.rings| || (s.owner.PushCopy? && s.owner.na == s'.owner.na)
    ensures ThievesOk(s', h')
  {
    forall k | 0 <= k < |s'.thieves| ensures ThiefOk(s', h', k) {
      assert ThiefOk(s, h, k);
    }
  }

  lemma PushKeepsInvariant(s: State, e: Event, s': State, h: seq<Task>)
    requires Inv(s, h) && PushStep(s, e, s')
    ensures Inv(s', NextHistory(s, s', h))
  {
    InvRings(s, h);
    PushHistory(s, e, s', h);
    hide Inv, PushStep, NextHistory, RingsValid;
    match s.owner
    case PushCopy(x, b, t, na, i) =>
      if i < b { CopyKeepsInvariant(s, s', h); } else { PublishKeepsInvariant(s, s', h); }
    case PushPut(x, b, t) => PutKeepsInvariant(s, s', h);
    case PushLoadRing(x, b, t) => GrowKeepsInvariant(s, s', h);
    case PushStoreBottom(x, b) => CommitKeepsInvariant(s, s', h);
    case _ => BeginPushKeepsInvariant(s, e, s', h);
  }

  lemma InvRings(s: State, h: seq<Task>)
    requires Inv(s, h)
    ensures RingsValid(s)
  {}

  /** Only the store to `bottom` is visible, and only it changes the history. */
  lemma PushHistory(s: State, e: Event, s': State, h: seq<Task>)
    requires RingsValid(s) && PushStep(s, e, s')
    ensures if s.owner.PushStoreBottom? then e == Pushed(s.owner.x) && NextHistory(s, s', h) == h + [s.owner.x]
            else e == Silent && NextHistory(s, s', h) == h
    ensures s.owner.Idle? || s.owner.PushLoadTop? || s.owner.PushLoadRing? || s.owner.PushCopy? || s.owner.PushPut? ||
      s.owner.PushStoreBottom?
  {}

  lemma BeginPushKeepsInvariant(s: State, e: Event, s': State, h: seq<Task>)
    requires Inv(s, h) && (s.owner.Idle? || s.owner.PushLoadTop?) && PushStep(s, e, s')
    ensures Inv(s', h)
  {
    ThievesUndisturbed(s, h, s', h);
  }

  lemma CommitKeepsInvariant(s: State, s': State, h: seq<Task>)
    requires Inv(s, h) && s.owner.PushStoreBottom? && PushStep(s, Pushed(s.owner.x), s')
    ensures Inv(s', h + [s.owner.x])
  {
    ThievesUndisturbed(s, h, s', h + [s.owner.x]);
  }

  lemma GrowKeepsInvariant(s: State, s': State, h: seq<Task>)
    requires Inv(s, h) && s.owner.PushLoadRing? && PushStep(s, Silent, s')
    ensures Inv(s', h)
  {
    ThievesUndisturbed(s, h, s', h);
  }

  lemma CopyKeepsInvariant(s: State, s': State, h: seq<Task>)
    requires Inv(s, h) && s.owner.PushCopy? && s.owner.i < s.owner.b && PushStep(s, Silent, s')
    ensures Inv(s', h)
  {
    var PushCopy(x, b, t, na, i) := s.owner;
    forall j: nat | s.top <= j < i + 1 ensures s'.rings[na].Get(j) == h[j] {
      if j < i {
        SlotsDistinct(j, i, s.rings[na].cap);
      }
    }
    ThievesUndisturbed(s, h, s', h);
  }

  lemma PublishKeepsInvariant(s: State, s': State, h: seq<Task>)
    requires Inv(s, h) && s.owner.PushCopy? && s.owner.i >= s.owner.b && PushStep(s, Silent, s')
    ensures Inv(s', h)
  {
    ThievesUndisturbed(s, h, s', h);
  }

  lemma PutKeepsInvariant(s: State, s': State, h: seq<Task>)
    requires Inv(s, h) && s.owner.PushPut? && PushStep(s, Silent, s')
    ensures Inv(s', h)
  {
    var PushPut(x, b, t) := s.owner;
    forall j: nat | s.top <= j < b ensures s'.rings[s.ring].Get(j) == s.rings[s.ring].Get(j) {
      SlotsDistinct(j, b, s.rings[s.ring].cap);
    }
    ThievesUndisturbed(s, h, s', h);
  }

  lemma PopKeepsInvariant(s: State, e: Event, s': State, h: seq<Task>)
    requires Inv(s, h) && PopStep(s, e, s')
    ensures Inv(s', NextHistory(s, s', h))
  {
    InvRings(s, h);
    PopHistory(s, e, s', h);
    hide Inv, PopStep, NextHistory, RingsValid;
    match s.owner
    case PopLoadTop(p) => DecideKeepsInvariant(s, s', h);
    case PopCas(b, x) => LastTaskKeepsInvariant(s, s', h);
    case _ => QuietPopKeepsInvariant(s, e, s', h);
  }

  lemma PopHistory(s: State, e: Event, s': State, h: seq<Task>)
    requires RingsValid(s) && PopStep(s, e, s')
    ensures s.owner.PopLoadTop? || s.owner.PopCas? ==> e == Silent
    ensures !s.owner.PopLoadTop? ==> NextHistory(s, s', h) == h
  {}

  lemma QuietPopKeepsInvariant(s: State, e: Event, s': State, h: seq<Task>)
    requires Inv(s, h) && !s.owner.PopLoadTop? && !s.owner.PopCas? && PopStep(s, e, s')
    ensures Inv(s', h)
  {
    ThievesUndisturbed(s, h, s', h);
  }

  lemma DecideKeepsInvariant(s: State, s': State, h: seq<Task>)
    requires Inv(s, h) && s.owner.PopLoadTop? && PopStep(s, Silent, s')
    ensures Inv(s', NextHistory(s, s', h))
  {
    ThievesUndisturbed(s, h, s', NextHistory(s, s', h));
  }

  lemma LastTaskKeepsInvariant(s: State, s': State, h: seq<Task>)
    requires Inv(s, h) && s.owner.PopCas? && PopStep(s, Silent, s')
    ensures Inv(s', h)
  {
    if s.top == s.owner.b {
      forall k | 0 <= k < |s'.thieves| ensures ThiefOk(s', h, k) {
        assert ThiefOk(s, h, k);
      }
    } else {
      ThievesUndisturbed(s, h, s', h);
    }
  }

  lemma StealKeepsInvariant(s: State, k: nat, e: Event, s': State, h: seq<Task>)
    requires Inv(s, h) && k < |s.thieves| && StealStep(s, k, e, s')
    ensures Inv(s', h)
  {
    assert ThiefOk(s, h, k);
    if s'.top == s.top {
      StealReadKeepsInvariant(s, k, e, s', h);
    } else {
      assert MemoryOk(s', h);
      forall j | 0 <= j < |s'.thieves| ensures ThiefOk(s', h, j) {
        assert ThiefOk(s, h, j);
      }
    }
  }

  lemma StealReadKeepsInvariant(s: State, k: nat, e: Event, s': State, h: seq<Task>)
    requires Inv(s, h) && k < |s.thieves| && StealStep(s, k, e, s') && s'.top == s.top
    ensures Inv(s', h)
  {
    var pc := s'.thieves[k];
    assert s' == s.(thieves := s.thieves[k := pc]);
    ThiefReadOk(s, k, e, s', h);
    OthersUnaffected(s, k, pc, h);
  }

  lemma ThiefReadOk(s: State, k: nat, e: Event, s': State, h: seq<Task>)
    requires Inv(s, h) && k < |s.thieves| && StealStep(s, k, e, s') && s'.top == s.top
    ensures ThiefOk(s', h, k)
  {
    assert ThiefOk(s, h, k);
  }

  lemma OthersUnaffected(s: State, k: nat, pc: ThiefPc, h: seq<Task>)
    requires Inv(s, h) && k < |s.thieves|
    requires ThiefOk(s.(thieves := s.thieves[k := pc]), h, k)
    ensures Inv(s.(thieves := s.thieves[k := pc]), h)
  {
    var s' := s.(thieves := s.thieves[k := pc]);
    forall j | 0 <= j < |s'.thieves| ensures ThiefOk(s', h, j) {
      assert ThiefOk(s, h, j);
    }
  }

  // ---------------------------------------------------------------- the atomic deque it refines

  /** The specification: a sequence, plus the outcome a running `pop` has settled on. */
  datatype AtomicDeque = AtomicDeque(q: seq<Task>, decided: Option<Option<Task>>)

  /** `pop` settles, in one atomic action, on the last task, or on "empty". */
  function Decide(a: AtomicDeque): AtomicDeque {
    if a.q == [] then AtomicDeque([], Some(None))
    else AtomicDeque(a.q[..|a.q| - 1], Some(Some(a.q[|a.q| - 1])))
  }

  ghost predicate AtomicStep(a: AtomicDeque, e: Event, a': AtomicDeque) {
    match e
    case Pushed(x) => a' == a.(q := a.q + [x])
    case PopReturns(r) => a.decided == Some(r) && a' == a.(decided := None)
    case StealReturns(_, Some(x)) => a.q != [] && x == a.q[0] && a' == a.(q := a.q[1..])
    case StealReturns(_, None) => a' == a
    case Silent => a' == a || (a.decided.None? && a' == Decide(a))
  }

  function Decided(s: State): Option<Option<Task>>
    requires RingsValid(s)
  {
    match s.owner
    case PopGet(b, t) => if t == b then None else Some(Some(s.rings[s.ring].Get(b)))
    case PopRestore(_, r) => Some(r)
    case _ => None
  }

  function Abstract(s: State, h: seq<Task>): AtomicDeque
    requires RingsValid(s) && s.top <= |h|
  {
    AtomicDeque(h[s.top..], Decided(s))
  }

  ghost predicate Step(s: State, e: Event, s': State)
    requires RingsValid(s)
  {
    PushStep(s, e, s') || PopStep(s, e, s') || exists k: nat :: k < |s.thieves| && StealStep(s, k, e, s')
  }

  lemma PushRefines(s: State, e: Event, s': State, h: seq<Task>)
    requires Inv(s, h) && PushStep(s, e, s') && Inv(s', NextHistory(s, s', h))
    ensures AtomicStep(Abstract(s, h), e, Abstract(s', NextHistory(s, s', h)))
  {}

  lemma PopRefines(s: State, e: Event, s': State, h: seq<Task>)
    requires Inv(s, h) && PopStep(s, e, s') && Inv(s', NextHistory(s, s', h))
    ensures AtomicStep(Abstract(s, h), e, Abstract(s', NextHistory(s, s', h)))
  {}

  lemma StealRefines(s: State, k: nat, e: Event, s': State, h: seq<Task>)
    requires Inv(s, h) && k < |s.thieves| && StealStep(s, k, e, s') && Inv(s', h)
    ensures AtomicStep(Abstract(s, h), e, Abstract(s', h))
  {
    assert ThiefOk(s, h, k);
  }

  /** Every step of every thread is a step of the atomic deque, and keeps the invariant. */
  lemma StepRefines(s: State, e: Event, s': State, h: seq<Task>)
    requires Inv(s, h) && Step(s, e, s')
    ensures Inv(s', NextHistory(s, s', h))
    ensures AtomicStep(Abstract(s, h), e, Abstract(s', NextHistory(s, s', h)))
  {
    if PushStep(s, e, s') {
      PushKeepsInvariant(s, e, s', h);
      PushRefines(s, e, s', h);
    } else if PopStep(s, e, s') {
      PopKeepsInvariant(s, e, s', h);
      PopRefines(s, e, s', h);
    } else {
      var k: nat :| k < |s.thieves| && StealStep(s, k, e, s');
      StealKeepsInvariant(s, k, e, s', h);
      StealRefines(s, k, e, s', h);
    }
  }

  // ---------------------------------------------------------------- whole runs

  /** A run: states joined by steps, each labelled with what a caller saw. */
  ghost predicate IsRun(states: seq<State>, events: seq<Event>, cap: nat, thieves: nat) {
    && |states| == |events| + 1
    && Init(states[0], cap, thieves)
    && forall i :: 0 <= i < |events| ==> RingsValid(states[i]) && Step(states[i], events[i], states[i + 1])
  }

  function PushedBy(e: Event): multiset<Task> {
    if e.Pushed? then multiset{e.x} else multiset{}
  }

  function ReturnedBy(e: Event): multiset<Task> {
    if e.PopReturns? || e.StealReturns? then Held(e.r) else multiset{}
  }

  function PushedTasks(events: seq<Event>): multiset<Task> {
    if events == [] then multiset{}
    else PushedTasks(events[..|events| - 1]) + PushedBy(events[|events| - 1])
  }

  function ReturnedTasks(events: seq<Event>): multiset<Task> {
    if events == [] then multiset{}
    else ReturnedTasks(events[..|events| - 1]) + ReturnedBy(events[|events| - 1])
  }

  function Held(r: Option<Task>): multiset<Task> {
    match r
    case None => multiset{}
    case Some(x) => multiset{x}
  }

  /** One past the last index still in the deque: `bottom`, or one more while an unsettled `pop`
      has already lowered it. */
  function LiveEnd(s: State): int {
    match s.owner
    case PopLoadTop(p) => p + 1
    case PopGet(b, t) => if t == b then b + 1 else b
    case PopCas(b, _) => b + 1
    case PopRestore(p, _) => p + 1
    case _ => s.bottom
  }

  /** The tasks in the current ring from index `top` up to the live end. */
  function LiveTasks(s: State): multiset<Task>
    requires RingsValid(s)
  {
    if LiveEnd(s) <= s.top then multiset{} else
    multiset(seq(LiveEnd(s) - s.top, i requires 0 <= i < LiveEnd(s) - s.top => s.rings[s.ring].Get(s.top + i)))
  }

  /** The task a `pop` has taken but not yet returned. */
  function InFlight(s: State): multiset<Task>
    requires RingsValid(s)
  {
    match Decided(s)
    case None => multiset{}
    case Some(r) => Held(r)
  }

  lemma LiveEndIs(s: State, h: seq<Task>)
    requires Inv(s, h)
    ensures MemoryOk(s, h) && if LiveEnd(s) > s.top then LiveEnd(s) == |h| else s.top == |h|
  {
    hide ThievesOk;
  }

  lemma LiveTasksAreTheQueue(s: State, h: seq<Task>)
    requires Inv(s, h)
    ensures LiveTasks(s) == multiset(h[s.top..])
  {
    hide ThievesOk;
    LiveEndIs(s, h);
    hide Inv, OwnerOk, LiveEnd;
    if LiveEnd(s) > s.top {
      assert seq(LiveEnd(s) - s.top,
          i requires 0 <= i < LiveEnd(s) - s.top => s.rings[s.ring].Get(s.top + i)) == h[s.top..];
    }
  }

  function Contents(a: AtomicDeque): multiset<Task> {
    multiset(a.q) + (if a.decided.Some? then Held(a.decided.value) else multiset{})
  }

  lemma AtomicStepConserves(a: AtomicDeque, e: Event, a': AtomicDeque)
    requires AtomicStep(a, e, a')
    ensures Contents(a') + ReturnedBy(e) == Contents(a) + PushedBy(e)
  {
    hide Contents, Decide;
    match e
    case Silent => if a' != a { DecideConserves(a); }
    case Pushed(x) => PushConserves(a, x);
    case PopReturns(r) => PopConserves(a, r);
    case StealReturns(_, None) =>
    case StealReturns(_, Some(x)) => StealConserves(a);
  }

  lemma PushConserves(a: AtomicDeque, x: Task)
    ensures Contents(a.(q := a.q + [x])) == Contents(a) + multiset{x}
  {}

  lemma PopConserves(a: AtomicDeque, r: Option<Task>)
    requires a.decided == Some(r)
    ensures Contents(a.(decided := None)) + Held(r) == Contents(a)
  {}

  lemma StealConserves(a: AtomicDeque)
    requires a.q != []
    ensures Contents(a.(q := a.q[1..])) + multiset{a.q[0]} == Contents(a)
  {
    WithoutFirst(a.q);
  }

  lemma DecideConserves(a: AtomicDeque)
    requires a.decided.None?
    ensures Contents(Decide(a)) == Contents(a)
  {
    if a.q != [] { WithoutLast(a.q); }
  }

  lemma WithoutLast(q: seq<Task>)
    requires q != []
    ensures multiset(q) == multiset(q[..|q| - 1]) + multiset{q[|q| - 1]}
  {
    assert q == q[..|q| - 1] + [q[|q| - 1]];
  }

  lemma WithoutFirst(q: seq<Task>)
    requires q != []
    ensures multiset(q) == multiset{q[0]} + multiset(q[1..])
  {
    assert q == [q[0]] + q[1..];
  }

  /** Everything a finished prefix of a run guarantees about the state it reached. */
  ghost predicate Accounted(events: seq<Event>, s: State, h: seq<Task>) {
    Inv(s, h) && PushedTasks(events) == ReturnedTasks(events) + Contents(Abstract(s, h))
  }

  lemma {:induction false} RunInvariant(states: seq<State>, events: seq<Event>, cap: nat, thieves: nat, n: nat)
    returns (h: seq<Task>)
    requires IsRun(states, events, cap, thieves) && n <= |events|
    ensures Accounted(events[..n], states[n], h)
  {
    if n == 0 {
      InitialInvariant(states[0], cap, thieves);
      h := [];
    } else {
      var g := RunInvariant(states, events, cap, thieves, n - 1);
      assert events[..n] == events[..n - 1] + [events[n - 1]];
      h := RunStep(events[..n - 1], states[n - 1], events[n - 1], states[n], g);
    }
  }

  lemma RunStep(past: seq<Event>, s: State, e: Event, s': State, g: seq<Task>) returns (h: seq<Task>)
    requires Accounted(past, s, g) && Step(s, e, s')
    ensures Accounted(past + [e], s', h)
  {
    StepRefines(s, e, s', g);
    h := NextHistory(s, s', g);
    ExtendAccount(past, Abstract(s, g), e, Abstract(s', h));
  }

  lemma ExtendAccount(past: seq<Event>, a: AtomicDeque, e: Event, a': AtomicDeque)
    requires AtomicStep(a, e, a') && PushedTasks(past) == ReturnedTasks(past) + Contents(a)
    ensures PushedTasks(past + [e]) == ReturnedTasks(past + [e]) + Contents(a')
  {
    AtomicStepConserves(a, e, a');
    assert (past + [e])[..|past|] == past;
    AddEvent(PushedTasks(past), ReturnedTasks(past), Contents(a), Contents(a'), PushedBy(e), ReturnedBy(e));
  }

  lemma AddEvent(p: multiset<Task>, r: multiset<Task>, c: multiset<Task>, c': multiset<Task>,
                 dp: multiset<Task>, dr: multiset<Task>)
    requires p == r + c && c' + dr == c + dp
    ensures p + dp == (r + dr) + c'
  {
    assert p + dp == r + (c + dp);
    assert r + (c' + dr) == (r + dr) + c';
  }

  /** Exactly once: in every interleaving, the tasks pushed are those returned, those still in
      the deque and the one an unfinished `pop` holds, counted with multiplicity. */
  lemma ExactlyOnce(states: seq<State>, events: seq<Event>, cap: nat, thieves: nat)
    requires IsRun(states, events, cap, thieves)
    ensures var s := states[|events|];
      RingsValid(s) &&
      PushedTasks(events) == ReturnedTasks(events) + LiveTasks(s) + InFlight(s)
  {
    hide Init, Step, Inv, LiveTasks, InFlight, Contents, Abstract;
    var h := RunInvariant(states, events, cap, thieves, |events|);
    assert events[..|events|] == events;
    ContentsAre(states[|events|], h);
    ThreeBags(ReturnedTasks(events), LiveTasks(states[|events|]), InFlight(states[|events|]));
  }

  lemma ContentsAre(s: State, h: seq<Task>)
    requires Inv(s, h)
    ensures RingsValid(s) && s.top <= |h| && Contents(Abstract(s, h)) == LiveTasks(s) + InFlight(s)
  {
    hide ThievesOk, LiveTasks;
    LiveTasksAreTheQueue(s, h);
  }

  lemma ThreeBags(a: multiset<Task>, b: multiset<Task>, c: multiset<Task>)
    ensures a + (b + c) == a + b + c
  {}
}
