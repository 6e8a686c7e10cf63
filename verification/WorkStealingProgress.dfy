/** Progress of the Chase-Lev deque: no thread ever waits for another, and every operation ends after
    boundedly many steps of its own thread, whatever the others do meanwhile. */
module WorkStealingProgress {
  import opened Options
  import opened WorkStealingDeque
  import opened WorkStealingSafety

  // ---------------------------------------------------------------- there is always a step

  /** No thread waits for another: the owner always has a step of its own to take, */
  lemma OwnerNeverBlocks(s: State, h: seq<Task>) returns (e: Event, s': State)
    requires Inv(s, h)
    ensures (PushStep(s, e, s') || PopStep(s, e, s')) && s'.owner != s.owner
  {
    var r := s.rings[s.ring];
    e := match s.owner
      case PushStoreBottom(x, b) => Pushed(x)
      case PopGet(b, t) => if t == b then Silent else PopReturns(Some(r.Get(b)))
      case PopRestore(p, res) => PopReturns(res)
      case _ => Silent;
    match s.owner
    case Idle => s' := s.(owner := PopLoadRing(s.bottom - 1));
    case PushLoadTop(x, b) => s' := s.(owner := PushLoadRing(x, b, s.top));
    case PushLoadRing(x, b, t) =>
      if b - t > r.cap - 1 {
        DoublingKeepsPow2(r.cap);
        var na := Ring(r.cap * 2, seq(r.cap * 2, _ => 0));
        s' := s.(rings := s.rings + [na], owner := PushCopy(x, b, t, |s.rings|, t));
      } else {
        s' := s.(owner := PushPut(x, b, t));
      }
    case PushCopy(x, b, t, na, i) =>
      s' := if i < b
        then s.(rings := s.rings[na := s.rings[na].Put(i, r.Get(i))], owner := PushCopy(x, b, t, na, i + 1))
        else s.(ring := na, owner := PushPut(x, b, t));
    case PushPut(x, b, t) =>
      s' := s.(rings := s.rings[s.ring := r.Put(b, x)], owner := PushStoreBottom(x, b));
    case PushStoreBottom(x, b) => s' := s.(bottom := b + 1, owner := Idle);
    case PopLoadRing(p) => s' := s.(owner := PopStoreBottom(p));
    case PopStoreBottom(p) => s' := s.(bottom := p, owner := PopLoadTop(p));
    case PopLoadTop(p) => s' := s.(owner := if s.top <= p then PopGet(p, s.top) else PopRestore(p, None));
    case PopGet(b, t) => s' := s.(owner := if t == b then PopCas(b, r.Get(b)) else Idle);
    case PopCas(b, x) =>
      s' := if s.top == b then s.(top := b + 1, owner := PopRestore(b, Some(x)))
            else s.(owner := PopRestore(b, None));
    case PopRestore(p, res) => s' := s.(bottom := p + 1, owner := Idle);
  }

  /** and so does every thief. */
  lemma ThiefNeverBlocks(s: State, h: seq<Task>, k: nat) returns (e: Event, s': State)
    requires Inv(s, h) && k < |s.thieves|
    ensures StealStep(s, k, e, s') && s'.thieves[k] != s.thieves[k]
  {
    assert ThiefOk(s, h, k);
    var pc := match s.thieves[k]
      case Away => StealLoadBottom(s.top)
      case StealLoadBottom(t) => if t < s.bottom then StealLoadRing(t) else Away
      case StealLoadRing(t) => StealGet(t, s.ring)
      case StealGet(t, a) => StealCas(t, s.rings[a].Get(t))
      case StealCas(t, x) => Away;
    e := match s.thieves[k]
      case StealLoadBottom(t) => if t < s.bottom then Silent else StealReturns(k, None)
      case StealCas(t, x) => StealReturns(k, if s.top == t then Some(x) else None)
      case _ => Silent;
    s' := s.(thieves := s.thieves[k := pc]);
    if s.thieves[k].StealCas? && s.top == s.thieves[k].t {
      s' := s'.(top := s.top + 1);
    }
  }

  // ---------------------------------------------------------------- and there are only so many

  /** Steps the owner may still take before its operation returns; copying into a bigger ring is the
      only loop. */
  ghost function OwnerLeft(s: State): nat
    requires RingsValid(s)
  {
    var cap := s.rings[s.ring].cap;
    match s.owner
    case Idle => 0
    case PushLoadTop(x, b) => cap + 5
    case PushLoadRing(x, b, t) => if b - t > cap - 1 then (if b <= t then 0 else b - t) + 4 else 3
    case PushCopy(x, b, t, na, i) => (if b <= i then 0 else b - i) + 3
    case PushPut(x, b, t) => 2
    case PushStoreBottom(x, b) => 1
    case PopLoadRing(p) => 6
    case PopStoreBottom(p) => 5
    case PopLoadTop(p) => 4
    case PopGet(b, t) => 3
    case PopCas(b, x) => 2
    case PopRestore(p, res) => 1
  }

  function ThiefLeft(pc: ThiefPc): nat {
    match pc
    case Away => 0
    case StealLoadBottom(_) => 4
    case StealLoadRing(_) => 3
    case StealGet(_, _) => 2
    case StealCas(_, _) => 1
  }

  /** Where thief `k` is. */
  function At(s: State, k: nat): ThiefPc {
    if k < |s.thieves| then s.thieves[k] else Away
  }

  /** Never more than the ring has slots, and five. */
  lemma OwnerLeftBound(s: State, h: seq<Task>)
    requires Inv(s, h)
    ensures OwnerLeft(s) <= s.rings[s.ring].cap + 5 && (OwnerLeft(s) == 0 <==> s.owner.Idle?)
  {}

  /** A step of the owner within an operation brings its end nearer; no step of a thief puts it off. */
  lemma OwnerProgress(s: State, e: Event, s': State, h: seq<Task>)
    requires Inv(s, h) && Step(s, e, s') && RingsValid(s')
    ensures s'.owner == s.owner ==> OwnerLeft(s') == OwnerLeft(s)
    ensures s'.owner != s.owner && !s.owner.Idle? ==> OwnerLeft(s') < OwnerLeft(s)
  {
    InvRings(s, h);
    hide Inv, PushStep, PopStep, OwnerLeft;
    if PushStep(s, e, s') {
      PushProgress(s, e, s', h);
    } else if PopStep(s, e, s') {
      PopProgress(s, e, s');
    } else {
      var k: nat :| k < |s.thieves| && StealStep(s, k, e, s');
      StealApart(s, k, e, s');
    }
  }

  lemma PushProgress(s: State, e: Event, s': State, h: seq<Task>)
    requires Inv(s, h) && PushStep(s, e, s') && RingsValid(s')
    ensures s'.owner != s.owner && (!s.owner.Idle? ==> OwnerLeft(s') < OwnerLeft(s))
  {
    hide ThievesOk;
  }

  lemma PopProgress(s: State, e: Event, s': State)
    requires RingsValid(s) && PopStep(s, e, s') && RingsValid(s')
    ensures s'.owner != s.owner && (!s.owner.Idle? ==> OwnerLeft(s') < OwnerLeft(s))
  {}

  lemma StealApart(s: State, k: nat, e: Event, s': State)
    requires RingsValid(s) && k < |s.thieves| && StealStep(s, k, e, s') && RingsValid(s')
    ensures s'.owner == s.owner && OwnerLeft(s') == OwnerLeft(s)
  {}

  /** Likewise for thief `k`. */
  lemma ThiefProgress(s: State, e: Event, s': State, k: nat)
    requires RingsValid(s) && Step(s, e, s')
    ensures At(s', k) != At(s, k) && !At(s, k).Away? ==> ThiefLeft(At(s', k)) < ThiefLeft(At(s, k))
  {
    hide PushStep, PopStep;
    if PushStep(s, e, s') || PopStep(s, e, s') {
      OwnerApart(s, e, s');
    } else {
      var j: nat :| j < |s.thieves| && StealStep(s, j, e, s');
    }
  }

  lemma OwnerApart(s: State, e: Event, s': State)
    requires RingsValid(s) && (PushStep(s, e, s') || PopStep(s, e, s'))
    ensures s'.thieves == s.thieves
  {}

  // ---------------------------------------------------------------- in every run

  /** How many of the steps from `i` to `j` of a run are the owner's. */
  function OwnerMoves(states: seq<State>, i: nat, j: nat): nat
    requires i <= j < |states|
    decreases j
  {
    if i == j then 0
    else OwnerMoves(states, i, j - 1) + if states[j].owner != states[j - 1].owner then 1 else 0
  }

  /** How many are thief `k`'s. */
  function ThiefMoves(states: seq<State>, k: nat, i: nat, j: nat): nat
    requires i <= j < |states|
    decreases j
  {
    if i == j then 0
    else ThiefMoves(states, k, i, j - 1) + if At(states[j], k) != At(states[j - 1], k) then 1 else 0
  }

  /** Wait-free: while an operation of the owner is under way, however the thieves interleave, the
      owner takes at most as many steps as were left, so at most five more than its ring has slots. */
  lemma {:induction false} OwnerIsWaitFree(
    states: seq<State>, events: seq<Event>, cap: nat, thieves: nat, i: nat, j: nat)
    requires IsRun(states, events, cap, thieves) && i <= j <= |events|
    requires forall n :: i <= n < j ==> !states[n].owner.Idle?
    ensures RingsValid(states[i]) && RingsValid(states[j])
    ensures OwnerMoves(states, i, j) + OwnerLeft(states[j]) <= OwnerLeft(states[i])
    ensures OwnerMoves(states, i, j) <= states[i].rings[states[i].ring].cap + 5
    decreases j
  {
    hide Inv, OwnerLeft, Step, Init;
    var g := RunInvariant(states, events, cap, thieves, i);
    var h := RunInvariant(states, events, cap, thieves, j);
    InvRings(states[i], g);
    InvRings(states[j], h);
    OwnerLeftBound(states[i], g);
    if i < j {
      OwnerIsWaitFree(states, events, cap, thieves, i, j - 1);
      var before := RunInvariant(states, events, cap, thieves, j - 1);
      OwnerProgress(states[j - 1], events[j - 1], states[j], before);
    }
  }

  /** And a thief at most four within one `steal`. */
  lemma {:induction false} ThiefIsWaitFree(
    states: seq<State>, events: seq<Event>, cap: nat, thieves: nat, k: nat, i: nat, j: nat)
    requires IsRun(states, events, cap, thieves) && i <= j <= |events|
    requires forall n :: i <= n < j ==> !At(states[n], k).Away?
    ensures ThiefMoves(states, k, i, j) + ThiefLeft(At(states[j], k)) <= ThiefLeft(At(states[i], k)) <= 4
    decreases j
  {
    hide Step, Init;
    if i < j {
      ThiefIsWaitFree(states, events, cap, thieves, k, i, j - 1);
      ThiefProgress(states[j - 1], events[j - 1], states[j], k);
    }
  }
}
