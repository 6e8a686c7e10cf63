/** What `pop` and `steal` answer: when they may come back empty-handed, and what a lone one brings. */
module WorkStealingAnswers {
  import opened Options
  import opened WorkStealingDeque
  import opened WorkStealingSafety
  import opened WorkStealingProgress

  // ---------------------------------------------------------------- empty-handed

  /** Nothing is left for a thief: no task, or one that a running `pop` has laid claim to. */
  ghost predicate NothingLeft(s: State, h: seq<Task>) {
    || |h| == s.top
    || (|h| == s.top + 1 && s.bottom == s.top && (s.owner.PopLoadTop? || s.owner.PopGet? || s.owner.PopCas?))
  }

  /** A steal brings nothing only when nothing is left, or somebody has taken a task since it began. */
  lemma EmptyHanded(s: State, k: nat, e: Event, s': State, h: seq<Task>)
    requires Inv(s, h) && k < |s.thieves| && StealStep(s, k, e, s') && e == StealReturns(k, None)
    ensures s.thieves[k].StealLoadBottom? || s.thieves[k].StealCas?
    ensures s.thieves[k].t <= s.top && (s.thieves[k].t == s.top ==> NothingLeft(s, h))
  {
    assert ThiefOk(s, h, k);
  }

  /** The `top` a thief works with is the one it found when it began. */
  lemma {:induction false} BegunAt(
    states: seq<State>, events: seq<Event>, cap: nat, thieves: nat, k: nat, i: nat, j: nat)
    requires IsRun(states, events, cap, thieves) && i < j <= |events|
    requires At(states[i], k).Away? && forall n :: i < n <= j ==> !At(states[n], k).Away?
    ensures At(states[j], k).t == states[i].top
    decreases j
  {
    hide Init, Step;
    OneThief(states[j - 1], events[j - 1], states[j], k);
    if i < j - 1 { BegunAt(states, events, cap, thieves, k, i, j - 1); }
  }

  /** One step leaves a thief where it is, or takes it one step on. */
  lemma OneThief(s: State, e: Event, s': State, k: nat)
    requires RingsValid(s) && Step(s, e, s') && !At(s', k).Away?
    ensures At(s', k).t == if At(s, k).Away? then s.top else At(s, k).t
  {
    hide PushStep, PopStep;
    if PushStep(s, e, s') || PopStep(s, e, s') {
      OwnerApart(s, e, s');
    } else {
      var j: nat :| j < |s.thieves| && StealStep(s, j, e, s');
    }
  }

  /** Over runs: a steal that brings nothing although nobody took a task while it ran found nothing left
      at the end. */
  lemma StealFailsForCause(
    states: seq<State>, events: seq<Event>, cap: nat, thieves: nat, k: nat, i: nat, j: nat) returns (h: seq<Task>)
    requires IsRun(states, events, cap, thieves) && i < j < |events| && events[j] == StealReturns(k, None)
    requires At(states[i], k).Away? && forall n :: i < n <= j ==> !At(states[n], k).Away?
    ensures Inv(states[j], h) && states[i].top <= states[j].top
    ensures states[j].top == states[i].top ==> NothingLeft(states[j], h)
  {
    hide Init, Inv;
    h := RunInvariant(states, events, cap, thieves, j);
    BegunAt(states, events, cap, thieves, k, i, j);
    InvRings(states[j], h);
    var j' := j + 1;
    assert Step(states[j], events[j], states[j']);
    ReturnIsSteal(states[j], events[j], states[j'], k);
    EmptyHanded(states[j], k, events[j], states[j'], h);
  }

  lemma ReturnIsSteal(s: State, e: Event, s': State, k: nat)
    requires RingsValid(s) && Step(s, e, s') && e.StealReturns? && e.thief == k
    ensures k < |s.thieves| && StealStep(s, k, e, s')
  {}

  // ---------------------------------------------------------------- one thread alone

  /** Thief `k` takes the next five steps. */
  ghost predicate AloneSteals(states: seq<State>, events: seq<Event>, k: nat) {
    && |states| == 6 && |events| == 5
    && forall n :: 0 <= n < 5 ==>
      RingsValid(states[n]) && k < |states[n].thieves| && StealStep(states[n], k, events[n], states[n + 1])
  }

  /** A steal that nobody disturbs, from a deque that is not empty, returns the oldest task. */
  lemma LoneSteal(states: seq<State>, events: seq<Event>, k: nat, h: seq<Task>)
    requires AloneSteals(states, events, k) && Inv(states[0], h)
    requires states[0].owner.Idle? && states[0].thieves[k].Away? && states[0].top < |h|
    ensures events[4] == StealReturns(k, Some(h[states[0].top])) && states[5].top == states[0].top + 1
    ensures forall n :: 0 <= n < 4 ==> events[n] == Silent
  {
    var t := states[0].top;
    LoneStep(states[0], k, events[0], states[1], h);
    LoneStep(states[1], k, events[1], states[2], h);
    LoneStep(states[2], k, events[2], states[3], h);
    LoneStep(states[3], k, events[3], states[4], h);
    hide Inv, StealStep, RingsValid;
    LoneTakes(states[4], k, events[4], states[5], h);
  }

  /** On its way, it changes nothing but its own position. */
  lemma LoneStep(s: State, k: nat, e: Event, s': State, h: seq<Task>)
    requires Inv(s, h) && k < |s.thieves| && StealStep(s, k, e, s') && s.owner.Idle? && s.top < |h|
    requires !s.thieves[k].Away? ==> s.thieves[k].t == s.top
    requires !s.thieves[k].StealCas?
    ensures Inv(s', h) && e == Silent && s'.owner.Idle? && s'.top == s.top && k < |s'.thieves|
    ensures !s'.thieves[k].Away? && s'.thieves[k].t == s.top
    ensures ThiefLeft(s'.thieves[k]) == (if s.thieves[k].Away? then 4 else ThiefLeft(s.thieves[k]) - 1)
  {
    StealKeepsInvariant(s, k, e, s', h);
  }

  lemma LoneTakes(s: State, k: nat, e: Event, s': State, h: seq<Task>)
    requires Inv(s, h) && k < |s.thieves| && StealStep(s, k, e, s') && s.top < |h|
    requires s.thieves[k].StealCas? && s.thieves[k].t == s.top
    ensures e == StealReturns(k, Some(h[s.top])) && s'.top == s.top + 1
  {
    assert ThiefOk(s, h, k);
  }

  // ---------------------------------------------------------------- growing

  /** A new ring is made only when the old one was full of tasks by the `top` that was read, and it is
      twice as big. */
  lemma GrowsWhenFull(s: State, e: Event, s': State, h: seq<Task>)
    requires Inv(s, h) && Step(s, e, s') && |s'.rings| > |s.rings|
    ensures s.owner.PushLoadRing? && s.owner.b == s.owner.t + s.rings[s.ring].cap
    ensures s'.rings == s.rings + [s'.rings[|s.rings|]] && s'.rings[|s.rings|].cap == 2 * s.rings[s.ring].cap
  {
    hide ThievesOk;
    if !PushStep(s, e, s') && !PopStep(s, e, s') { ThievesKeepRings(s, e, s'); }
  }

  lemma ThievesKeepRings(s: State, e: Event, s': State)
    requires RingsValid(s) && exists k: nat :: k < |s.thieves| && StealStep(s, k, e, s')
    ensures s'.rings == s.rings
  {}
}
