/** The Chase-Lev deque as a transition system.  Every shared access of `push`, `pop` and
    `steal` is one step; one owner and any number of thieves interleave freely, and memory
    is sequentially consistent. */
module WorkStealingDeque {
  import opened Options
  import opened Arithmetic

  /** A `Task*`.  A null pointer is `None`. */
  type Task = int

  // ---------------------------------------------------------------- the ring

  /** A power-of-two ring of task slots, indexed by masking. */
  datatype Ring = Ring(cap: nat, slots: seq<Task>) {
    predicate Valid() {
      IsPow2(cap) && |slots| == cap
    }

    function Get(i: nat): Task
      requires Valid()
    {
      slots[Slot(i, cap)]
    }

    function Put(i: nat, x: Task): (r: Ring)
      requires Valid()
      ensures r.Valid() && r.cap == cap
      ensures r.Get(i) == x
      ensures forall j: nat :: Slot(j, cap) != Slot(i, cap) ==> r.Get(j) == Get(j)
    {
      Ring(cap, slots[Slot(i, cap) := x])
    }
  }

  predicate IsPow2(n: nat) {
    n >= 1 && (n == 1 || (n % 2 == 0 && IsPow2(n / 2)))
  }

  /** Bitwise conjunction of two non-negative integers. */
  function BitAnd(a: nat, b: nat): nat {
    if a == 0 || b == 0 then 0 else
      (if a % 2 == 1 && b % 2 == 1 then 1 else 0) + 2 * BitAnd(a / 2, b / 2)
  }

  /** `i & mask`, where `mask` is `cap - 1`. */
  function Slot(i: nat, cap: nat): (r: nat)
    requires IsPow2(cap)
    ensures r < cap
  {
    MaskIsRemainder(i, cap);
    BitAnd(i, cap - 1)
  }

  /** Masking with `cap - 1` is the remainder modulo a power of two `cap`. */
  lemma {:induction false} MaskIsRemainder(i: nat, cap: nat)
    requires IsPow2(cap)
    ensures BitAnd(i, cap - 1) == i % cap
    decreases cap
  {
    if cap == 1 {
      assert BitAnd(i, 0) == 0;
    } else {
      var d := cap / 2;
      assert cap == 2 * d;
      MaskIsRemainder(i / 2, d);
      MaskStep(i, d);
    }
  }

  lemma MaskStep(i: nat, d: nat)
    requires d >= 1 && BitAnd(i / 2, d - 1) == (i / 2) % d
    ensures BitAnd(i, 2 * d - 1) == i % (2 * d)
  {
    MaskHalves(i, d);
    HalfRemainder(i, d);
  }

  lemma MaskHalves(i: nat, d: nat)
    requires d >= 1
    ensures BitAnd(i, 2 * d - 1) == i % 2 + 2 * BitAnd(i / 2, d - 1)
  {
    assert (2 * d - 1) % 2 == 1 && (2 * d - 1) / 2 == d - 1;
  }

  /** Indices less than a capacity apart never share a slot. */
  lemma SlotsDistinct(i: nat, j: nat, cap: nat)
    requires IsPow2(cap) && i < j < i + cap
    ensures Slot(i, cap) != Slot(j, cap)
  {
    MaskIsRemainder(i, cap);
    MaskIsRemainder(j, cap);
    RemaindersDiffer(i, j, cap);
  }

  lemma DoublingKeepsPow2(cap: nat)
    requires IsPow2(cap)
    ensures IsPow2(cap * 2)
  {
    assert (cap * 2) % 2 == 0 && (cap * 2) / 2 == cap;
  }

  // ---------------------------------------------------------------- states

  /** Where the owner is inside `push` or `pop`, with its locals. */
  datatype OwnerPc =
    | Idle
    | PushLoadTop(x: Task, b: nat)
    | PushLoadRing(x: Task, b: nat, t: nat)
    | PushCopy(x: Task, b: nat, t: nat, na: nat, i: nat)    // growing: slots [t, i) copied
    | PushPut(x: Task, b: nat, t: nat)
    | PushStoreBottom(x: Task, b: nat)
    | PopLoadRing(p: int)
    | PopStoreBottom(p: int)
    | PopLoadTop(p: int)
    | PopGet(b: nat, t: nat)
    | PopCas(b: nat, x: Task)
    | PopRestore(p: int, r: Option<Task>)

  /** Where a thief is inside `steal`. */
  datatype ThiefPc =
    | Away
    | StealLoadBottom(t: nat)
    | StealLoadRing(t: nat)
    | StealGet(t: nat, a: nat)
    | StealCas(t: nat, x: Task)

  /** The shared memory and every thread's position.  `rings` holds every ring ever made;
      all but `rings[ring]` are retired, or not yet published. */
  datatype State = State(
    top: nat,
    bottom: int,
    rings: seq<Ring>,
    ring: nat,
    owner: OwnerPc,
    thieves: seq<ThiefPc>)

  /** What a step does that a caller can see. */
  datatype Event =
    | Silent
    | Pushed(x: Task)
    | PopReturns(r: Option<Task>)
    | StealReturns(thief: nat, r: Option<Task>)

  ghost predicate Init(s: State, cap: nat, thieves: nat) {
    && IsPow2(cap)
    && s.top == 0 && s.bottom == 0 && s.owner == Idle
    && |s.rings| == 1 && s.ring == 0
    && s.rings[0].cap == cap && s.rings[0].Valid()          // slots start uninitialised
    && |s.thieves| == thieves
    && (forall i :: 0 <= i < thieves ==> s.thieves[i] == Away)
  }

  ghost predicate RingsValid(s: State) {
    && s.ring < |s.rings|
    && forall a :: 0 <= a < |s.rings| ==> s.rings[a].Valid()
  }

  // ---------------------------------------------------------------- steps

  ghost predicate PushStep(s: State, e: Event, s': State)
    requires RingsValid(s)
  {
    match s.owner
    case Idle =>
      e == Silent && exists x: Task, b: nat :: b == s.bottom && s' == s.(owner := PushLoadTop(x, b))
    case PushLoadTop(x, b) =>
      e == Silent && s' == s.(owner := PushLoadRing(x, b, s.top))
    case PushLoadRing(x, b, t) =>
      e == Silent &&
      if b - t > s.rings[s.ring].cap - 1 then
        exists na: Ring :: na.Valid() && na.cap == s.rings[s.ring].cap * 2 &&
          s' == s.(rings := s.rings + [na], owner := PushCopy(x, b, t, |s.rings|, t))
      else
        s' == s.(owner := PushPut(x, b, t))
    case PushCopy(x, b, t, na, i) =>
      e == Silent && na < |s.rings| &&
      if i < b then
        s' == s.(rings := s.rings[na := s.rings[na].Put(i, s.rings[s.ring].Get(i))],
                 owner := PushCopy(x, b, t, na, i + 1))
      else
        s' == s.(ring := na, owner := PushPut(x, b, t))
    case PushPut(x, b, t) =>
      e == Silent &&
      s' == s.(rings := s.rings[s.ring := s.rings[s.ring].Put(b, x)], owner := PushStoreBottom(x, b))
    case PushStoreBottom(x, b) =>
      e == Pushed(x) && s' == s.(bottom := b + 1, owner := Idle)
    case _ => false
  }

  ghost predicate PopStep(s: State, e: Event, s': State)
    requires RingsValid(s)
  {
    match s.owner
    case Idle =>
      e == Silent && s' == s.(owner := PopLoadRing(s.bottom - 1))
    case PopLoadRing(p) =>
      e == Silent && s' == s.(owner := PopStoreBottom(p))
    case PopStoreBottom(p) =>
      e == Silent && s' == s.(bottom := p, owner := PopLoadTop(p))
    case PopLoadTop(p) =>
      e == Silent &&
      s' == s.(owner := if s.top <= p then PopGet(p, s.top) else PopRestore(p, None))
    case PopGet(b, t) =>
      var x := s.rings[s.ring].Get(b);
      if t == b then
        e == Silent && s' == s.(owner := PopCas(b, x))
      else
        e == PopReturns(Some(x)) && s' == s.(owner := Idle)
    case PopCas(b, x) =>
      e == Silent &&
      if s.top == b then s' == s.(top := b + 1, owner := PopRestore(b, Some(x)))
      else s' == s.(owner := PopRestore(b, None))
    case PopRestore(p, r) =>
      e == PopReturns(r) && s' == s.(bottom := p + 1, owner := Idle)
    case _ => false
  }

  ghost predicate StealStep(s: State, k: nat, e: Event, s': State)
    requires RingsValid(s) && k < |s.thieves|
  {
    match s.thieves[k]
    case Away =>
      e == Silent && s' == s.(thieves := s.thieves[k := StealLoadBottom(s.top)])
    case StealLoadBottom(t) =>
      if t < s.bottom then
        e == Silent && s' == s.(thieves := s.thieves[k := StealLoadRing(t)])
      else
        e == StealReturns(k, None) && s' == s.(thieves := s.thieves[k := Away])
    case StealLoadRing(t) =>
      e == Silent && s' == s.(thieves := s.thieves[k := StealGet(t, s.ring)])
    case StealGet(t, a) =>
      e == Silent && a < |s.rings| && s' == s.(thieves := s.thieves[k := StealCas(t, s.rings[a].Get(t))])
    case StealCas(t, x) =>
      if s.top == t then
        e == StealReturns(k, Some(x)) && s' == s.(top := t + 1, thieves := s.thieves[k := Away])
      else
        e == StealReturns(k, None) && s' == s.(thieves := s.thieves[k := Away])
  }
}
