// The semaphore-and-lock queue: each call as one class method, and each call cut into its
// separate steps with any number of threads between them.
module MtQueues {
  import opened Types

  /** Calls that run without interruption. */
  class MtQueue<T> {
    var queue: seq<T>
    // The count of the semaphore.
    var qsize: nat

    ghost predicate Valid()
      reads this
    {
      qsize == |queue|
    }

    constructor ()
      ensures Valid() && queue == []
    {
      queue, qsize := [], 0;
    }

    /** acquire lets the call through only with a permit. */
    method Pop() returns (item: T)
      requires Valid() && qsize > 0
      modifies this
      ensures Valid() && old(queue) == [item] + queue
    {
      qsize := qsize - 1;
      item := queue[0];
      queue := queue[1..];
    }

    method Push(item: T)
      requires Valid()
      modifies this
      ensures Valid() && queue == old(queue) + [item]
    {
      queue := queue + [item];
      qsize := qsize + 1;
    }

    method Empty() returns (r: bool)
      requires Valid()
      ensures r <==> queue == []
    {
      r := queue == [];
    }
  }

  /** Where a thread stands inside push, pop or empty. */
  datatype Pc<T> =
    | Idle
    | PopAcquired
    | PopLocked
    | PopTaken(taken: T)
    | PushWaiting(item: T)
    | PushLocked(item: T)
    | PushQueued
    | PushUnlocked
    | EmptyLocked
    | EmptyRead(wasEmpty: bool)

  datatype State<T> = State(
    queue: seq<T>,
    permits: nat,
    lock: Option<nat>,
    threads: map<nat, Pc<T>>,
    // Histories: what each thread passed to its push calls, what entered the queue and by whom,
    // what pop calls returned and to whom, and what empty calls returned.
    given: map<nat, seq<T>>,
    entered: seq<(nat, T)>,
    returned: seq<(nat, T)>,
    told: seq<bool>)

  function PcOf<T>(s: State<T>, t: nat): Pc<T> {
    if t in s.threads then s.threads[t] else Idle
  }

  function Given<T>(s: State<T>, t: nat): seq<T> {
    if t in s.given then s.given[t] else []
  }

  datatype Step<T> =
    | BeginPush(item: T) | LockPush | EnterPush | UnlockPush | Release
    | Acquire | LockPop | LeavePop | UnlockPop
    | LockEmpty | ReadEmpty | UnlockEmpty

  predicate Enabled<T>(s: State<T>, t: nat, a: Step<T>) {
    var pc := PcOf(s, t);
    match a
    case BeginPush(_) => pc.Idle?
    case LockPush => pc.PushWaiting? && s.lock.None?
    case EnterPush => pc.PushLocked?
    case UnlockPush => pc.PushQueued?
    case Release => pc.PushUnlocked?
    case Acquire => pc.Idle? && s.permits > 0
    case LockPop => pc.PopAcquired? && s.lock.None?
    case LeavePop => pc.PopLocked?
    case UnlockPop => pc.PopTaken?
    case LockEmpty => pc.Idle? && s.lock.None?
    case ReadEmpty => pc.EmptyLocked?
    case UnlockEmpty => pc.EmptyRead?
  }

  /** front() on an empty queue is undefined: None. */
  function Apply<T>(s: State<T>, t: nat, a: Step<T>): Option<State<T>>
    requires Enabled(s, t, a)
  {
    var pc := PcOf(s, t);
    match a
    case BeginPush(x) =>
      Some(s.(given := s.given[t := Given(s, t) + [x]], threads := s.threads[t := PushWaiting(x)]))
    case LockPush => Some(s.(lock := Option.Some(t), threads := s.threads[t := PushLocked(pc.item)]))
    case EnterPush =>
      Some(s.(queue := s.queue + [pc.item], entered := s.entered + [(t, pc.item)],
              threads := s.threads[t := PushQueued]))
    case UnlockPush => Some(s.(lock := None, threads := s.threads[t := PushUnlocked]))
    case Release => Some(s.(permits := s.permits + 1, threads := s.threads[t := Idle]))
    case Acquire => Some(s.(permits := s.permits - 1, threads := s.threads[t := PopAcquired]))
    case LockPop => Some(s.(lock := Option.Some(t), threads := s.threads[t := PopLocked]))
    case LeavePop =>
      if s.queue == [] then None
      else
        Some(s.(queue := s.queue[1..], threads := s.threads[t := PopTaken(s.queue[0])]))
    case UnlockPop =>
      Some(s.(lock := None, returned := s.returned + [(t, pc.taken)], threads := s.threads[t := Idle]))
    case LockEmpty => Some(s.(lock := Option.Some(t), threads := s.threads[t := EmptyLocked]))
    case ReadEmpty => Some(s.(threads := s.threads[t := EmptyRead(s.queue == [])]))
    case UnlockEmpty => Some(s.(lock := None, told := s.told + [pc.wasEmpty], threads := s.threads[t := Idle]))
  }

  predicate HoldsLock<T>(pc: Pc<T>) {
    pc.PopLocked? || pc.PopTaken? || pc.PushLocked? || pc.PushQueued? || pc.EmptyLocked? || pc.EmptyRead?
  }

  /** Past acquire, not yet popped. */
  predicate Claims<T>(pc: Pc<T>) {
    pc.PopAcquired? || pc.PopLocked?
  }

  /** Past push, not yet released. */
  predicate Owes<T>(pc: Pc<T>) {
    pc.PushQueued? || pc.PushUnlocked?
  }

  ghost function Claimers<T(!new)>(s: State<T>): set<nat> {
    set t | t in s.threads && Claims(s.threads[t])
  }

  ghost function Owers<T(!new)>(s: State<T>): set<nat> {
    set t | t in s.threads && Owes(s.threads[t])
  }

  function Values<T>(ps: seq<(nat, T)>): (vs: seq<T>)
    ensures |vs| == |ps| && forall i :: 0 <= i < |ps| ==> vs[i] == ps[i].1
  {
    seq(|ps|, i requires 0 <= i < |ps| => ps[i].1)
  }

  /** The values of one thread, in order. */
  function Of<T>(ps: seq<(nat, T)>, t: nat): seq<T> {
    if ps == [] then []
    else
      var last := ps[|ps| - 1];
      Of(ps[..|ps| - 1], t) + (if last.0 == t then [last.1] else [])
  }

  /** What the thread in the lock has taken out of the queue and not returned yet. */
  function InHand<T>(s: State<T>): seq<T> {
    if s.lock.Some? && PcOf(s, s.lock.value).PopTaken? then [PcOf(s, s.lock.value).taken] else []
  }

  /** What a thread was given to push and has not put into the queue yet. */
  function Underway<T>(pc: Pc<T>): seq<T> {
    match pc
    case PushWaiting(x) => [x]
    case PushLocked(x) => [x]
    case _ => []
  }

  /** Mutual exclusion. */
  ghost predicate LockOk<T(!new)>(s: State<T>) {
    && (forall t: nat :: HoldsLock(PcOf(s, t)) ==> s.lock == Option.Some(t))
    && (s.lock.Some? ==> HoldsLock(PcOf(s, s.lock.value)))
  }

  /** First in, first out, from what push calls were given to what pop calls returned. */
  ghost predicate Ordered<T(!new)>(s: State<T>) {
    && Values(s.entered) == Values(s.returned) + InHand(s) + s.queue
    && (forall t: nat :: Given(s, t) == Of(s.entered, t) + Underway(PcOf(s, t)))
    && (forall t: nat :: PcOf(s, t).EmptyRead? ==> (PcOf(s, t).wasEmpty <==> s.queue == []))
  }

  ghost predicate Inv<T(!new)>(s: State<T>) {
    s.permits + |Claimers(s)| + |Owers(s)| == |s.queue| && LockOk(s) && Ordered(s)
  }

  lemma SetGains(a: set<nat>, b: set<nat>, t: nat)
    requires t !in a && b == a + {t}
    ensures |b| == |a| + 1
  {
  }

  lemma ClaimersAfter<T(!new)>(s: State<T>, u: State<T>, t: nat)
    requires u.threads == s.threads[t := PcOf(u, t)]
    ensures |Claimers(u)| == |Claimers(s)|
                             + (if Claims(PcOf(u, t)) then 1 else 0) - (if Claims(PcOf(s, t)) then 1 else 0)
  {
    var rest := Claimers(s) - {t};
    assert Claimers(s) == if Claims(PcOf(s, t)) then rest + {t} else rest;
    assert Claimers(u) == if Claims(PcOf(u, t)) then rest + {t} else rest;
    SetGains(rest, rest + {t}, t);
  }

  lemma OwersAfter<T(!new)>(s: State<T>, u: State<T>, t: nat)
    requires u.threads == s.threads[t := PcOf(u, t)]
    ensures |Owers(u)| == |Owers(s)|
                          + (if Owes(PcOf(u, t)) then 1 else 0) - (if Owes(PcOf(s, t)) then 1 else 0)
  {
    var rest := Owers(s) - {t};
    assert Owers(s) == if Owes(PcOf(s, t)) then rest + {t} else rest;
    assert Owers(u) == if Owes(PcOf(u, t)) then rest + {t} else rest;
    SetGains(rest, rest + {t}, t);
  }

  /** A thread about to pop finds the queue non-empty. */
  lemma FrontIsSafe<T(!new)>(s: State<T>, t: nat)
    requires Inv(s) && Claims(PcOf(s, t))
    ensures s.queue != []
  {
    assert t in Claimers(s);
    SetGains(Claimers(s) - {t}, Claimers(s), t);
  }

  lemma StepDefined<T(!new)>(s: State<T>, t: nat, a: Step<T>)
    requires Inv(s) && Enabled(s, t, a)
    ensures Apply(s, t, a).Some?
  {
    if a.LeavePop? {
      FrontIsSafe(s, t);
    }
  }

  lemma ValuesSnoc<T>(ps: seq<(nat, T)>, t: nat, x: T)
    ensures Values(ps + [(t, x)]) == Values(ps) + [x]
  {
  }

  lemma OfSnoc<T>(ps: seq<(nat, T)>, t: nat, x: T, r: nat)
    ensures Of(ps + [(t, x)], r) == Of(ps, r) + (if r == t then [x] else [])
  {
    assert (ps + [(t, x)])[..|ps|] == ps;
  }

  /** A step changes the place of its own thread only. */
  lemma OtherThreads<T>(s: State<T>, t: nat, a: Step<T>, r: nat)
    requires Enabled(s, t, a) && Apply(s, t, a).Some?
    ensures r != t ==> PcOf(Apply(s, t, a).value, r) == PcOf(s, r)
    ensures Apply(s, t, a).value.threads == s.threads[t := PcOf(Apply(s, t, a).value, t)]
  {
  }

  lemma StepLock<T(!new)>(s: State<T>, t: nat, a: Step<T>)
    requires LockOk(s) && Enabled(s, t, a) && Apply(s, t, a).Some?
    ensures LockOk(Apply(s, t, a).value)
  {
    var u := Apply(s, t, a).value;
    forall r: nat
      ensures r != t ==> PcOf(u, r) == PcOf(s, r)
    {
      OtherThreads(s, t, a, r);
    }
  }

  lemma StepPermits<T(!new)>(s: State<T>, t: nat, a: Step<T>)
    requires s.permits + |Claimers(s)| + |Owers(s)| == |s.queue| && Enabled(s, t, a) && Apply(s, t, a).Some?
    ensures var u := Apply(s, t, a).value;
            u.permits + |Claimers(u)| + |Owers(u)| == |u.queue|
  {
    var u := Apply(s, t, a).value;
    OtherThreads(s, t, a, t);
    ClaimersAfter(s, u, t);
    OwersAfter(s, u, t);
    hide Claimers, Owers;
  }

  /** What is in hand changes only when a popping thread takes the front or returns it. */
  lemma StepInHand<T(!new)>(s: State<T>, t: nat, a: Step<T>)
    requires LockOk(s) && Enabled(s, t, a) && Apply(s, t, a).Some?
    ensures var u := Apply(s, t, a).value;
            InHand(u) == match a
                         case LeavePop => [s.queue[0]]
                         case UnlockPop => []
                         case _ => InHand(s)
    ensures a.LeavePop? ==> s.queue != [] && InHand(s) == []
    ensures a.UnlockPop? ==> InHand(s) == [PcOf(s, t).taken]
  {
    assert HoldsLock(PcOf(s, t)) ==> s.lock == Option.Some(t);
    if s.lock.Some? {
      OtherThreads(s, t, a, s.lock.value);
      assert HoldsLock(PcOf(s, s.lock.value));
    }
  }

  lemma MoveFront<T>(e: seq<T>, r: seq<T>, q: seq<T>)
    requires q != [] && e == r + [] + q
    ensures e == r + [q[0]] + q[1..]
  {
    assert q == [q[0]] + q[1..];
  }

  lemma StepQueue<T(!new)>(s: State<T>, t: nat, a: Step<T>)
    requires LockOk(s) && Enabled(s, t, a) && Apply(s, t, a).Some?
    requires Values(s.entered) == Values(s.returned) + InHand(s) + s.queue
    ensures var u := Apply(s, t, a).value;
            Values(u.entered) == Values(u.returned) + InHand(u) + u.queue
  {
    StepInHand(s, t, a);
    hide InHand, LockOk, HoldsLock;
    if a.EnterPush? {
      ValuesSnoc(s.entered, t, PcOf(s, t).item);
    } else if a.LeavePop? {
      MoveFront(Values(s.entered), Values(s.returned), s.queue);
    } else if a.UnlockPop? {
      ValuesSnoc(s.returned, t, PcOf(s, t).taken);
    }
    hide Values;
  }

  /** What a step gives to thread r, puts into the queue for it, and leaves under way with it. */
  lemma StepOfThread<T>(s: State<T>, t: nat, a: Step<T>, r: nat)
    requires Enabled(s, t, a) && Apply(s, t, a).Some?
    ensures var u := Apply(s, t, a).value;
            && Given(u, r) == Given(s, r) + (if r == t && a.BeginPush? then [a.item] else [])
            && u.entered == s.entered + (if a.EnterPush? then [(t, PcOf(s, t).item)] else [])
            && Underway(PcOf(u, r)) == if r == t && a.BeginPush? then [a.item]
                                       else if r == t && a.EnterPush? then []
                                       else Underway(PcOf(s, r))
    ensures r == t && a.BeginPush? ==> Underway(PcOf(s, r)) == []
    ensures r == t && a.EnterPush? ==> Underway(PcOf(s, r)) == [PcOf(s, t).item]
  {
  }

  lemma StepGiven<T(!new)>(s: State<T>, t: nat, a: Step<T>, r: nat)
    requires Enabled(s, t, a) && Apply(s, t, a).Some?
    requires Given(s, r) == Of(s.entered, r) + Underway(PcOf(s, r))
    ensures var u := Apply(s, t, a).value;
            Given(u, r) == Of(u.entered, r) + Underway(PcOf(u, r))
  {
    StepOfThread(s, t, a, r);
    if a.EnterPush? {
      OfSnoc(s.entered, t, PcOf(s, t).item, r);
    }
    hide Of, Underway, Given, Apply, PcOf;
  }

  lemma StepEmpty<T(!new)>(s: State<T>, t: nat, a: Step<T>, r: nat)
    requires Inv(s) && Enabled(s, t, a) && Apply(s, t, a).Some?
    ensures var u := Apply(s, t, a).value;
            PcOf(u, r).EmptyRead? ==> (PcOf(u, r).wasEmpty <==> u.queue == [])
  {
    hide Claimers, Owers, Values, InHand, Of, Underway;
    OtherThreads(s, t, a, r);
    if r != t && PcOf(s, r).EmptyRead? {
      assert s.lock == Option.Some(r);
      assert HoldsLock(PcOf(s, t)) ==> s.lock == Option.Some(t);
    }
  }

  lemma StepKeepsInv<T(!new)>(s: State<T>, t: nat, a: Step<T>)
    requires Inv(s) && Enabled(s, t, a)
    ensures Apply(s, t, a).Some? && Inv(Apply(s, t, a).value)
  {
    hide Apply, Enabled, Claimers, Owers, InHand, Values, Of, Underway, PcOf, HoldsLock;
    StepDefined(s, t, a);
    StepPermits(s, t, a);
    StepLock(s, t, a);
    StepQueue(s, t, a);
    forall r: nat
      ensures var u := Apply(s, t, a).value;
              && Given(u, r) == Of(u.entered, r) + Underway(PcOf(u, r))
              && (PcOf(u, r).EmptyRead? ==> (PcOf(u, r).wasEmpty <==> u.queue == []))
    {
      StepGiven(s, t, a, r);
      StepEmpty(s, t, a, r);
    }
  }

  function Fresh<T>(): State<T> {
    State([], 0, None, map[], map[], [], [], [])
  }

  /** A run of steps by any threads, each enabled and defined. */
  ghost predicate Run<T(!new)>(s: State<T>, steps: seq<(nat, Step<T>)>, u: State<T>)
    decreases |steps|
  {
    if steps == [] then s == u
    else
      && Enabled(s, steps[0].0, steps[0].1)
      && Apply(s, steps[0].0, steps[0].1).Some?
      && Run(Apply(s, steps[0].0, steps[0].1).value, steps[1..], u)
  }

  lemma {:induction false} RunKeepsInv<T(!new)>(s: State<T>, steps: seq<(nat, Step<T>)>, u: State<T>)
    requires Inv(s) && Run(s, steps, u)
    ensures Inv(u)
    decreases |steps|
  {
    if steps != [] {
      StepKeepsInv(s, steps[0].0, steps[0].1);
      RunKeepsInv(Apply(s, steps[0].0, steps[0].1).value, steps[1..], u);
    }
  }

  lemma ReachableInv<T(!new)>(steps: seq<(nat, Step<T>)>, u: State<T>)
    requires Run(Fresh(), steps, u)
    ensures Inv(u)
  {
    assert Claimers<T>(Fresh()) == {} && Owers<T>(Fresh()) == {};
    RunKeepsInv(Fresh(), steps, u);
  }

  /**
   * In every reachable state the permits are accounted for, no step reads an empty queue,
   * a release never lifts the semaphore above the number of queued values, and one thread
   * at most is inside the lock.
   */
  lemma EveryRunIsSafe<T(!new)>(steps: seq<(nat, Step<T>)>, u: State<T>)
    requires Run(Fresh(), steps, u)
    ensures u.permits + |Claimers(u)| + |Owers(u)| == |u.queue|
    ensures forall t: nat, a: Step<T> :: Enabled(u, t, a) ==> Apply(u, t, a).Some?
    ensures forall t: nat :: Enabled(u, t, Release) ==> u.permits + 1 <= |u.queue|
    ensures forall t: nat, r: nat :: HoldsLock(PcOf(u, t)) && HoldsLock(PcOf(u, r)) ==> t == r
  {
    ReachableInv(steps, u);
    forall t: nat, a: Step<T> | Enabled(u, t, a)
      ensures Apply(u, t, a).Some?
      ensures a.Release? ==> u.permits + 1 <= |u.queue|
    {
      StepDefined(u, t, a);
      if a.Release? {
        assert t in Owers(u);
        SetGains(Owers(u) - {t}, Owers(u), t);
      }
    }
  }

  /**
   * In every reachable state: what pop calls have returned, then the value that the thread in the
   * lock has taken, then the queue are together exactly what push calls have put in, in the
   * order of the lock, none lost and none twice; and what a thread has put in, then the value
   * of its push under way, is exactly what it was given, in its own order.
   */
  lemma EveryValueArrives<T(!new)>(steps: seq<(nat, Step<T>)>, u: State<T>)
    requires Run(Fresh(), steps, u)
    ensures Values(u.entered) == Values(u.returned) + InHand(u) + u.queue
    ensures forall t: nat :: PcOf(u, t).PopTaken? ==> InHand(u) == [PcOf(u, t).taken]
    ensures forall t: nat :: Given(u, t) == Of(u.entered, t) + Underway(PcOf(u, t))
    ensures forall t: nat :: PcOf(u, t).EmptyRead? ==> (PcOf(u, t).wasEmpty <==> u.queue == [])
  {
    ReachableInv(steps, u);
    hide Claimers, Owers, Run;
  }

  // ---------------------------------------------------------------------
  // Calls come to an end

  /** A step of a call that is under way, rather than the first of a new one. */
  predicate Continues<T>(a: Step<T>) {
    !a.BeginPush? && !a.Acquire? && !a.LockEmpty?
  }

  /** The steps that a call still has to take. */
  function StepsLeft<T>(pc: Pc<T>): nat {
    match pc
    case Idle => 0
    case PopAcquired => 3
    case PopLocked => 2
    case PopTaken(_) => 1
    case PushWaiting(_) => 4
    case PushLocked(_) => 3
    case PushQueued => 2
    case PushUnlocked => 1
    case EmptyLocked => 2
    case EmptyRead(_) => 1
  }

  function AllStepsLeft<T>(s: State<T>, ids: seq<nat>): nat {
    if ids == [] then 0 else StepsLeft(PcOf(s, ids[0])) + AllStepsLeft(s, ids[1..])
  }

  lemma {:induction false} OthersLeft<T(!new)>(s: State<T>, u: State<T>, t: nat, ids: seq<nat>)
    requires (forall r: nat :: r != t ==> PcOf(u, r) == PcOf(s, r)) && t !in ids
    ensures AllStepsLeft(u, ids) == AllStepsLeft(s, ids)
  {
    if ids != [] {
      assert ids[0] in ids && forall r :: r in ids[1..] ==> r in ids;
      OthersLeft(s, u, t, ids[1..]);
    }
  }

  lemma {:induction false} OneLess<T(!new)>(s: State<T>, u: State<T>, t: nat, ids: seq<nat>)
    requires forall r: nat :: r != t ==> PcOf(u, r) == PcOf(s, r)
    requires StepsLeft(PcOf(s, t)) == StepsLeft(PcOf(u, t)) + 1
    requires t in ids && forall i, j :: 0 <= i < j < |ids| ==> ids[i] != ids[j]
    ensures AllStepsLeft(s, ids) == AllStepsLeft(u, ids) + 1
  {
    var rest := ids[1..];
    assert forall i, j :: 0 <= i < j < |rest| ==> rest[i] == ids[i + 1] && rest[j] == ids[j + 1];
    if ids[0] == t {
      assert forall i :: 0 <= i < |rest| ==> rest[i] == ids[i + 1] != ids[0];
      OthersLeft(s, u, t, rest);
    } else {
      OneLess(s, u, t, rest);
    }
  }

  /** The threads inside a call, each once, and perhaps others. */
  ghost predicate ListsCalls<T(!new)>(ids: seq<nat>, s: State<T>) {
    && (forall i, j :: 0 <= i < j < |ids| ==> ids[i] != ids[j])
    && (forall t: nat :: !PcOf(s, t).Idle? ==> t in ids)
  }

  lemma StepsDecrease<T>(s: State<T>, t: nat, a: Step<T>)
    requires Enabled(s, t, a) && Continues(a) && Apply(s, t, a).Some?
    ensures StepsLeft(PcOf(s, t)) == StepsLeft(PcOf(Apply(s, t, a).value, t)) + 1
    ensures !PcOf(s, t).Idle?
  {
  }

  lemma ContinuingStep<T(!new)>(s: State<T>, t: nat, a: Step<T>, ids: seq<nat>)
    requires Inv(s) && Enabled(s, t, a) && Continues(a) && ListsCalls(ids, s)
    ensures Apply(s, t, a).Some?
    ensures var u := Apply(s, t, a).value;
            Inv(u) && ListsCalls(ids, u) && AllStepsLeft(s, ids) == AllStepsLeft(u, ids) + 1
  {
    hide Inv, Apply, Enabled, StepsLeft, PcOf;
    StepKeepsInv(s, t, a);
    StepsDecrease(s, t, a);
    var u := Apply(s, t, a).value;
    forall r: nat
      ensures r != t ==> PcOf(u, r) == PcOf(s, r)
    {
      OtherThreads(s, t, a, r);
    }
    OneLess(s, u, t, ids);
  }

  /** With a call under way, some call can go on: the queue never locks up. */
  lemma SomeCallGoesOn<T(!new)>(s: State<T>, t: nat) returns (r: nat, a: Step<T>)
    requires Inv(s) && !PcOf(s, t).Idle?
    ensures Enabled(s, r, a) && Continues(a)
  {
    r := if s.lock.Some? then s.lock.value else t;
    match PcOf(s, r)
    case PopAcquired => a := LockPop;
    case PopLocked => a := LeavePop;
    case PopTaken(_) => a := UnlockPop;
    case PushWaiting(_) => a := LockPush;
    case PushLocked(_) => a := EnterPush;
    case PushQueued => a := UnlockPush;
    case PushUnlocked => a := Release;
    case EmptyLocked => a := ReadEmpty;
    case EmptyRead(_) => a := UnlockEmpty;
  }

  /** A run in which no new call begins. */
  ghost predicate ContinuingRun<T(!new)>(s: State<T>, steps: seq<(nat, Step<T>)>, u: State<T>) {
    Run(s, steps, u) && forall i :: 0 <= i < |steps| ==> Continues(steps[i].1)
  }

  lemma {:induction false} ContinuingRunLowers<T(!new)>(s: State<T>, steps: seq<(nat, Step<T>)>, u: State<T>,
                                                        ids: seq<nat>)
    requires Inv(s) && ListsCalls(ids, s) && ContinuingRun(s, steps, u)
    ensures Inv(u) && ListsCalls(ids, u)
    ensures |steps| + AllStepsLeft(u, ids) == AllStepsLeft(s, ids)
    decreases |steps|
  {
    hide Inv, ListsCalls, AllStepsLeft, Apply, Enabled;
    if steps != [] {
      ContinuingStep(s, steps[0].0, steps[0].1, ids);
      assert forall i :: 0 <= i < |steps[1..]| ==> steps[1..][i] == steps[i + 1];
      ContinuingRunLowers(Apply(s, steps[0].0, steps[0].1).value, steps[1..], u, ids);
    }
  }

  lemma {:induction false} NoStepsLeft<T(!new)>(s: State<T>, ids: seq<nat>)
    ensures AllStepsLeft(s, ids) == 0 <==> forall t :: t in ids ==> PcOf(s, t).Idle?
  {
    if ids != [] {
      NoStepsLeft(s, ids[1..]);
      assert forall t :: t in ids <==> t == ids[0] || t in ids[1..];
    }
  }

  /**
   * From every reachable state, in whatever order threads go on with their calls: the steps to
   * come are as many as the calls have left, and as long as a call is under way, some call
   * can go on. So all calls finish once no new ones begin; there is no deadlock.
   */
  lemma EveryCallFinishes<T(!new)>(before: seq<(nat, Step<T>)>, s: State<T>, ids: seq<nat>,
                                   steps: seq<(nat, Step<T>)>, u: State<T>)
    requires Run(Fresh(), before, s) && ListsCalls(ids, s) && ContinuingRun(s, steps, u)
    ensures |steps| + AllStepsLeft(u, ids) == AllStepsLeft(s, ids)
    ensures (exists t: nat :: !PcOf(u, t).Idle?) <==> (exists r: nat, a: Step<T> :: Enabled(u, r, a) && Continues(a))
    ensures AllStepsLeft(u, ids) == 0 <==> forall t: nat :: PcOf(u, t).Idle?
  {
    hide Inv, Run, AllStepsLeft;
    ReachableInv(before, s);
    ContinuingRunLowers(s, steps, u, ids);
    NoStepsLeft(u, ids);
    if t: nat :| !PcOf(u, t).Idle? {
      var r, a := SomeCallGoesOn(u, t);
    }
  }
}
