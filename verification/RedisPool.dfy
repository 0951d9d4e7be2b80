/** The Redis client's context pool in src/cache/redis_client.cpp: a queue and an availability flag
    behind a mutex and a condition variable, with failed contexts discarded and replaced, and a
    permanent unavailable mode once a replacement fails. */
module RedisPool {
  import opened Runs
  import opened Tally

  type Ctx = nat

  /** A thread: outside; asleep in the wait; woken and not yet back in the lock; with a context;
      replacing a failed context; with a replacement in hand; with a failed replacement; emptying the
      pool inside the lock; and with a notify_one or a notify_all still to make. */
  datatype Thread =
    | Idle | Asleep | Woken | Leased(ctx: Ctx) | Replacing | Returning(ctx: Ctx) | Failing
    | Clearing | Notifying | NotifyingAll

  /** Contexts are numbered as they are created; `freed` records every redisFree. */
  datatype State = State(
    size: nat, available: bool, pool: seq<Ctx>, lock: Option<nat>, threads: seq<Thread>,
    created: nat, freed: seq<Ctx>)

  datatype Action =
    | Get(t: nat) | Recheck(t: nat) | Spurious(t: nat) | Release(t: nat)
    | Discard(t: nat) | Create(t: nat, ok: bool) | GiveUp(t: nat) | ClearOne(t: nat) | Unlock(t: nat)
    | NotifyOne(t: nat, sleeper: Option<nat>) | NotifyAll(t: nat)

  /** After a successful init() with `size` contexts. */
  function Init(size: nat, threads: nat): State {
    State(size, true, seq(size, i => i), None, seq(threads, _ => Idle), size, [])
  }

  function Move(s: State, t: nat, pc: Thread): State
    requires t < |s.threads|
  {
    s.(threads := s.threads[t := pc])
  }

  function WakeAll(threads: seq<Thread>): seq<Thread> {
    seq(|threads|, i requires 0 <= i < |threads| => if threads[i].Asleep? then Woken else threads[i])
  }

  /** The locked part of get_connection: nothing when unavailable, a context if there is one, else sleep. */
  function TakeOrSleep(s: State, t: nat): State
    requires t < |s.threads|
  {
    if !s.available then Move(s, t, Idle)
    else if s.pool == [] then Move(s, t, Asleep)
    else Move(s.(pool := s.pool[1..]), t, Leased(s.pool[0]))
  }

  predicate NobodyAsleep(threads: seq<Thread>) { forall i :: 0 <= i < |threads| ==> !threads[i].Asleep? }

  function Step(s: State, a: Action): Option<State> {
    var t := a.t;
    if t >= |s.threads| then None
    else
      var pc := s.threads[t];
      match a
      case Get(_) => if pc.Idle? && s.lock.None? then Some(TakeOrSleep(s, t)) else None
      case Recheck(_) => if pc.Woken? && s.lock.None? then Some(TakeOrSleep(s, t)) else None
      case Spurious(_) => if pc.Asleep? then Some(Move(s, t, Woken)) else None
      case Release(_) =>
        if !((pc.Leased? || pc.Returning?) && s.lock.None?) then None
        else if !s.available then Some(Move(s.(freed := s.freed + [pc.ctx]), t, Idle))
        else Some(Move(s.(pool := s.pool + [pc.ctx]), t, Notifying))
      case Discard(_) =>
        if pc.Leased? then Some(Move(s.(freed := s.freed + [pc.ctx]), t, Replacing)) else None
      case Create(_, ok) =>
        if !pc.Replacing? then None
        else if ok then Some(Move(s.(created := s.created + 1), t, Returning(s.created)))
        else Some(Move(s, t, Failing))
      case GiveUp(_) =>
        if pc.Failing? && s.lock.None? then Some(Move(s.(available := false, lock := Some(t)), t, Clearing)) else None
      case ClearOne(_) =>
        if pc.Clearing? && s.pool != [] then Some(s.(pool := s.pool[1..], freed := s.freed + [s.pool[0]])) else None
      case Unlock(_) =>
        if pc.Clearing? && s.pool == [] then Some(Move(s.(lock := None), t, NotifyingAll)) else None
      case NotifyOne(_, sleeper) =>
        if !pc.Notifying? then None
        else if sleeper.None? then (if NobodyAsleep(s.threads) then Some(Move(s, t, Idle)) else None)
        else if sleeper.value < |s.threads| && s.threads[sleeper.value].Asleep?
        then Some(Move(Move(s, t, Idle), sleeper.value, Woken)) else None
      case NotifyAll(_) =>
        if pc.NotifyingAll? then Some(s.(threads := WakeAll(s.threads[t := Idle]))) else None
  }

  // ---- invariant ----

  function IsAsleep(pc: Thread): int { Bit(pc.Asleep?) }
  /** Notifies still to be made, and threads woken that have not run yet. */
  function OnTheWay(pc: Thread): int { Bit(pc.Notifying? || pc.Woken?) }
  /** Slots in use: a context in hand or being replaced. */
  function InUse(pc: Thread): int { Bit(pc.Leased? || pc.Returning? || pc.Replacing? || pc.Failing?) }
  /** Threads that will still make a notify_all. */
  function Alarm(pc: Thread): int { Bit(pc.Clearing? || pc.NotifyingAll?) }

  ghost function Holds(c: Ctx): Thread -> int {
    (pc: Thread) => Bit((pc.Leased? || pc.Returning?) && pc.ctx == c)
  }

  /** Where a created context is: idle, in a thread's hands, or freed. */
  ghost function Copies(s: State, c: Ctx): int {
    multiset(s.pool)[c] + Sum(s.threads, Holds(c)) + multiset(s.freed)[c]
  }

  ghost predicate Locked(s: State) {
    && (forall t :: 0 <= t < |s.threads| ==> (s.threads[t].Clearing? <==> s.lock == Some(t)))
    && (s.lock.Some? ==> s.lock.value < |s.threads|)
    && (s.lock.Some? ==> !s.available)
    && (s.lock.None? && !s.available ==> s.pool == [])
  }

  ghost predicate Woke(s: State) {
    && (Sum(s.threads, IsAsleep) > 0 ==> |s.pool| <= Sum(s.threads, OnTheWay))
    && (Sum(s.threads, IsAsleep) > 0 && !s.available ==> Sum(s.threads, Alarm) > 0)
  }

  ghost predicate Slots(s: State) {
    s.available ==> |s.pool| + Sum(s.threads, InUse) == s.size
  }

  ghost predicate Owned(s: State) { forall c: Ctx :: Copies(s, c) == Bit(c < s.created) }

  ghost predicate Inv(s: State) { Locked(s) && Woke(s) && Slots(s) && Owned(s) }

  lemma SumsMove(threads: seq<Thread>, t: nat, pc: Thread)
    requires t < |threads|
    ensures var u := threads[t := pc];
            && Sum(u, IsAsleep) == Sum(threads, IsAsleep) - IsAsleep(threads[t]) + IsAsleep(pc)
            && Sum(u, OnTheWay) == Sum(threads, OnTheWay) - OnTheWay(threads[t]) + OnTheWay(pc)
            && Sum(u, InUse) == Sum(threads, InUse) - InUse(threads[t]) + InUse(pc)
            && Sum(u, Alarm) == Sum(threads, Alarm) - Alarm(threads[t]) + Alarm(pc)
  {
    SumUpdate(threads, t, pc, IsAsleep);
    SumUpdate(threads, t, pc, OnTheWay);
    SumUpdate(threads, t, pc, InUse);
    SumUpdate(threads, t, pc, Alarm);
  }

  lemma SumsNonNegative(threads: seq<Thread>)
    ensures 0 <= Sum(threads, IsAsleep) && 0 <= Sum(threads, OnTheWay) && 0 <= Sum(threads, InUse) && 0 <= Sum(threads, Alarm)
  {
    SumRange(threads, IsAsleep);
    SumRange(threads, OnTheWay);
    SumRange(threads, InUse);
    SumRange(threads, Alarm);
  }

  lemma {:induction false} AllAwake(threads: seq<Thread>)
    requires NobodyAsleep(threads)
    ensures Sum(threads, IsAsleep) == 0
    decreases |threads|
  {
    if threads != [] {
      AllAwake(threads[1..]);
    }
  }

  lemma WakeAllSums(threads: seq<Thread>, c: Ctx)
    ensures Sum(WakeAll(threads), InUse) == Sum(threads, InUse)
    ensures Sum(WakeAll(threads), Holds(c)) == Sum(threads, Holds(c))
    ensures Sum(WakeAll(threads), IsAsleep) == 0
  {
    SumCongruent(WakeAll(threads), threads, InUse);
    SumCongruent(WakeAll(threads), threads, Holds(c));
    AllAwake(WakeAll(threads));
  }

  /** The threads after an action that moves one thread only. */
  predicate MovesOne(s: State, a: Action) {
    !a.NotifyAll? && !a.NotifyOne? && !a.ClearOne?
  }

  lemma OneMoveSums(s: State, a: Action)
    requires Step(s, a).Some? && MovesOne(s, a)
    ensures var u := Step(s, a).value;
            a.t < |u.threads| && u.threads == s.threads[a.t := u.threads[a.t]]
  {}

  lemma NotifyWakes(s: State, a: Action)
    requires Inv(s) && (a.NotifyAll? || a.NotifyOne?) && Step(s, a).Some?
    ensures Woke(Step(s, a).value) && Slots(Step(s, a).value)
  {
    if a.NotifyAll? {
      NotifyAllWakes(s, a.t);
    } else {
      NotifyOneWakes(s, a.t, a.sleeper);
    }
  }

  lemma NotifyAllWakes(s: State, t: nat)
    requires Inv(s) && Step(s, NotifyAll(t)).Some?
    ensures Woke(Step(s, NotifyAll(t)).value) && Slots(Step(s, NotifyAll(t)).value)
  {
    hide Owned, Locked;
    SumsMove(s.threads, t, Idle);
    WakeAllSums(s.threads[t := Idle], 0);
  }

  lemma NotifyOneWakes(s: State, t: nat, sleeper: Option<nat>)
    requires Inv(s) && Step(s, NotifyOne(t, sleeper)).Some?
    ensures Woke(Step(s, NotifyOne(t, sleeper)).value) && Slots(Step(s, NotifyOne(t, sleeper)).value)
  {
    hide Owned, Locked;
    SumsMove(s.threads, t, Idle);
    if sleeper.None? {
      AllAwake(s.threads);
    } else {
      SumsMove(s.threads[t := Idle], sleeper.value, Woken);
    }
  }

  lemma TakeWakes(s: State, t: nat)
    requires Inv(s) && t < |s.threads| && (s.threads[t].Idle? || s.threads[t].Woken?) && s.lock.None?
    ensures Woke(TakeOrSleep(s, t)) && Slots(TakeOrSleep(s, t))
  {
    hide Owned;
    var u := TakeOrSleep(s, t);
    SumsMove(s.threads, t, u.threads[t]);
    SumsNonNegative(u.threads);
  }

  lemma WokeStep(s: State, a: Action)
    requires Inv(s) && Step(s, a).Some?
    ensures Woke(Step(s, a).value) && Slots(Step(s, a).value)
  {
    hide Inv, Woke, Slots;
    match a
    case NotifyAll(_) => NotifyWakes(s, a);
    case NotifyOne(_, _) => NotifyWakes(s, a);
    case Get(t) => TakeWakes(s, t);
    case Recheck(t) => TakeWakes(s, t);
    case ClearOne(_) => MoveWakes(s, a);
    case Release(_) => HandWakes(s, a);
    case Discard(_) => HandWakes(s, a);
    case Create(_, _) => HandWakes(s, a);
    case Spurious(_) => MoveWakes(s, a);
    case GiveUp(_) => MoveWakes(s, a);
    case Unlock(_) => MoveWakes(s, a);
  }

  lemma MoveWakes(s: State, a: Action)
    requires Inv(s) && (a.Spurious? || a.GiveUp? || a.Unlock? || a.ClearOne?) && Step(s, a).Some?
    ensures Woke(Step(s, a).value) && Slots(Step(s, a).value)
  {
    if a.ClearOne? {
      StaysUnavailable(s, a.t);
    }
    hide Owned, Locked;
    SumsNonNegative(s.threads);
    if !a.ClearOne? {
      SumsMove(s.threads, a.t, Step(s, a).value.threads[a.t]);
    }
  }

  lemma HandWakes(s: State, a: Action)
    requires Inv(s) && (a.Release? || a.Discard? || a.Create?) && Step(s, a).Some?
    ensures Woke(Step(s, a).value) && Slots(Step(s, a).value)
  {
    hide Owned, Locked;
    SumsMove(s.threads, a.t, Step(s, a).value.threads[a.t]);
  }

  lemma StaysUnavailable(s: State, t: nat)
    requires Locked(s) && t < |s.threads| && s.threads[t].Clearing?
    ensures !s.available
  {}

  lemma LockedStep(s: State, a: Action)
    requires Inv(s) && Step(s, a).Some?
    ensures Locked(Step(s, a).value)
  {
    hide Owned, Woke, Slots;
    var u := Step(s, a).value;
    if MovesOne(s, a) {
      OneMoveSums(s, a);
    }
  }

  lemma NotifyCopies(s: State, a: Action, c: Ctx)
    requires (a.NotifyAll? || a.NotifyOne?) && Step(s, a).Some?
    ensures Copies(Step(s, a).value, c) == Copies(s, c)
  {
    SumUpdate(s.threads, a.t, Idle, Holds(c));
    if a.NotifyAll? {
      WakeAllSums(s.threads[a.t := Idle], c);
    } else if a.sleeper.Some? {
      SumUpdate(s.threads[a.t := Idle], a.sleeper.value, Woken, Holds(c));
    }
  }

  lemma TakeCopies(s: State, t: nat, c: Ctx)
    requires t < |s.threads| && (s.threads[t].Idle? || s.threads[t].Woken?)
    ensures Copies(TakeOrSleep(s, t), c) == Copies(s, c)
  {
    if s.available && s.pool != [] {
      assert s.pool == [s.pool[0]] + s.pool[1..];
    }
    SumUpdate(s.threads, t, TakeOrSleep(s, t).threads[t], Holds(c));
  }

  lemma HandCopies(s: State, a: Action, c: Ctx)
    requires (a.Release? || a.Discard? || a.Create?) && Step(s, a).Some?
    ensures var u := Step(s, a).value;
            Copies(u, c) == Copies(s, c) + Bit(a.Create? && a.ok && c == s.created)
  {
    SumUpdate(s.threads, a.t, Step(s, a).value.threads[a.t], Holds(c));
  }

  lemma CopiesStep(s: State, a: Action, c: Ctx)
    requires Step(s, a).Some?
    ensures var u := Step(s, a).value;
            Copies(u, c) == Copies(s, c) + Bit(a.Create? && a.ok && c == s.created)
  {
    hide Copies;
    match a
    case NotifyAll(_) => NotifyCopies(s, a, c);
    case NotifyOne(_, _) => NotifyCopies(s, a, c);
    case Get(t) => TakeCopies(s, t, c);
    case Recheck(t) => TakeCopies(s, t, c);
    case ClearOne(t) => ClearCopies(s, t, c);
    case Release(_) => HandCopies(s, a, c);
    case Discard(_) => HandCopies(s, a, c);
    case Create(_, _) => HandCopies(s, a, c);
    case Spurious(t) => MoveCopies(s, Step(s, a).value, t, c);
    case GiveUp(t) => MoveCopies(s, Step(s, a).value, t, c);
    case Unlock(t) => MoveCopies(s, Step(s, a).value, t, c);
  }

  lemma ClearCopies(s: State, t: nat, c: Ctx)
    requires Step(s, ClearOne(t)).Some?
    ensures Copies(Step(s, ClearOne(t)).value, c) == Copies(s, c)
  {
    assert s.pool == [s.pool[0]] + s.pool[1..];
  }

  /** A step of a thread that holds no context before or after it. */
  lemma MoveCopies(s: State, u: State, t: nat, c: Ctx)
    requires t < |s.threads| == |u.threads| && u.threads == s.threads[t := u.threads[t]]
    requires u.pool == s.pool && u.freed == s.freed && Holds(c)(s.threads[t]) == Holds(c)(u.threads[t]) == 0
    ensures Copies(u, c) == Copies(s, c)
  {
    SumUpdate(s.threads, t, u.threads[t], Holds(c));
  }

  lemma InvStep(s: State, a: Action)
    requires Inv(s) && Step(s, a).Some?
    ensures Inv(Step(s, a).value)
  {
    hide Locked, Woke, Slots, Copies;
    WokeStep(s, a);
    LockedStep(s, a);
    var u := Step(s, a).value;
    CreatedGrows(s, a);
    forall c: Ctx ensures Copies(u, c) == Bit(c < u.created) {
      CopiesStep(s, a, c);
    }
  }

  lemma CreatedGrows(s: State, a: Action)
    requires Step(s, a).Some?
    ensures Step(s, a).value.created == s.created + Bit(a.Create? && a.ok)
    ensures Step(s, a).value.size == s.size && |Step(s, a).value.threads| == |s.threads|
  {}

  lemma {:induction false} IdleSums(threads: seq<Thread>, c: Ctx)
    requires forall t :: 0 <= t < |threads| ==> threads[t].Idle?
    ensures Sum(threads, IsAsleep) == Sum(threads, InUse) == 0 && Sum(threads, Holds(c)) == 0
    decreases |threads|
  {
    if threads != [] {
      IdleSums(threads[1..], c);
    }
  }

  lemma InvInit(size: nat, threads: nat)
    ensures Inv(Init(size, threads))
  {
    var s := Init(size, threads);
    forall c: Ctx ensures Copies(s, c) == Bit(c < size) {
      IdleSums(s.threads, c);
      NumbersCount(size, c);
    }
    IdleSums(s.threads, 0);
  }

  lemma ReachableInv(size: nat, threads: nat, run: seq<Action>)
    requires Exec(Step, Init(size, threads), run).Some?
    ensures Inv(Exec(Step, Init(size, threads), run).value)
  {
    InvInit(size, threads);
    forall s: State, a: Action | Inv(s) && Step(s, a).Some? ensures Inv(Step(s, a).value) {
      InvStep(s, a);
    }
    InvariantHolds(Step, Inv, Init(size, threads), run);
  }

  // ---- the theorems ----

  lemma {:induction false} ConfigFixed(s: State, run: seq<Action>)
    requires Exec(Step, s, run).Some?
    ensures var u := Exec(Step, s, run).value; u.size == s.size && |u.threads| == |s.threads|
    decreases |run|
  {
    if run != [] {
      CreatedGrows(s, run[0]);
      ConfigFixed(Step(s, run[0]).value, run[1..]);
    }
  }

  /** Ownership in every interleaving: each context ever created is in exactly one place - idle, in
      one thread's hands, or freed once; while the pool is available, idle, leased and
      being-replaced slots make up its size; and whenever the lock is free an unavailable pool is
      empty, so that once every lease is returned no live context remains. */
  lemma ContextOwnership(size: nat, threads: nat, run: seq<Action>)
    requires Exec(Step, Init(size, threads), run).Some?
    ensures var s := Exec(Step, Init(size, threads), run).value;
            && (forall c: Ctx :: Copies(s, c) == Bit(c < s.created))
            && (s.available ==> |s.pool| + Sum(s.threads, InUse) == size)
            && (s.lock.None? && !s.available ==> s.pool == [])
            && (s.lock.None? && !s.available && Sum(s.threads, InUse) == 0 ==>
                  forall c: Ctx :: c < s.created ==> multiset(s.freed)[c] == 1)
  {
    hide Step, Exec, Copies;
    ReachableInv(size, threads, run);
    ConfigFixed(Init(size, threads), run);
    var s := Exec(Step, Init(size, threads), run).value;
    if s.lock.None? && !s.available && Sum(s.threads, InUse) == 0 {
      NothingLeft(s);
    }
  }

  lemma NothingLeft(s: State)
    requires Inv(s) && s.lock.None? && !s.available && Sum(s.threads, InUse) == 0
    ensures forall c: Ctx :: c < s.created ==> multiset(s.freed)[c] == 1
  {
    forall c: Ctx | c < s.created ensures multiset(s.freed)[c] == 1 {
      HoldersAreInUse(s.threads, c);
      assert Copies(s, c) == 1;
    }
  }

  lemma {:induction false} HoldersAreInUse(threads: seq<Thread>, c: Ctx)
    ensures 0 <= Sum(threads, Holds(c)) <= Sum(threads, InUse)
    decreases |threads|
  {
    if threads != [] {
      HoldersAreInUse(threads[1..], c);
    }
  }

  /** No wakeup is lost: while a thread sleeps, every idle context has a notify pending or a woken
      thread that has not run yet; so with an idle context there is always a thread whose next step
      wakes a sleeper or takes a context. And going unavailable wakes everyone: a sleeper then has a
      notify_all still coming, after which nobody is asleep. */
  lemma NoLostWakeup(size: nat, threads: nat, run: seq<Action>)
    requires Exec(Step, Init(size, threads), run).Some?
    ensures var s := Exec(Step, Init(size, threads), run).value;
            && (Sum(s.threads, IsAsleep) > 0 ==> |s.pool| <= Sum(s.threads, OnTheWay))
            && (Sum(s.threads, IsAsleep) > 0 && s.pool != [] && s.lock.None? ==>
                  exists a: Action :: (a.NotifyOne? || a.Recheck?) && Step(s, a).Some?)
            && (Sum(s.threads, IsAsleep) > 0 && !s.available ==> Sum(s.threads, Alarm) > 0)
            && (forall t :: Step(s, NotifyAll(t)).Some? ==> NobodyAsleep(Step(s, NotifyAll(t)).value.threads))
  {
    hide Step, Exec, Owned, Locked, Slots;
    ReachableInv(size, threads, run);
    var s := Exec(Step, Init(size, threads), run).value;
    forall t | Step(s, NotifyAll(t)).Some? ensures NobodyAsleep(Step(s, NotifyAll(t)).value.threads) {
      NotifyAllLeavesNobody(s, t);
    }
    if Sum(s.threads, IsAsleep) > 0 && s.pool != [] && s.lock.None? {
      SomeoneActs(s);
    }
  }

  lemma SomeoneActs(s: State)
    requires Sum(s.threads, IsAsleep) > 0 && Sum(s.threads, OnTheWay) > 0 && s.lock.None?
    ensures exists a: Action :: (a.NotifyOne? || a.Recheck?) && Step(s, a).Some?
  {
    var w := SumWitness(s.threads, OnTheWay);
    var sleeper := SumWitness(s.threads, IsAsleep);
    var a := if s.threads[w].Woken? then Recheck(w) else NotifyOne(w, Some(sleeper));
    assert Step(s, a).Some?;
  }

  lemma NotifyAllLeavesNobody(s: State, t: nat)
    requires Step(s, NotifyAll(t)).Some?
    ensures NobodyAsleep(Step(s, NotifyAll(t)).value.threads)
  {}

  /** With no more threads than contexts, nobody ever falls asleep. */
  ghost predicate Roomy(s: State) {
    Inv(s) && |s.threads| <= s.size && forall t :: 0 <= t < |s.threads| ==> !s.threads[t].Asleep? && !s.threads[t].Woken?
  }

  lemma GetFindsContext(s: State, t: nat)
    requires Inv(s) && |s.threads| <= s.size && t < |s.threads| && s.threads[t].Idle? && s.available
    ensures s.pool != []
  {
    SumBounds(s.threads, t, InUse);
  }

  lemma RoomyStep(s: State, a: Action)
    requires Roomy(s) && Step(s, a).Some?
    ensures Roomy(Step(s, a).value)
  {
    InvStep(s, a);
    hide Inv;
    if a.Get? && s.available {
      GetFindsContext(s, a.t);
    }
  }

  /** With no more threads than contexts - ten of each in the server - get_connection never waits
      while Redis is available: it returns a context at once. */
  lemma GetNeverWaits(size: nat, threads: nat, run: seq<Action>, t: nat)
    requires threads <= size && t < threads
    requires Exec(Step, Init(size, threads), run).Some?
    ensures var s := Exec(Step, Init(size, threads), run).value;
            && t < |s.threads| && NobodyAsleep(s.threads)
            && (s.threads[t].Idle? && s.available ==>
                  Step(s, Get(t)).Some? && Step(s, Get(t)).value.threads[t].Leased?)
  {
    InvInit(size, threads);
    forall s: State, a: Action | Roomy(s) && Step(s, a).Some? ensures Roomy(Step(s, a).value) {
      RoomyStep(s, a);
    }
    InvariantHolds(Step, Roomy, Init(size, threads), run);
    ConfigFixed(Init(size, threads), run);
    var s := Exec(Step, Init(size, threads), run).value;
    if s.threads[t].Idle? && s.available {
      GetFindsContext(s, t);
    }
  }

  // ---- the unavailable mode ----

  /** A thread whose replacement failed does nothing else before it has made the pool unavailable: its next
      step, whatever the others do meanwhile, is to take the lock and give up. */
  lemma FailureGivesUp(s: State, u: State, t: nat, a: Action)
    requires Step(s, Create(t, false)).Some? && t < |u.threads| && a.t == t
    requires u.threads[t] == Step(s, Create(t, false)).value.threads[t] && Step(u, a).Some?
    ensures a.GiveUp? && !Step(u, a).value.available && Step(u, a).value.lock == Some(t)
  {}

  /** Nobody else can move it: only its own steps change where a thread that is not asleep is. */
  lemma OnlyItself(s: State, a: Action, t: nat)
    requires Step(s, a).Some? && t < |s.threads| && a.t != t && !s.threads[t].Asleep?
    ensures t < |Step(s, a).value.threads| && Step(s, a).value.threads[t] == s.threads[t]
  {}

  /** And unavailable is for ever: no run makes the pool available again, and nobody gets a context. */
  lemma {:induction false} UnavailableForEver(s: State, run: seq<Action>)
    requires Inv(s) && !s.available && Exec(Step, s, run).Some?
    ensures var u := Exec(Step, s, run).value;
            && !u.available
            && forall t: nat :: t < |u.threads| && Step(u, Get(t)).Some? ==> Step(u, Get(t)) == Some(Move(u, t, Idle))
    decreases |run|
  {
    hide Inv;
    if run != [] {
      InvStep(s, run[0]);
      UnavailableForEver(Step(s, run[0]).value, run[1..]);
    }
  }

  // ---- more threads than contexts ----

  /** Steps that neither start a new call nor wake a sleeper for no reason. */
  predicate Proceeds(a: Action) { !a.Get? && !a.Spurious? }

  /** What a thread that is not asleep and not outside does next; the lock it may need is free or its own. */
  lemma ActiveMoves(s: State, t: nat)
    requires Inv(s) && t < |s.threads| && !s.threads[t].Idle? && !s.threads[t].Asleep?
    requires s.lock.None? || s.threads[t].Clearing?
    ensures exists a: Action :: Proceeds(a) && Step(s, a).Some?
  {
    match s.threads[t]
    case Woken => assert Proceeds(Recheck(t)) && Step(s, Recheck(t)).Some?;
    case Leased(_) => assert Proceeds(Release(t)) && Step(s, Release(t)).Some?;
    case Replacing => assert Proceeds(Create(t, true)) && Step(s, Create(t, true)).Some?;
    case Returning(_) => assert Proceeds(Release(t)) && Step(s, Release(t)).Some?;
    case Failing => assert Proceeds(GiveUp(t)) && Step(s, GiveUp(t)).Some?;
    case Clearing =>
      var a := if s.pool == [] then Unlock(t) else ClearOne(t);
      assert Proceeds(a) && Step(s, a).Some?;
    case Notifying => NotifierMoves(s, t);
    case NotifyingAll => assert Proceeds(NotifyAll(t)) && Step(s, NotifyAll(t)).Some?;
  }

  lemma NotifierMoves(s: State, t: nat)
    requires t < |s.threads| && s.threads[t].Notifying?
    ensures exists a: Action :: Proceeds(a) && Step(s, a).Some?
  {
    if NobodyAsleep(s.threads) {
      assert Proceeds(NotifyOne(t, None)) && Step(s, NotifyOne(t, None)).Some?;
    } else {
      var w :| 0 <= w < |s.threads| && s.threads[w].Asleep?;
      assert Proceeds(NotifyOne(t, Some(w))) && Step(s, NotifyOne(t, Some(w))).Some?;
    }
  }

  /** While a thread sleeps, some other thread is neither outside nor asleep. */
  lemma SleeperIsNotAlone(s: State) returns (t: nat)
    requires Inv(s) && s.size > 0 && Sum(s.threads, IsAsleep) > 0
    ensures t < |s.threads| && !s.threads[t].Idle? && !s.threads[t].Asleep?
  {
    SumsNonNegative(s.threads);
    if !s.available {
      t := SumWitness(s.threads, Alarm);
    } else if s.pool != [] {
      t := SumWitness(s.threads, OnTheWay);
    } else {
      t := SumWitness(s.threads, InUse);
    }
  }

  /** However many threads there are, no call gets stuck: while some thread is inside a call or asleep in
      its wait, some thread can proceed. */
  lemma NotStuck(s: State, t: nat)
    requires Inv(s) && s.size > 0 && t < |s.threads| && !s.threads[t].Idle?
    ensures exists a: Action :: Proceeds(a) && Step(s, a).Some?
  {
    hide Step;
    if s.lock.Some? {
      ActiveMoves(s, s.lock.value);
    } else if s.threads[t].Asleep? {
      SumBounds(s.threads, t, IsAsleep);
      var w := SleeperIsNotAlone(s);
      ActiveMoves(s, w);
    } else {
      ActiveMoves(s, t);
    }
  }

  // ---- the object ----

  const DEFAULT_REDIS_POOL_SIZE: nat := 10

  /** Emptying the pool inside the lock, context by context. */
  lemma {:induction false} ClearRuns(s: State, t: nat)
    requires t < |s.threads| && s.threads[t].Clearing?
    ensures Exec(Step, s, Repeat(ClearOne(t), |s.pool|)) == Some(s.(pool := [], freed := s.freed + s.pool))
    decreases |s.pool|
  {
    if s.pool == [] {
      assert s.freed + s.pool == s.freed;
    } else {
      var next := s.(pool := s.pool[1..], freed := s.freed + [s.pool[0]]);
      assert Step(s, ClearOne(t)) == Some(next);
      assert next.freed + next.pool == s.freed + s.pool;
      assert Repeat(ClearOne(t), |s.pool|)[1..] == Repeat(ClearOne(t), |next.pool|);
      ClearRuns(next, t);
    }
  }

  /** The steps of a failed replacement under the lock. */
  function GiveUpSteps(t: nat, n: nat): seq<Action> { [GiveUp(t)] + (Repeat(ClearOne(t), n) + [Unlock(t)]) }

  lemma GiveUpRuns(s: State, t: nat)
    requires t < |s.threads| && s.threads[t].Failing? && s.lock.None?
    ensures Exec(Step, s, GiveUpSteps(t, |s.pool|)) ==
            Some(s.(available := false, pool := [], freed := s.freed + s.pool, threads := s.threads[t := NotifyingAll]))
  {
    var clears := Repeat(ClearOne(t), |s.pool|);
    var s1 := Move(s.(available := false, lock := Some(t)), t, Clearing);
    var s2 := s1.(pool := [], freed := s.freed + s.pool);
    var s3 := Move(s2.(lock := None), t, NotifyingAll);
    assert Step(s, GiveUp(t)) == Some(s1) && Step(s2, Unlock(t)) == Some(s3);
    assert s3.threads == s.threads[t := NotifyingAll];
    ClearRuns(s1, t);
    ExecChain(Step, [s2, s3], [Unlock(t)]);
    ExecConcat(Step, s1, clears, [Unlock(t)]);
    assert GiveUpSteps(t, |s.pool|)[1..] == clears + [Unlock(t)];
  }

  /** What get_connection() does next: give up, wait, or return a context. */
  datatype Lease = Unavailable | Wait | Got(ctx: Ctx)

  /** The client object: its initialisation and its locked sections, each proved to be steps of the
      machine above. */
  class Client {
    var pool: seq<Ctx>
    var available: bool
    var maxConn: nat
    var created: nat
    var freed: seq<Ctx>
    ghost var rest: State

    ghost function Abs(): State
      reads this
    {
      rest.(available := available, pool := pool, created := created, freed := freed)
    }

    constructor ()
      ensures pool == [] && !available && maxConn == 0 && created == 0 && freed == []
    {
      pool, available, maxConn, created, freed := [], false, 0, 0, [];
      rest := Init(0, 0);
    }

    /** clear_pool(): frees every idle context, in order. */
    method ClearPool()
      modifies this`pool, this`freed, this`maxConn
      ensures pool == [] && maxConn == 0 && freed == old(freed) + old(pool)
    {
      while pool != []
        invariant freed + pool == old(freed) + old(pool)
        decreases |pool|
      {
        assert freed + pool == freed + [pool[0]] + pool[1..];
        freed := freed + [pool[0]];
        pool := pool[1..];
      }
      maxConn := 0;
    }

    /** init(), where `connects` tells which connection attempts succeed: idle contexts are freed; the
        pool becomes available with ten new contexts in order exactly when all attempts succeed, and
        otherwise every context opened is freed again. On a new client a success makes the initial
        state of the machine. */
    method Open(connects: nat -> bool, ghost threads: nat) returns (ok: bool)
      modifies this
      ensures ok <==> forall i: nat :: i < DEFAULT_REDIS_POOL_SIZE ==> connects(i)
      ensures available == ok && old(created) <= created <= old(created) + DEFAULT_REDIS_POOL_SIZE
      ensures var contexts := seq(created - old(created), k => old(created) + k);
              && pool == (if ok then contexts else [])
              && freed == old(freed) + old(pool) + (if ok then [] else contexts)
              && maxConn == (if ok then DEFAULT_REDIS_POOL_SIZE else 0)
      ensures ok ==> created == old(created) + DEFAULT_REDIS_POOL_SIZE
      ensures ok && old(created) == 0 && old(freed) == old(pool) == [] ==> Abs() == Init(DEFAULT_REDIS_POOL_SIZE, threads)
    {
      ghost var base := created;
      ClearPool();
      maxConn, available := DEFAULT_REDIS_POOL_SIZE, false;
      rest := Init(DEFAULT_REDIS_POOL_SIZE, threads);
      for i := 0 to DEFAULT_REDIS_POOL_SIZE
        invariant pool == seq(i, k => base + k) && created == base + i && freed == old(freed) + old(pool)
        invariant !available && maxConn == DEFAULT_REDIS_POOL_SIZE && rest == Init(DEFAULT_REDIS_POOL_SIZE, threads)
        invariant forall k: nat :: k < i ==> connects(k)
      {
        if !connects(i) {
          ClearPool();
          return false;
        }
        assert seq(i + 1, k => base + k) == seq(i, k => base + k) + [base + i];
        pool, created := pool + [created], created + 1;
      }
      available := true;
      assert base == 0 ==> seq(DEFAULT_REDIS_POOL_SIZE, k => base + k) == seq(DEFAULT_REDIS_POOL_SIZE, k => k);
      return true;
    }

    /** The locked section of get_connection(), for a caller and for a thread woken from the wait. */
    method GetLocked(ghost t: nat) returns (lease: Lease)
      requires t < |Abs().threads| && (Abs().threads[t].Idle? || Abs().threads[t].Woken?) && Abs().lock.None?
      modifies this`pool, this`rest
      ensures Step(old(Abs()), if old(Abs()).threads[t].Idle? then Get(t) else Recheck(t)) == Some(Abs())
      ensures lease == if !available then Unavailable else if old(pool) == [] then Wait else Got(old(pool)[0])
      ensures Abs().threads[t] == match lease
                                  case Unavailable => Idle
                                  case Wait => Asleep
                                  case Got(ctx) => Leased(ctx)
    {
      if !available {
        rest := Move(rest, t, Idle);
        return Unavailable;
      }
      if pool == [] {
        rest := Move(rest, t, Asleep);
        return Wait;
      }
      var ctx := pool[0];
      pool := pool[1..];
      rest := Move(rest, t, Leased(ctx));
      return Got(ctx);
    }

    /** The locked section of release_connection(). */
    method ReleaseLocked(ctx: Ctx, ghost t: nat) returns (notify: bool)
      requires t < |Abs().threads| && Abs().lock.None?
      requires Abs().threads[t] == Leased(ctx) || Abs().threads[t] == Returning(ctx)
      modifies this`pool, this`freed, this`rest
      ensures Step(old(Abs()), Release(t)) == Some(Abs())
      ensures notify == available && (notify <==> Abs().threads[t].Notifying?)
      ensures pool == old(pool) + (if available then [ctx] else []) && freed == old(freed) + (if available then [] else [ctx])
    {
      if !available {
        freed := freed + [ctx];
        rest := Move(rest, t, Idle);
        return false;
      }
      pool := pool + [ctx];
      rest := Move(rest, t, Notifying);
      return true;
    }

    /** The locked section of discard_connection() when no replacement could be opened. */
    method GiveUpLocked(ghost t: nat)
      requires t < |Abs().threads| && Abs().threads[t].Failing? && Abs().lock.None?
      modifies this
      ensures Exec(Step, old(Abs()), GiveUpSteps(t, |old(pool)|)) == Some(Abs())
      ensures !available && pool == [] && maxConn == 0 && freed == old(freed) + old(pool)
    {
      hide Step, Exec;
      GiveUpRuns(Abs(), t);
      available := false;
      ClearPool();
      rest := Move(rest, t, NotifyingAll);
    }
  }
}
