/** The worker pool of src/thread/threadpool.h: a bounded queue, a counting semaphore and a stop flag,
    with every semaphore operation, flag test and locked section a step of its own. */
module ThreadPool {
  import opened Runs
  import opened Tally

  /** Where a worker is in run(): at the loop test, in acquire, at the second test, before the lock,
      in process(), or out of the loop. */
  datatype Worker<T> = Top | Waiting | Woken | Popping | Running(task: T) | Exited

  /** Where the appending thread is: outside, before the lock with a task, or before the release. */
  datatype Appender<T> = Idle | Pushing(task: T) | Posting

  /** The destructor: not started, stop flag set, permits released and joining. */
  datatype Destructor = Alive | Stopping | Joining

  /** `accepted` and `taken` record what was pushed and popped so far. */
  datatype State<T> = State(
    maxRequests: nat, queue: seq<T>, permits: nat, destructor: Destructor,
    appender: Appender<T>, workers: seq<Worker<T>>, accepted: seq<T>, taken: seq<T>)
  {
    predicate Stopped() { destructor != Alive }
  }

  datatype Action<T> =
    | Submit(task: T) | Push | Post
    | TestLoop(w: nat) | Acquire(w: nat) | TestStop(w: nat) | Pop(w: nat) | Finish(w: nat)
    | SetStop | ReleaseAll

  function Init<T>(threads: nat, maxRequests: nat): State<T> {
    State(maxRequests, [], 0, Alive, Idle, seq(threads, _ => Top), [], [])
  }

  function WorkerStep<T>(s: State<T>, w: nat, pc: Worker<T>): State<T>
    requires w < |s.workers|
  {
    s.(workers := s.workers[w := pc])
  }

  function Step<T>(s: State<T>, a: Action<T>): Option<State<T>> {
    match a
    case Submit(x) =>
      if s.appender.Idle? && !s.Stopped() then Some(s.(appender := Pushing(x))) else None
    case Push =>
      if !s.appender.Pushing? then None
      else if |s.queue| >= s.maxRequests then Some(s.(appender := Idle))
      else Some(s.(queue := s.queue + [s.appender.task], accepted := s.accepted + [s.appender.task],
                   appender := Posting))
    case Post =>
      if s.appender.Posting? then Some(s.(permits := s.permits + 1, appender := Idle)) else None
    case TestLoop(w) =>
      if w < |s.workers| && s.workers[w].Top?
      then Some(WorkerStep(s, w, if s.Stopped() then Exited else Waiting)) else None
    case Acquire(w) =>
      if w < |s.workers| && s.workers[w].Waiting? && s.permits > 0
      then Some(WorkerStep(s.(permits := s.permits - 1), w, Woken)) else None
    case TestStop(w) =>
      if w < |s.workers| && s.workers[w].Woken?
      then Some(WorkerStep(s, w, if s.Stopped() then Exited else Popping)) else None
    case Pop(w) =>
      if !(w < |s.workers| && s.workers[w].Popping?) then None
      else if s.queue == [] then Some(WorkerStep(s, w, Top))
      else Some(WorkerStep(s.(queue := s.queue[1..], taken := s.taken + [s.queue[0]]), w, Running(s.queue[0])))
    case Finish(w) =>
      if w < |s.workers| && s.workers[w].Running? then Some(WorkerStep(s, w, Top)) else None
    case SetStop =>
      if s.destructor.Alive? && s.appender.Idle? then Some(s.(destructor := Stopping)) else None
    case ReleaseAll =>
      if s.destructor.Stopping? then Some(s.(destructor := Joining, permits := s.permits + |s.workers|)) else None
  }

  // ---- invariant ----

  /** Workers that hold a permit but have not popped yet. */
  function InFlight<T>(pc: Worker<T>): int { if pc.Woken? || pc.Popping? then 1 else 0 }
  function IsWaiting<T>(pc: Worker<T>): int { if pc.Waiting? then 1 else 0 }

  ghost predicate Inv<T(!new)>(s: State<T>) {
    && s.accepted == s.taken + s.queue
    && |s.queue| <= s.maxRequests
    && (s.Stopped() ==> s.appender.Idle?)
    && (!s.Stopped() ==>
          |s.queue| == s.permits + Sum(s.workers, InFlight) + if s.appender.Posting? then 1 else 0)
    && (s.destructor.Joining? ==> s.permits >= Sum(s.workers, IsWaiting))
  }

  lemma WorkerSums<T(!new)>(s: State<T>, w: nat, pc: Worker<T>)
    requires w < |s.workers|
    ensures Sum(s.workers[w := pc], InFlight) == Sum(s.workers, InFlight) - InFlight(s.workers[w]) + InFlight(pc)
    ensures Sum(s.workers[w := pc], IsWaiting) == Sum(s.workers, IsWaiting) - IsWaiting(s.workers[w]) + IsWaiting(pc)
  {
    SumUpdate(s.workers, w, pc, InFlight);
    SumUpdate(s.workers, w, pc, IsWaiting);
  }

  /** The thread an action moves, and where it moves it to. */
  function WorkerOf<T>(a: Action<T>): Option<nat> {
    match a
    case TestLoop(w) => Some(w)
    case Acquire(w) => Some(w)
    case TestStop(w) => Some(w)
    case Pop(w) => Some(w)
    case Finish(w) => Some(w)
    case _ => None
  }

  lemma InvStep<T(!new)>(s: State<T>, a: Action<T>)
    requires Inv(s) && Step(s, a).Some?
    ensures Inv(Step(s, a).value)
  {
    if WorkerOf(a).Some? {
      WorkerKeeps(s, a);
    } else if a.ReleaseAll? {
      SumRange(s.workers, IsWaiting);
    } else if a.Push? && |s.queue| < s.maxRequests {
      assert s.taken + (s.queue + [s.appender.task]) == s.taken + s.queue + [s.appender.task];
    }
  }

  lemma WorkerKeeps<T(!new)>(s: State<T>, a: Action<T>)
    requires Inv(s) && WorkerOf(a).Some? && Step(s, a).Some?
    ensures Inv(Step(s, a).value)
  {
    var t, w := Step(s, a).value, WorkerOf(a).value;
    assert t.workers == s.workers[w := t.workers[w]];
    WorkerSums(s, w, t.workers[w]);
    if a.Pop? {
      if !s.Stopped() {
        PopFindsTask(s, w);
      }
      if s.queue != [] {
        assert s.taken + s.queue == s.taken + [s.queue[0]] + s.queue[1..];
      }
    }
  }

  lemma {:induction false} InitSums<T(!new)>(threads: seq<Worker<T>>)
    requires forall w :: 0 <= w < |threads| ==> threads[w].Top?
    ensures Sum(threads, InFlight) == 0
    decreases |threads|
  {
    if threads != [] {
      InitSums(threads[1..]);
    }
  }

  lemma InvInit<T(!new)>(threads: nat, maxRequests: nat)
    ensures Inv(Init<T>(threads, maxRequests))
  {
    InitSums(Init<T>(threads, maxRequests).workers);
  }

  /** In every run, whatever the interleaving of the appending thread and the workers: tasks leave
      in the order they were accepted, each once, and nothing else is ever taken; and before the
      shutdown the queue is exactly as long as permits, workers on their way to it and a pending
      release together, so no worker at the lock finds it empty. */
  lemma QueueAccounting<T(!new)>(threads: nat, maxRequests: nat, run: seq<Action<T>>)
    requires Exec(Step, Init<T>(threads, maxRequests), run).Some?
    ensures var s := Exec(Step, Init<T>(threads, maxRequests), run).value;
            && s.accepted == s.taken + s.queue && |s.queue| <= s.maxRequests
            && (!s.Stopped() ==>
                  |s.queue| == s.permits + Sum(s.workers, InFlight) + if s.appender.Posting? then 1 else 0)
            && (!s.Stopped() ==> forall w :: 0 <= w < |s.workers| && s.workers[w].Popping? ==> s.queue != [])
  {
    ReachableInv(threads, maxRequests, run);
    var s := Exec(Step, Init<T>(threads, maxRequests), run).value;
    if !s.Stopped() {
      forall w: nat | w < |s.workers| && s.workers[w].Popping? ensures s.queue != [] {
        PopFindsTask(s, w);
      }
    }
  }

  lemma ReachableInv<T(!new)>(threads: nat, maxRequests: nat, run: seq<Action<T>>)
    requires Exec(Step, Init<T>(threads, maxRequests), run).Some?
    ensures Inv(Exec(Step, Init<T>(threads, maxRequests), run).value)
  {
    InvInit<T>(threads, maxRequests);
    forall s: State<T>, a: Action<T> | Inv(s) && Step(s, a).Some? ensures Inv(Step(s, a).value) {
      InvStep(s, a);
    }
    InvariantHolds(Step, Inv, Init<T>(threads, maxRequests), run);
  }

  /** So a worker that gets to the lock before the shutdown always finds a task. */
  lemma PopFindsTask<T(!new)>(s: State<T>, w: nat)
    requires Inv(s) && !s.Stopped() && w < |s.workers| && s.workers[w].Popping?
    ensures s.queue != [] && Step(s, Pop(w)).Some?
    ensures Step(s, Pop(w)).value.workers[w] == Running(s.queue[0])
    ensures s.queue[0] == s.accepted[|s.taken|]
  {
    SumBounds(s.workers, w, InFlight);
  }

  // ---- shutdown ----

  /** Steps a worker can still make once the stop flag is set. */
  function Rank<T>(pc: Worker<T>): int {
    match pc
    case Exited => 0
    case Top => 1
    case Woken => 1
    case Waiting => 2
    case Running(_) => 2
    case Popping => 3
  }

  lemma RankUpdate<T>(s: State<T>, w: nat, pc: Worker<T>)
    requires w < |s.workers|
    ensures Sum(s.workers[w := pc], Rank) == Sum(s.workers, Rank) - Rank(s.workers[w]) + Rank(pc)
  {
    SumUpdate(s.workers, w, pc, Rank);
  }

  ghost predicate AllExited<T>(s: State<T>) { forall w :: 0 <= w < |s.workers| ==> s.workers[w].Exited? }

  /** While joining, every step uses up some of the remaining work. */
  lemma JoiningStep<T(!new)>(s: State<T>, a: Action<T>)
    requires Inv(s) && s.destructor.Joining? && Step(s, a).Some?
    ensures var t := Step(s, a).value;
            Inv(t) && t.destructor.Joining? && Sum(t.workers, Rank) < Sum(s.workers, Rank)
  {
    InvStep(s, a);
    var t := Step(s, a).value;
    var w := WorkerOf(a).value;
    assert t.workers == s.workers[w := t.workers[w]];
    RankUpdate(s, w, t.workers[w]);
  }

  /** And while a worker is left, some worker can move: permits cover everyone still in acquire. */
  lemma JoiningNotStuck<T(!new)>(s: State<T>, w: nat)
    requires Inv(s) && s.destructor.Joining? && w < |s.workers| && !s.workers[w].Exited?
    ensures exists a :: Step(s, a).Some?
  {
    SumBounds(s.workers, w, IsWaiting);
    var a := match s.workers[w]
      case Top => TestLoop(w)
      case Waiting => Acquire(w)
      case Woken => TestStop(w)
      case Popping => Pop(w)
      case Running(_) => Finish(w)
      case Exited => SetStop;
    assert Step(s, a).Some?;
  }

  /** Shutdown completes: from the moment the destructor has released its permits, no run is longer
      than the remaining work, and a run that cannot be continued has every worker out of the loop,
      so every join returns. */
  lemma {:induction false} ShutdownCompletes<T(!new)>(s: State<T>, run: seq<Action<T>>)
    requires Inv(s) && s.destructor.Joining? && Exec(Step, s, run).Some?
    ensures var t := Exec(Step, s, run).value;
            && |run| + Sum(t.workers, Rank) <= Sum(s.workers, Rank)
            && |run| <= Sum(s.workers, Rank)
            && ((forall a :: Step(t, a).None?) ==> AllExited(t))
    decreases |run|
  {
    var t := Exec(Step, s, run).value;
    SumNonNegative(t.workers, Rank);
    if run == [] {
      forall w: nat | w < |s.workers| && !s.workers[w].Exited?
        ensures exists a :: Step(s, a).Some?
      {
        JoiningNotStuck(s, w);
      }
    } else {
      JoiningStep(s, run[0]);
      ShutdownCompletes(Step(s, run[0]).value, run[1..]);
    }
  }

  // ---- the object ----

  /** The pool object. Its methods are the calls without interference; each is proved to be the
      sequence of machine steps it stands for. */
  class Pool<T(!new)> {
    const maxRequests: nat
    var workQueue: seq<T>
    var permits: nat
    ghost var rest: State<T>

    ghost function Abs(): State<T>
      reads this
    {
      rest.(maxRequests := maxRequests, queue := workQueue, permits := permits)
    }

    constructor (threads: nat, max: nat)
      requires threads > 0 && max > 0
      ensures Abs() == Init(threads, max)
    {
      maxRequests, workQueue, permits, rest := max, [], 0, Init(threads, max);
    }

    /** append(): push under the lock unless the queue is full, then release the semaphore. */
    method Append(request: T) returns (ok: bool)
      requires !Abs().Stopped() && Abs().appender.Idle?
      modifies this
      ensures ok <==> |old(workQueue)| < maxRequests
      ensures Exec(Step, old(Abs()), if ok then [Submit(request), Push, Post] else [Submit(request), Push])
              == Some(Abs())
    {
      if |workQueue| >= maxRequests {
        assert Exec(Step, Abs().(appender := Pushing(request)), [Push]) == Some(Abs());
        assert [Submit(request), Push][1..] == [Push];
        return false;
      }
      ghost var before := Abs();
      workQueue := workQueue + [request];
      rest := rest.(accepted := rest.accepted + [request]);
      permits := permits + 1;
      ghost var pushed := before.(queue := workQueue, accepted := rest.accepted, appender := Posting);
      assert Exec(Step, pushed, [Post]) == Some(Abs());
      assert [Submit(request), Push, Post][1..] == [Push, Post] && [Push, Post][1..] == [Action<T>.Post];
      assert Exec(Step, before.(appender := Pushing(request)), [Push, Post]) == Some(Abs());
      return true;
    }

    /** One round of run() for a worker that has its permit: the locked section. */
    method Take(w: nat) returns (request: Option<T>)
      requires w < |Abs().workers| && Abs().workers[w].Popping?
      modifies this
      ensures Step(old(Abs()), Pop(w)) == Some(Abs())
      ensures request == if old(workQueue) == [] then None else Some(old(workQueue)[0])
    {
      if workQueue == [] {
        rest := rest.(workers := rest.workers[w := Top]);
        return None;
      }
      request := Some(workQueue[0]);
      rest := rest.(workers := rest.workers[w := Running(workQueue[0])], taken := rest.taken + [workQueue[0]]);
      workQueue := workQueue[1..];
    }
  }
}
