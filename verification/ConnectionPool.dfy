/** The PostgreSQL connection pool of src/db/connection_pool.*: a counting semaphore in front of a
    queue and two counters guarded by a mutex. Every semaphore operation, lock operation, queue
    operation and counter update is a step of its own. */
module ConnectionPool {
  import opened Runs
  import opened Tally

  type Conn = nat

  /** A thread: outside; past acquire; then inside get_connection's lock before the pop, before each
      counter update; with a lease; inside release_connection's lock; and before the final release.
      `NoConn` is the early return on an empty queue. */
  datatype Thread =
    | Idle | Acquired | GetLocked | GetPopped(conn: Conn) | GetCounted(conn: Conn) | NoConn
    | Leased(conn: Conn) | PutLocked(conn: Conn) | PutPushed | PutCounted | Posting

  datatype State = State(
    maxConn: nat, connList: seq<Conn>, permits: nat, freeConn: int, curConn: int,
    lock: Option<nat>, threads: seq<Thread>)

  datatype Action =
    | Acquire(t: nat) | LockGet(t: nat) | PopFront(t: nat) | DecFree(t: nat) | IncCur(t: nat)
    | LockPut(t: nat) | PushBack(t: nat) | IncFree(t: nat) | DecCur(t: nat) | Post(t: nat)

  /** After init(): connections 0 .. maxConn - 1, all idle. */
  function Init(maxConn: nat, threads: nat): State {
    State(maxConn, seq(maxConn, i => i), maxConn, maxConn, 0, None, seq(threads, _ => Idle))
  }

  function Move(s: State, t: nat, pc: Thread): State
    requires t < |s.threads|
  {
    s.(threads := s.threads[t := pc])
  }

  function Step(s: State, a: Action): Option<State> {
    var t := a.t;
    if t >= |s.threads| then None
    else
      var pc := s.threads[t];
      match a
      case Acquire(_) =>
        if pc.Idle? && s.permits > 0 then Some(Move(s.(permits := s.permits - 1), t, Acquired)) else None
      case LockGet(_) =>
        if pc.Acquired? && s.lock.None? then Some(Move(s.(lock := Some(t)), t, GetLocked)) else None
      case PopFront(_) =>
        if !pc.GetLocked? then None
        else if s.connList == [] then Some(Move(s.(lock := None), t, NoConn))
        else Some(Move(s.(connList := s.connList[1..]), t, GetPopped(s.connList[0])))
      case DecFree(_) =>
        if pc.GetPopped? then Some(Move(s.(freeConn := s.freeConn - 1), t, GetCounted(pc.conn))) else None
      case IncCur(_) =>
        if pc.GetCounted? then Some(Move(s.(curConn := s.curConn + 1, lock := None), t, Leased(pc.conn))) else None
      case LockPut(_) =>
        if pc.Leased? && s.lock.None? then Some(Move(s.(lock := Some(t)), t, PutLocked(pc.conn))) else None
      case PushBack(_) =>
        if pc.PutLocked? then Some(Move(s.(connList := s.connList + [pc.conn]), t, PutPushed)) else None
      case IncFree(_) =>
        if pc.PutPushed? then Some(Move(s.(freeConn := s.freeConn + 1), t, PutCounted)) else None
      case DecCur(_) =>
        if pc.PutCounted? then Some(Move(s.(curConn := s.curConn - 1, lock := None), t, Posting)) else None
      case Post(_) =>
        if pc.Posting? then Some(Move(s.(permits := s.permits + 1), t, Idle)) else None
  }

  // ---- invariant ----

  /** Threads past acquire and not yet popped, or past the push and not yet released. */
  function InTransit(pc: Thread): int {
    Bit(pc.Acquired? || pc.GetLocked? || pc.PutPushed? || pc.PutCounted? || pc.Posting?)
  }

  function HoldsOne(pc: Thread): int {
    Bit(pc.GetPopped? || pc.GetCounted? || pc.Leased? || pc.PutLocked?)
  }

  /** Threads counted in curConn. */
  function InCur(pc: Thread): int { Bit(pc.Leased? || pc.PutLocked? || pc.PutPushed? || pc.PutCounted?) }

  /** By how much freeConn is ahead of the queue length. */
  function FreeLag(pc: Thread): int { Bit(pc.GetPopped?) - Bit(pc.PutPushed?) }

  predicate Inside(pc: Thread) {
    pc.GetLocked? || pc.GetPopped? || pc.GetCounted? || pc.PutLocked? || pc.PutPushed? || pc.PutCounted?
  }

  ghost function Holds(c: Conn): Thread -> int {
    (pc: Thread) => Bit((pc.GetPopped? || pc.GetCounted? || pc.Leased? || pc.PutLocked?) && pc.conn == c)
  }

  /** Where connection `c` is: idle in the queue or held by a thread. */
  ghost function Copies(s: State, c: Conn): int { multiset(s.connList)[c] + Sum(s.threads, Holds(c)) }

  ghost predicate Counted(s: State) {
    && |s.connList| == s.permits + Sum(s.threads, InTransit)
    && |s.connList| + Sum(s.threads, HoldsOne) == s.maxConn
    && s.freeConn == |s.connList| + Sum(s.threads, FreeLag)
    && s.curConn == Sum(s.threads, InCur)
  }

  /** The mutex: its holder is the one thread inside a locked section. */
  ghost predicate Locked(s: State) {
    && (forall t :: 0 <= t < |s.threads| ==> (Inside(s.threads[t]) <==> s.lock == Some(t)))
    && (s.lock.Some? ==> s.lock.value < |s.threads|)
  }

  ghost predicate Inv(s: State) {
    Counted(s) && Locked(s) && forall c: Conn :: Copies(s, c) == Bit(c < s.maxConn)
  }

  lemma CountsMove(s: State, t: nat, pc: Thread)
    requires t < |s.threads|
    ensures var u, was := s.threads[t := pc], s.threads[t];
            && Sum(u, InTransit) == Sum(s.threads, InTransit) - InTransit(was) + InTransit(pc)
            && Sum(u, HoldsOne) == Sum(s.threads, HoldsOne) - HoldsOne(was) + HoldsOne(pc)
            && Sum(u, FreeLag) == Sum(s.threads, FreeLag) - FreeLag(was) + FreeLag(pc)
            && Sum(u, InCur) == Sum(s.threads, InCur) - InCur(was) + InCur(pc)
  {
    SumUpdate(s.threads, t, pc, InTransit);
    SumUpdate(s.threads, t, pc, HoldsOne);
    SumUpdate(s.threads, t, pc, FreeLag);
    SumUpdate(s.threads, t, pc, InCur);
  }

  /** A thread that holds a permit finds the queue non-empty: the early return is dead. */
  lemma NeverEmpty(s: State, t: nat)
    requires Inv(s) && t < |s.threads| && (s.threads[t].Acquired? || s.threads[t].GetLocked?)
    ensures s.connList != []
  {
    SumBounds(s.threads, t, InTransit);
  }

  lemma PermitMeansIdle(s: State)
    requires Inv(s) && s.permits > 0
    ensures s.connList != []
  {
    SumRange(s.threads, InTransit);
  }

  predicate Getting(a: Action) { a.Acquire? || a.LockGet? || a.PopFront? || a.DecFree? || a.IncCur? }

  lemma GetCountedStep(s: State, a: Action)
    requires Inv(s) && Step(s, a).Some? && Getting(a)
    ensures Counted(Step(s, a).value)
  {
    if a.PopFront? {
      NeverEmpty(s, a.t);
    }
    hide Locked, Copies;
    CountsMove(s, a.t, Step(s, a).value.threads[a.t]);
  }

  lemma PutCountedStep(s: State, a: Action)
    requires Counted(s) && Step(s, a).Some? && !Getting(a)
    ensures Counted(Step(s, a).value)
  {
    CountsMove(s, a.t, Step(s, a).value.threads[a.t]);
  }

  lemma CountedStep(s: State, a: Action)
    requires Inv(s) && Step(s, a).Some?
    ensures Counted(Step(s, a).value)
  {
    hide Step, Counted;
    if Getting(a) {
      GetCountedStep(s, a);
    } else {
      PutCountedStep(s, a);
    }
  }

  lemma CopiesStep(s: State, a: Action, c: Conn)
    requires Inv(s) && Step(s, a).Some?
    ensures Copies(Step(s, a).value, c) == Copies(s, c)
  {
    if a.PopFront? {
      NeverEmpty(s, a.t);
    }
    hide Inv, Copies;
    var u, t := Step(s, a).value, a.t;
    if a.PopFront? {
      PopCopies(s, t, c);
    } else if a.PushBack? {
      PushCopies(s, t, c);
    } else {
      HandCopies(s, u, t, c);
    }
  }

  lemma PopCopies(s: State, t: nat, c: Conn)
    requires t < |s.threads| && s.threads[t].GetLocked? && s.connList != []
    ensures Copies(Move(s.(connList := s.connList[1..]), t, GetPopped(s.connList[0])), c) == Copies(s, c)
  {
    SumUpdate(s.threads, t, GetPopped(s.connList[0]), Holds(c));
    assert s.connList == [s.connList[0]] + s.connList[1..];
  }

  lemma PushCopies(s: State, t: nat, c: Conn)
    requires t < |s.threads| && s.threads[t].PutLocked?
    ensures Copies(Move(s.(connList := s.connList + [s.threads[t].conn]), t, PutPushed), c) == Copies(s, c)
  {
    SumUpdate(s.threads, t, PutPushed, Holds(c));
  }

  /** A step that leaves the queue and what its thread holds. */
  lemma HandCopies(s: State, u: State, t: nat, c: Conn)
    requires t < |s.threads| == |u.threads| && u.connList == s.connList && u.threads == s.threads[t := u.threads[t]]
    requires Holds(c)(u.threads[t]) == Holds(c)(s.threads[t])
    ensures Copies(u, c) == Copies(s, c)
  {
    SumUpdate(s.threads, t, u.threads[t], Holds(c));
  }

  lemma InvStep(s: State, a: Action)
    requires Inv(s) && Step(s, a).Some?
    ensures Inv(Step(s, a).value)
  {
    hide Counted, Copies;
    CountedStep(s, a);
    forall c: Conn ensures Copies(Step(s, a).value, c) == Bit(c < s.maxConn) {
      CopiesStep(s, a, c);
    }
  }

  lemma {:induction false} IdleSums(threads: seq<Thread>, c: Conn)
    requires forall t :: 0 <= t < |threads| ==> threads[t].Idle?
    ensures Sum(threads, InTransit) == Sum(threads, HoldsOne) == Sum(threads, FreeLag) == Sum(threads, InCur) == 0
    ensures Sum(threads, Holds(c)) == 0
    decreases |threads|
  {
    if threads != [] {
      IdleSums(threads[1..], c);
    }
  }

  lemma InvInit(maxConn: nat, threads: nat)
    ensures Inv(Init(maxConn, threads))
  {
    var s := Init(maxConn, threads);
    forall c: Conn ensures Copies(s, c) == Bit(c < maxConn) {
      IdleSums(s.threads, c);
      NumbersCount(maxConn, c);
    }
    IdleSums(s.threads, 0);
  }

  lemma ReachableInv(maxConn: nat, threads: nat, run: seq<Action>)
    requires Exec(Step, Init(maxConn, threads), run).Some?
    ensures Inv(Exec(Step, Init(maxConn, threads), run).value)
  {
    InvInit(maxConn, threads);
    InvRun(Init(maxConn, threads), run);
  }

  lemma {:induction false} OutsideSums(threads: seq<Thread>)
    requires forall t :: 0 <= t < |threads| ==> !Inside(threads[t])
    ensures Sum(threads, FreeLag) == 0 && Sum(threads, InCur) == Sum(threads, HoldsOne)
    decreases |threads|
  {
    if threads != [] {
      OutsideSums(threads[1..]);
    }
  }

  lemma {:induction false} ConfigFixed(s: State, run: seq<Action>)
    requires Exec(Step, s, run).Some?
    ensures var u := Exec(Step, s, run).value; u.maxConn == s.maxConn && |u.threads| == |s.threads|
    decreases |run|
  {
    if run != [] {
      ConfigFixed(Step(s, run[0]).value, run[1..]);
    }
  }

  /** In every interleaving of any number of threads: the queue is as long as permits, threads on
      their way to it and threads about to release together; no get_connection returns NULL; every
      connection is idle once or held by exactly one thread; and whenever the lock is free the two
      counters tell the truth and add up to the pool size. */
  lemma PoolAccounting(maxConn: nat, threads: nat, run: seq<Action>)
    requires Exec(Step, Init(maxConn, threads), run).Some?
    ensures var s := Exec(Step, Init(maxConn, threads), run).value;
            && |s.connList| == s.permits + Sum(s.threads, InTransit)
            && (forall t :: 0 <= t < |s.threads| && s.threads[t].GetLocked? ==> s.connList != [])
            && (forall c: Conn :: Copies(s, c) == Bit(c < maxConn))
            && (s.lock.None? ==> s.freeConn + s.curConn == maxConn && s.freeConn == |s.connList|)
  {
    ReachableInv(maxConn, threads, run);
    ConfigFixed(Init(maxConn, threads), run);
    var s := Exec(Step, Init(maxConn, threads), run).value;
    forall t: nat | t < |s.threads| && s.threads[t].GetLocked? ensures s.connList != [] {
      NeverEmpty(s, t);
    }
    if s.lock.None? {
      OutsideSums(s.threads);
    }
  }

  function Busy(pc: Thread): int { InTransit(pc) + HoldsOne(pc) }

  lemma {:induction false} BusySum(threads: seq<Thread>)
    ensures Sum(threads, Busy) == Sum(threads, InTransit) + Sum(threads, HoldsOne)
    decreases |threads|
  {
    if threads != [] {
      BusySum(threads[1..]);
    }
  }

  /** With no more threads than connections, nobody ever blocks in acquire: a thread holds at most
      one lease and returns it, so one permit is left for every thread that wants one. */
  lemma AcquireNeverBlocks(maxConn: nat, threads: nat, run: seq<Action>, t: nat)
    requires threads <= maxConn && t < threads
    requires Exec(Step, Init(maxConn, threads), run).Some?
    ensures var s := Exec(Step, Init(maxConn, threads), run).value;
            t < |s.threads| && (s.threads[t].Idle? ==> Step(s, Acquire(t)).Some?)
  {
    ReachableInv(maxConn, threads, run);
    ConfigFixed(Init(maxConn, threads), run);
    var s := Exec(Step, Init(maxConn, threads), run).value;
    BusySum(s.threads);
    SumBounds(s.threads, t, Busy);
  }

  // ---- more threads than connections ----

  /** Steps a thread still makes until it holds nothing. */
  function Rank(pc: Thread): int {
    match pc
    case Acquired => 9
    case GetLocked => 8
    case GetPopped(_) => 7
    case GetCounted(_) => 6
    case Leased(_) => 5
    case PutLocked(_) => 4
    case PutPushed => 3
    case PutCounted => 2
    case Posting => 1
    case Idle => 0
    case NoConn => 0
  }

  /** The next step of a thread that holds a permit or a connection, given the lock if it needs it. */
  function NextOf(pc: Thread, t: nat): Action
    requires pc != Idle && pc != NoConn
  {
    match pc
    case Acquired => LockGet(t)
    case GetLocked => PopFront(t)
    case GetPopped(_) => DecFree(t)
    case GetCounted(_) => IncCur(t)
    case Leased(_) => LockPut(t)
    case PutLocked(_) => PushBack(t)
    case PutPushed => IncFree(t)
    case PutCounted => DecCur(t)
    case Posting => Post(t)
  }

  lemma BusyMoves(s: State, t: nat)
    requires t < |s.threads| && Busy(s.threads[t]) > 0 && (s.lock.None? || Inside(s.threads[t]))
    ensures var a := NextOf(s.threads[t], t); !a.Acquire? && Step(s, a).Some?
  {}

  /** Every step that takes no new permit brings some thread closer to returning what it holds. */
  lemma ReturnStep(s: State, a: Action)
    requires Inv(s) && Step(s, a).Some? && !a.Acquire?
    ensures Sum(Step(s, a).value.threads, Rank) < Sum(s.threads, Rank)
  {
    if a.PopFront? {
      NeverEmpty(s, a.t);
    }
    hide Inv;
    SumUpdate(s.threads, a.t, Step(s, a).value.threads[a.t], Rank);
  }

  /** However many threads there are, a thread that waits for a permit is never stuck: while a permit is
      missing, some other thread can move. */
  lemma WaiterNotStuck(s: State)
    requires Inv(s) && s.permits < s.maxConn
    ensures exists a: Action :: !a.Acquire? && Step(s, a).Some?
  {
    BusySum(s.threads);
    var w := SumWitness(s.threads, Busy);
    if s.lock.None? {
      BusyMoves(s, w);
    } else {
      LockHolder(s);
      BusyMoves(s, s.lock.value);
    }
  }

  lemma LockHolder(s: State)
    requires Inv(s) && s.lock.Some?
    ensures s.lock.value < |s.threads| && Inside(s.threads[s.lock.value])
  {}

  /** And it does not wait for ever: without new acquires no run is longer than the steps left, and one
      that cannot go on has every permit back. */
  lemma {:induction false} PermitsReturn(s: State, run: seq<Action>)
    requires Inv(s) && Exec(Step, s, run).Some? && forall i :: 0 <= i < |run| ==> !run[i].Acquire?
    ensures var u := Exec(Step, s, run).value;
            && |run| <= Sum(s.threads, Rank)
            && ((forall a: Action :: !a.Acquire? ==> Step(u, a).None?) ==> u.permits == u.maxConn)
    decreases |run|
  {
    hide Step, Inv;
    SumNonNegative(s.threads, Rank);
    if run == [] {
      PermitsBounded(s);
      if s.permits < s.maxConn {
        WaiterNotStuck(s);
      }
    } else {
      ReturnStep(s, run[0]);
      InvStep(s, run[0]);
      PermitsReturn(Step(s, run[0]).value, run[1..]);
    }
  }

  lemma PermitsBounded(s: State)
    requires Inv(s)
    ensures s.permits <= s.maxConn
  {
    SumRange(s.threads, InTransit);
    SumRange(s.threads, HoldsOne);
  }

  // ---- the object ----

  lemma InvRun(s: State, run: seq<Action>)
    requires Inv(s) && Exec(Step, s, run).Some?
    ensures Inv(Exec(Step, s, run).value)
  {
    forall x: State, a: Action | Inv(x) && Step(x, a).Some? ensures Inv(Step(x, a).value) {
      InvStep(x, a);
    }
    InvariantHolds(Step, Inv, s, run);
  }

  /** get_connection() and release_connection() as runs of their thread. */
  function GetSteps(t: nat): seq<Action> { [Acquire(t), LockGet(t), PopFront(t), DecFree(t), IncCur(t)] }
  function PutSteps(t: nat): seq<Action> { [LockPut(t), PushBack(t), IncFree(t), DecCur(t), Post(t)] }

  lemma PopRuns(s: State, t: nat)
    requires t < |s.threads| && s.threads[t].Idle? && s.permits > 0 && s.lock.None? && s.connList != []
    ensures Exec(Step, s, [Acquire(t), LockGet(t), PopFront(t)]) ==
            Some(s.(permits := s.permits - 1, connList := s.connList[1..], lock := Some(t),
                    threads := s.threads[t := GetPopped(s.connList[0])]))
  {
    hide Exec;
    var s1 := Move(s.(permits := s.permits - 1), t, Acquired);
    var s2 := Move(s1.(lock := Some(t)), t, GetLocked);
    var s3 := Move(s2.(connList := s.connList[1..]), t, GetPopped(s.connList[0]));
    assert Step(s, Acquire(t)) == Some(s1);
    assert Step(s1, LockGet(t)) == Some(s2);
    assert Step(s2, PopFront(t)) == Some(s3);
    assert s3.threads == s.threads[t := GetPopped(s.connList[0])];
    ExecChain(Step, [s, s1, s2, s3], [Acquire(t), LockGet(t), PopFront(t)]);
  }

  lemma CountRuns(s: State, t: nat)
    requires t < |s.threads| && s.threads[t].GetPopped?
    ensures Exec(Step, s, [DecFree(t), IncCur(t)]) ==
            Some(s.(freeConn := s.freeConn - 1, curConn := s.curConn + 1, lock := None,
                    threads := s.threads[t := Leased(s.threads[t].conn)]))
  {
    hide Exec;
    var conn := s.threads[t].conn;
    var s1 := Move(s.(freeConn := s.freeConn - 1), t, GetCounted(conn));
    var s2 := Move(s1.(curConn := s.curConn + 1, lock := None), t, Leased(conn));
    assert Step(s, DecFree(t)) == Some(s1);
    assert Step(s1, IncCur(t)) == Some(s2);
    assert s2.threads == s.threads[t := Leased(conn)];
    ExecChain(Step, [s, s1, s2], [DecFree(t), IncCur(t)]);
  }

  lemma GetRuns(s: State, t: nat)
    requires t < |s.threads| && s.threads[t].Idle? && s.permits > 0 && s.lock.None? && s.connList != []
    ensures Exec(Step, s, GetSteps(t)) ==
            Some(s.(permits := s.permits - 1, connList := s.connList[1..], freeConn := s.freeConn - 1,
                    curConn := s.curConn + 1, threads := s.threads[t := Leased(s.connList[0])]))
  {
    hide Exec, Step;
    PopRuns(s, t);
    var popped := Exec(Step, s, [Acquire(t), LockGet(t), PopFront(t)]).value;
    CountRuns(popped, t);
    ExecConcat(Step, s, [Acquire(t), LockGet(t), PopFront(t)], [DecFree(t), IncCur(t)]);
    assert GetSteps(t) == [Acquire(t), LockGet(t), PopFront(t)] + [DecFree(t), IncCur(t)];
    assert popped.threads[t := Leased(s.connList[0])] == s.threads[t := Leased(s.connList[0])];
  }

  lemma PutRuns(s: State, t: nat)
    requires t < |s.threads| && s.threads[t].Leased? && s.lock.None?
    ensures Exec(Step, s, PutSteps(t)) ==
            Some(s.(permits := s.permits + 1, connList := s.connList + [s.threads[t].conn],
                    freeConn := s.freeConn + 1, curConn := s.curConn - 1, threads := s.threads[t := Idle]))
  {
    hide Exec;
    var conn := s.threads[t].conn;
    var s1 := Move(s.(lock := Some(t)), t, PutLocked(conn));
    var s2 := Move(s1.(connList := s.connList + [conn]), t, PutPushed);
    var s3 := Move(s2.(freeConn := s.freeConn + 1), t, PutCounted);
    var s4 := Move(s3.(curConn := s.curConn - 1, lock := None), t, Posting);
    var s5 := Move(s4.(permits := s.permits + 1), t, Idle);
    assert Step(s, LockPut(t)) == Some(s1);
    assert Step(s1, PushBack(t)) == Some(s2);
    assert Step(s2, IncFree(t)) == Some(s3);
    assert Step(s3, DecCur(t)) == Some(s4);
    assert Step(s4, Post(t)) == Some(s5);
    assert s5.threads == s.threads[t := Idle];
    ExecChain(Step, [s, s1, s2, s3, s4, s5], PutSteps(t));
  }

  /** What the database answered while a connection was held. */
  datatype Statement = Answered | Refused | Threw

  /** The pool object; each of its calls is proved to be a run of the machine above. */
  class Pool {
    var connList: seq<Conn>
    var permits: nat
    var freeConn: int
    var curConn: int
    var maxConn: nat
    ghost var rest: State

    ghost function Abs(): State
      reads this
    {
      rest.(maxConn := maxConn, connList := connList, permits := permits, freeConn := freeConn, curConn := curConn)
    }

    ghost predicate Valid()
      reads this
    {
      Inv(Abs()) && Abs().lock.None?
    }

    constructor ()
      ensures connList == [] && permits == 0 && freeConn == 0 && curConn == 0
    {
      connList, permits, freeConn, curConn, maxConn := [], 0, 0, 0, 0;
      rest := Init(0, 0);
    }

    /** init() on a new pool, where `connects` tells which connection attempts succeed: all of them make
        the initial state of the machine; at the first failure the process exits. */
    method Open(max: nat, connects: nat -> bool, ghost threads: nat) returns (ok: bool)
      requires connList == [] && permits == 0 && freeConn == 0 && curConn == 0
      modifies this
      ensures ok <==> forall i: nat :: i < max ==> connects(i)
      ensures ok ==> Valid() && Abs() == Init(max, threads)
    {
      hide Inv;
      maxConn, rest := max, Init(max, threads);
      for i := 0 to max
        invariant connList == seq(i, k => k) && freeConn == i && curConn == 0 && maxConn == max && permits == 0
        invariant rest == Init(max, threads) && forall k: nat :: k < i ==> connects(k)
      {
        if !connects(i) {
          return false;
        }
        assert seq(i + 1, k => k) == seq(i, k => k) + [i];
        connList := connList + [i];
        freeConn := freeConn + 1;
      }
      permits := freeConn;
      InvInit(max, threads);
      return true;
    }

    /** get_connection(): acquire, then the locked section. Without a permit the caller stays blocked in
        acquire, and nothing happens. */
    method Get(ghost t: nat) returns (conn: Option<Conn>)
      requires Valid() && t < |Abs().threads| && Abs().threads[t].Idle?
      modifies this
      ensures Valid() && (conn.None? <==> old(permits) == 0)
      ensures conn.None? ==> Abs() == old(Abs()) && Step(Abs(), Acquire(t)).None?
      ensures conn.Some? ==>
                && Exec(Step, old(Abs()), GetSteps(t)) == Some(Abs())
                && [conn.value] + connList == old(connList) && permits == old(permits) - 1
                && Abs().threads == old(Abs().threads)[t := Leased(conn.value)]
    {
      hide Inv, Exec;
      if permits == 0 {
        return None;
      }
      PermitMeansIdle(Abs());
      GetRuns(Abs(), t);
      InvRun(Abs(), GetSteps(t));
      permits := permits - 1;
      var front := connList[0];
      connList := connList[1..];
      freeConn, curConn := freeConn - 1, curConn + 1;
      rest := rest.(threads := rest.threads[t := Leased(front)]);
      return Some(front);
    }

    /** release_connection() */
    method Put(conn: Conn, ghost t: nat)
      requires Valid() && t < |Abs().threads| && Abs().threads[t] == Leased(conn)
      modifies this
      ensures Valid() && Exec(Step, old(Abs()), PutSteps(t)) == Some(Abs())
      ensures connList == old(connList) + [conn] && Abs().threads == old(Abs().threads)[t := Idle]
      ensures permits == old(permits) + 1
    {
      hide Step, Inv, Exec;
      PutRuns(Abs(), t);
      InvRun(Abs(), PutSteps(t));
      connList := connList + [conn];
      freeConn, curConn := freeConn + 1, curConn - 1;
      permits := permits + 1;
      rest := rest.(threads := rest.threads[t := Idle]);
    }

    /** A data access call: the lease guard returns the connection on every path - after an answer, an
        early return or an exception - so the caller holds nothing afterwards and the pool only
        changed its order. */
    method RunStatement(outcome: Statement, ghost t: nat) returns (ok: Option<bool>)
      requires Valid() && t < |Abs().threads| && Abs().threads[t].Idle?
      modifies this
      ensures Valid() && permits == old(permits) && Abs().threads == old(Abs().threads)
      ensures ok.None? <==> old(permits) == 0
      ensures ok.None? ==> Abs() == old(Abs())
      ensures ok.Some? ==>
                && (ok.value <==> outcome.Answered?)
                && old(connList) != [] && connList == old(connList)[1..] + [old(connList)[0]]
    {
      hide Step, Inv;
      var conn := Get(t);
      if conn.None? {
        return None;
      }
      assert old(connList) == [conn.value] + connList;
      Put(conn.value, t);  // the guard's destructor, on whichever path the scope is left
      return Some(outcome.Answered?);
    }
  }
}
