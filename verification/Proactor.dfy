/** The event loop of src/main.cpp with its worker pool, as one interleaved step system.

    The main thread alone waits on epoll, accepts, reads, writes and closes; workers process. Nothing
    in the state says who owns a connection: that is derived from one-shot arming, the queue and
    where each thread is. Workers end process() by re-arming and never close a connection, which is
    what HttpConn.Connection.Process establishes. */
module Proactor {
  import opened Runs
  import opened Tally
  import TP = ThreadPool

  type Fd = nat

  datatype Kind = Hangup | Readable | Writable
  datatype Event = Listen | Ready(fd: Fd, kind: Kind)

  /** Where the main thread is: at epoll_wait or between events, or inside the handling of one
      descriptor. `Opening` and `Finishing` have already armed it but still touch its buffers. */
  datatype Main =
    | Loop | Opening(fd: Fd) | Reading(fd: Fd) | Appending(fd: Fd) | Releasing
    | Writing(fd: Fd) | Finishing(fd: Fd, keep: bool) | Closing(fd: Fd)

  datatype WriteResult = Pause | Done(keep: bool) | Fail

  /** `reserved`: descriptors the process holds for other purposes - the standard streams, the listening
      and epoll descriptors, database and cache sockets - which accept never returns;
      `open`: connections with a valid socket; `armed`: descriptors epoll may report; `batch`: events
      returned by epoll_wait and not yet handled; `stranded`: connections whose append was refused. */
  datatype State = State(
    maxFd: nat, reserved: set<Fd>, open: set<Fd>, userCount: int, armed: set<Fd>, batch: seq<Event>, main: Main,
    pool: TP.State<Fd>, stranded: set<Fd>)

  datatype Action =
    | Poll(events: seq<Event>) | AcceptFails | Accept(fd: Fd) | FinishOpen | StartEvent
    | ReadDone(ok: bool) | Push | Post | WriteDone(result: WriteResult) | FinishWrite | Close
    | WorkerMove(action: TP.Action<Fd>)

  /** The descriptors a connection can get. */
  function Usable(maxFd: nat, reserved: set<Fd>): set<Fd> { set fd: Fd | fd < maxFd && fd !in reserved }

  function Init(threads: nat, maxRequests: nat, maxFd: nat, reserved: set<Fd>): State {
    State(maxFd, reserved, {}, 0, {}, [], Loop, TP.Init(threads, maxRequests), {})
  }

  function Fds(events: seq<Event>): seq<Fd> {
    if events == [] then []
    else if events[0].Listen? then Fds(events[1..])
    else [events[0].fd] + Fds(events[1..])
  }

  predicate Distinct(fds: seq<Fd>) { forall i, j :: 0 <= i < j < |fds| ==> fds[i] != fds[j] }

  /** What epoll_wait may return: armed descriptors, each at most once, and the listening socket. */
  predicate Pollable(s: State, events: seq<Event>) {
    Distinct(Fds(events)) && forall fd :: fd in Fds(events) ==> fd in s.armed
  }

  function Step(s: State, a: Action): Option<State> {
    match a
    case Poll(events) =>
      if s.main.Loop? && s.batch == [] && Pollable(s, events)
      then Some(s.(batch := events, armed := s.armed - set fd | fd in Fds(events))) else None
    case AcceptFails =>
      if s.main.Loop? && s.batch != [] && s.batch[0].Listen? then Some(s.(batch := s.batch[1..])) else None
    case Accept(fd) =>
      if !(s.main.Loop? && s.batch != [] && s.batch[0].Listen? && fd !in s.open && fd !in s.reserved) then None
      else if s.userCount >= s.maxFd || fd >= s.maxFd then Some(s.(batch := s.batch[1..]))
      else Some(s.(batch := s.batch[1..], open := s.open + {fd}, userCount := s.userCount + 1,
                   armed := s.armed + {fd}, main := Opening(fd)))
    case FinishOpen =>
      if s.main.Opening? then Some(s.(main := Loop)) else None
    case StartEvent =>
      if !(s.main.Loop? && s.batch != [] && s.batch[0].Ready?) then None
      else
        var fd := s.batch[0].fd;
        Some(s.(batch := s.batch[1..],
                main := match s.batch[0].kind
                        case Hangup => Closing(fd)
                        case Readable => Reading(fd)
                        case Writable => Writing(fd)))
    case ReadDone(ok) =>
      if !s.main.Reading? then None
      else if !ok then Some(s.(main := Closing(s.main.fd)))
      else OverPool(s.(main := Appending(s.main.fd)), TP.Step(s.pool, TP.Submit(s.main.fd)))
    case Push =>
      if !s.main.Appending? then None
      else
        var fd := s.main.fd;
        OverPool(if |s.pool.queue| >= s.pool.maxRequests then s.(main := Loop, stranded := s.stranded + {fd})
                 else s.(main := Releasing),
                 TP.Step(s.pool, TP.Push))
    case Post =>
      if !s.main.Releasing? then None else OverPool(s.(main := Loop), TP.Step(s.pool, TP.Post))
    case WriteDone(r) =>
      if !s.main.Writing? then None
      else
        var fd := s.main.fd;
        Some(match r
             case Pause => s.(main := Loop, armed := s.armed + {fd})
             case Done(keep) => s.(main := Finishing(fd, keep), armed := s.armed + {fd})
             case Fail => s.(main := Closing(fd)))
    case FinishWrite =>
      if !s.main.Finishing? then None
      else Some(s.(main := if s.main.keep then Loop else Closing(s.main.fd)))
    case Close =>
      if !s.main.Closing? then None
      else Some(s.(open := s.open - {s.main.fd}, armed := s.armed - {s.main.fd},
                   userCount := s.userCount - 1, main := Loop))
    case WorkerMove(move) =>
      if TP.WorkerOf(move).None? then None
      else if move.Finish? && move.w < |s.pool.workers| && s.pool.workers[move.w].Running?
      then OverPool(s.(armed := s.armed + {s.pool.workers[move.w].task}), TP.Step(s.pool, move))
      else OverPool(s, TP.Step(s.pool, move))
  }

  function OverPool(s: State, pool: Option<TP.State<Fd>>): Option<State> {
    match pool
    case None => None
    case Some(p) => Some(s.(pool := p))
  }

  // ---- who owns a connection ----

  predicate MainOn(m: Main, fd: Fd) { !m.Loop? && !m.Releasing? && m.fd == fd }

  ghost function Handling(fd: Fd): TP.Worker<Fd> -> int {
    (pc: TP.Worker<Fd>) => if pc == TP.Running(fd) then 1 else 0
  }

  ghost function InWorkers(pool: TP.State<Fd>, fd: Fd): int { Sum(pool.workers, Handling(fd)) }

  predicate Near(s: State, fd: Fd) { fd in s.armed || MainOn(s.main, fd) }

  /** In how many hands a connection is: armed or in the main thread's current event, in its batch,
      in the queue, in a worker, or stranded. */
  ghost function Places(s: State, fd: Fd): int {
    Bit(Near(s, fd)) + multiset(Fds(s.batch))[fd] + multiset(s.pool.queue)[fd]
    + InWorkers(s.pool, fd) + Bit(fd in s.stranded)
  }

  ghost predicate Coupled(s: State) {
    && !s.pool.Stopped()
    && (s.main.Appending? <==> s.pool.appender.Pushing?)
    && (s.main.Appending? ==> s.pool.appender.task == s.main.fd)
    && (s.main.Releasing? <==> s.pool.appender.Posting?)
  }

  ghost predicate Inv(s: State) {
    && TP.Inv(s.pool) && Coupled(s)
    && (forall fd :: Places(s, fd) == Bit(fd in s.open))
    && (forall fd :: fd in s.open ==> fd in Usable(s.maxFd, s.reserved))
    && (forall fd :: fd in s.armed && MainOn(s.main, fd) ==>
          s.main.Opening? || s.main.Finishing? || s.main.Closing?)
    && (s.main.Opening? || s.main.Finishing? ==> s.main.fd in s.armed)
    && s.userCount == |s.open|
    && (|Usable(s.maxFd, s.reserved)| <= s.pool.maxRequests ==> s.stranded == {})
  }

  lemma {:induction false} DistinctCount(fds: seq<Fd>, fd: Fd)
    requires Distinct(fds)
    ensures multiset(fds)[fd] == Bit(fd in fds)
    decreases |fds|
  {
    if fds != [] {
      assert fds == [fds[0]] + fds[1..];
      DistinctCount(fds[1..], fd);
    }
  }

  lemma InWorkersUpdate(s: State, w: nat, pc: TP.Worker<Fd>, fd: Fd)
    requires w < |s.pool.workers|
    ensures Sum(s.pool.workers[w := pc], Handling(fd))
            == InWorkers(s.pool, fd) - Handling(fd)(s.pool.workers[w]) + Handling(fd)(pc)
  {
    SumUpdate(s.pool.workers, w, pc, Handling(fd));
  }

  lemma InWorkersBounds(s: State, w: nat, fd: Fd)
    requires w < |s.pool.workers|
    ensures Handling(fd)(s.pool.workers[w]) <= InWorkers(s.pool, fd)
  {
    SumBounds(s.pool.workers, w, Handling(fd));
  }

  lemma InWorkersNonNegative(s: State, fd: Fd)
    ensures 0 <= InWorkers(s.pool, fd)
  {
    SumRange(s.pool.workers, Handling(fd));
  }

  // ---- counting connections ----

  /** A sequence that holds nothing outside `all`, and nothing twice, is no longer than `all`. */
  lemma {:induction false} PackedLength(fds: seq<Fd>, all: set<Fd>)
    requires forall fd :: multiset(fds)[fd] <= Bit(fd in all)
    ensures |fds| <= |all|
    decreases |fds|
  {
    if fds != [] {
      assert fds == [fds[0]] + fds[1..];
      assert multiset(fds)[fds[0]] >= 1;
      PackedLength(fds[1..], all - {fds[0]});
    }
  }

  lemma {:induction false} Below(fds: set<Fd>, n: nat)
    requires forall fd :: fd in fds ==> fd < n
    ensures |fds| <= n
    decreases n
  {
    if n > 0 {
      Below(fds - {n - 1}, n - 1);
      assert fds <= fds - {n - 1} + {n - 1};
    } else {
      assert fds == {};
    }
  }

  lemma {:induction false} SubsetSize(a: set<Fd>, b: set<Fd>)
    requires a <= b
    ensures |a| <= |b|
    decreases |b|
  {
    if fd :| fd in b {
      SubsetSize(a - {fd}, b - {fd});
    }
  }

  lemma OpenFits(s: State)
    requires Inv(s)
    ensures |s.open| <= |Usable(s.maxFd, s.reserved)| <= s.maxFd
  {
    SubsetSize(s.open, Usable(s.maxFd, s.reserved));
    Below(Usable(s.maxFd, s.reserved), s.maxFd);
  }

  /** While the main thread is about to append `fd`, the queue and `fd` fit the open connections. */
  lemma QueueBelowOpen(s: State)
    requires Inv(s) && s.main.Appending?
    ensures |s.pool.queue| < |s.open| <= |Usable(s.maxFd, s.reserved)| <= s.maxFd
  {
    var all := s.pool.queue + [s.main.fd];
    forall fd ensures multiset(all)[fd] <= Bit(fd in s.open) {
      InWorkersNonNegative(s, fd);
      assert multiset(all) == multiset(s.pool.queue) + multiset([s.main.fd]);
    }
    PackedLength(all, s.open);
    OpenFits(s);
  }

  // ---- every step keeps the invariant ----

  lemma FinishKeeps(s: State, w: nat)
    requires Inv(s) && Step(s, WorkerMove(TP.Finish(w))).Some?
    ensures Inv(Step(s, WorkerMove(TP.Finish(w))).value)
  {
    hide TP.Inv;
    var task := s.pool.workers[w].task;
    var t := s.(armed := s.armed + {task}, pool := TP.WorkerStep(s.pool, w, TP.Top));
    TP.InvStep(s.pool, TP.Finish(w));
    InWorkersBounds(s, w, task);
    assert Places(s, task) == 1 && !Near(s, task);
    forall fd ensures Places(t, fd) == Bit(fd in t.open) {
      InWorkersUpdate(s, w, TP.Top, fd);
      assert Places(s, fd) == Bit(fd in s.open);
    }
    assert Step(s, WorkerMove(TP.Finish(w))) == Some(t);
  }

  lemma PopKeeps(s: State, w: nat)
    requires Inv(s) && Step(s, WorkerMove(TP.Pop(w))).Some?
    ensures Inv(Step(s, WorkerMove(TP.Pop(w))).value)
  {
    TP.PopFindsTask(s.pool, w);
    TP.InvStep(s.pool, TP.Pop(w));
    hide TP.Inv;
    var task := s.pool.queue[0];
    var pool := s.pool.(queue := s.pool.queue[1..], taken := s.pool.taken + [task]);
    var t := s.(pool := TP.WorkerStep(pool, w, TP.Running(task)));
    assert s.pool.queue == [task] + s.pool.queue[1..];
    forall fd ensures Places(t, fd) == Bit(fd in t.open) {
      InWorkersUpdate(s, w, TP.Running(task), fd);
      assert Places(s, fd) == Bit(fd in s.open);
    }
    assert Step(s, WorkerMove(TP.Pop(w))) == Some(t);
  }

  lemma WorkerMoveKeeps(s: State, move: TP.Action<Fd>)
    requires Inv(s) && Step(s, WorkerMove(move)).Some?
    ensures Inv(Step(s, WorkerMove(move)).value)
  {
    if move.Finish? {
      FinishKeeps(s, move.w);
    } else if move.Pop? {
      PopKeeps(s, move.w);
    } else {
      hide TP.Inv;
      var t := Step(s, WorkerMove(move)).value;
      var w := TP.WorkerOf(move).value;
      TP.InvStep(s.pool, move);
      assert t.pool.workers == s.pool.workers[w := t.pool.workers[w]];
      forall fd ensures Places(t, fd) == Bit(fd in t.open) {
        InWorkersUpdate(s, w, t.pool.workers[w], fd);
        assert Places(s, fd) == Bit(fd in s.open);
      }
    }
  }

  lemma ReadKeeps(s: State, ok: bool)
    requires Inv(s) && Step(s, ReadDone(ok)).Some?
    ensures Inv(Step(s, ReadDone(ok)).value)
  {
    hide TP.Inv;
    var t := if ok then s.(main := Appending(s.main.fd), pool := s.pool.(appender := TP.Pushing(s.main.fd)))
             else s.(main := Closing(s.main.fd));
    if ok {
      TP.InvStep(s.pool, TP.Submit(s.main.fd));
    }
    forall fd ensures Places(t, fd) == Bit(fd in t.open) {
      assert Places(s, fd) == Bit(fd in s.open);
    }
    assert Step(s, ReadDone(ok)) == Some(t);
  }

  lemma PushKeeps(s: State)
    requires Inv(s) && Step(s, Push).Some?
    ensures Inv(Step(s, Push).value)
  {
    hide TP.Inv;
    TP.InvStep(s.pool, TP.Push);
    var fd := s.main.fd;
    if |s.pool.queue| >= s.pool.maxRequests {
      var t := s.(main := Loop, stranded := s.stranded + {fd}, pool := s.pool.(appender := TP.Idle));
      assert Step(s, Push) == Some(t);
      RefusedKeeps(s, t);
    } else {
      var t := s.(main := Releasing,
                  pool := s.pool.(queue := s.pool.queue + [fd], accepted := s.pool.accepted + [fd], appender := TP.Posting));
      assert Step(s, Push) == Some(t);
      QueuedKeeps(s, t);
    }
  }

  lemma RefusedKeeps(s: State, t: State)
    requires Inv(s) && s.main.Appending? && |s.pool.queue| >= s.pool.maxRequests && TP.Inv(t.pool)
    requires t == s.(main := Loop, stranded := s.stranded + {s.main.fd}, pool := s.pool.(appender := TP.Idle))
    ensures Inv(t)
  {
    hide TP.Inv, Fds;
    QueueBelowOpen(s);
    forall fd ensures Places(t, fd) == Bit(fd in t.open) {
      InWorkersNonNegative(s, fd);
      assert Places(s, fd) == Bit(fd in s.open);
      assert InWorkers(t.pool, fd) == InWorkers(s.pool, fd);
    }
  }

  lemma QueuedKeeps(s: State, t: State)
    requires Inv(s) && s.main.Appending? && TP.Inv(t.pool)
    requires t == s.(main := Releasing, pool := s.pool.(queue := s.pool.queue + [s.main.fd],
                                                        accepted := s.pool.accepted + [s.main.fd], appender := TP.Posting))
    ensures Inv(t)
  {
    hide TP.Inv, Fds;
    forall fd ensures Places(t, fd) == Bit(fd in t.open) {
      InWorkersNonNegative(s, fd);
      assert Places(s, fd) == Bit(fd in s.open);
      assert InWorkers(t.pool, fd) == InWorkers(s.pool, fd);
      assert multiset(t.pool.queue) == multiset(s.pool.queue) + multiset([s.main.fd]);
    }
  }

  lemma PostKeeps(s: State)
    requires Inv(s) && Step(s, Post).Some?
    ensures Inv(Step(s, Post).value)
  {
    TP.InvStep(s.pool, TP.Post);
    hide TP.Inv;
    var t := Step(s, Post).value;
    forall fd ensures Places(t, fd) == Bit(fd in t.open) {
      assert Places(s, fd) == Bit(fd in s.open);
    }
  }

  lemma PollKeeps(s: State, events: seq<Event>)
    requires Inv(s) && Step(s, Poll(events)).Some?
    ensures Inv(Step(s, Poll(events)).value)
  {
    hide TP.Inv, TP.Step, InWorkers;
    var t := Step(s, Poll(events)).value;
    forall fd ensures Places(t, fd) == Bit(fd in t.open) {
      DistinctCount(Fds(events), fd);
      assert Places(s, fd) == Bit(fd in s.open);
    }
  }

  lemma AcceptKeeps(s: State, fd: Fd)
    requires Inv(s) && Step(s, Accept(fd)).Some?
    ensures Inv(Step(s, Accept(fd)).value)
  {
    hide TP.Inv, TP.Step, InWorkers, Pollable;
    var rest := s.(batch := s.batch[1..]);
    assert Fds(rest.batch) == Fds(s.batch);
    if s.userCount >= s.maxFd || fd >= s.maxFd {
      NearFrame(s, rest);
    } else {
      var t := rest.(open := s.open + {fd}, userCount := s.userCount + 1, armed := s.armed + {fd}, main := Opening(fd));
      assert Step(s, Accept(fd)) == Some(t);
      AdmitKeeps(s, t, fd);
    }
  }

  lemma AdmitKeeps(s: State, t: State, fd: Fd)
    requires Inv(s) && s.main.Loop? && fd !in s.open && fd in Usable(s.maxFd, s.reserved) && Fds(t.batch) == Fds(s.batch)
    requires t == s.(batch := t.batch, open := s.open + {fd}, userCount := s.userCount + 1, armed := s.armed + {fd},
                     main := Opening(fd))
    ensures Inv(t)
  {
    hide TP.Inv, InWorkers, Fds;
    InWorkersNonNegative(s, fd);
    assert Places(s, fd) == 0;
    forall other ensures Places(t, other) == Bit(other in t.open) {
      assert Places(s, other) == Bit(other in s.open);
      assert other != fd ==> Near(t, other) == Near(s, other);
    }
  }

  /** Moves of the main thread that hand nothing over. */
  lemma NearFrame(s: State, t: State)
    requires Inv(s) && t == s.(batch := t.batch, main := t.main, armed := t.armed)
    requires Fds(t.batch) == Fds(s.batch) && forall fd :: Near(t, fd) == Near(s, fd)
    requires !s.main.Appending? && !s.main.Releasing? && !t.main.Appending? && !t.main.Releasing?
    requires t.main.Finishing? ==> t.main.fd in t.armed
    requires t.main.Loop? || t.main.Finishing? || t.main.Closing?
    ensures Inv(t)
  {
    hide TP.Inv, InWorkers;
    forall fd ensures Places(t, fd) == Bit(fd in t.open) {
      assert Places(s, fd) == Bit(fd in s.open);
    }
  }

  lemma SmallMoveKeeps(s: State, a: Action)
    requires Inv(s) && (a.AcceptFails? || a.FinishOpen? || a.WriteDone? || a.FinishWrite?) && Step(s, a).Some?
    ensures Inv(Step(s, a).value)
  {
    hide TP.Inv, TP.Step, Places;
    match a
    case AcceptFails => NearFrame(s, s.(batch := s.batch[1..]));
    case FinishOpen => NearFrame(s, s.(main := Loop));
    case FinishWrite => NearFrame(s, Step(s, FinishWrite).value);
    case WriteDone(r) => NearFrame(s, Step(s, WriteDone(r)).value);
  }

  lemma StartEventKeeps(s: State)
    requires Inv(s) && Step(s, StartEvent).Some?
    ensures Inv(Step(s, StartEvent).value)
  {
    hide TP.Inv, TP.Step, InWorkers;
    var t := Step(s, StartEvent).value;
    var fd := s.batch[0].fd;
    InWorkersNonNegative(s, fd);
    assert Places(s, fd) <= 1 && multiset(Fds(s.batch))[fd] >= 1;
    forall other ensures Places(t, other) == Bit(other in t.open) {
      assert Places(s, other) == Bit(other in s.open);
    }
  }

  lemma CloseKeeps(s: State)
    requires Inv(s) && Step(s, Close).Some?
    ensures Inv(Step(s, Close).value)
  {
    hide TP.Inv, TP.Step, InWorkers;
    var t := Step(s, Close).value;
    var fd := s.main.fd;
    InWorkersNonNegative(s, fd);
    assert Near(s, fd) && !Near(t, fd) && Places(s, fd) == Bit(fd in s.open);
    assert fd in s.open && Places(t, fd) == Places(s, fd) - 1;
    hide Fds, Distinct;
    forall other ensures Places(t, other) == Bit(other in t.open) {
      assert Places(s, other) == Bit(other in s.open);
      assert other != fd ==> Near(t, other) == Near(s, other) && Places(t, other) == Places(s, other);
    }
  }

  lemma InvStep(s: State, a: Action)
    requires Inv(s) && Step(s, a).Some?
    ensures Inv(Step(s, a).value)
  {
    if a.WorkerMove? {
      WorkerMoveKeeps(s, a.action);
    } else if a.ReadDone? {
      ReadKeeps(s, a.ok);
    } else if a.Push? {
      PushKeeps(s);
    } else if a.Post? {
      PostKeeps(s);
    } else if a.Poll? {
      PollKeeps(s, a.events);
    } else if a.Accept? {
      AcceptKeeps(s, a.fd);
    } else if a.StartEvent? {
      StartEventKeeps(s);
    } else if a.Close? {
      CloseKeeps(s);
    } else {
      SmallMoveKeeps(s, a);
    }
  }

  lemma {:induction false} NobodyRuns(workers: seq<TP.Worker<Fd>>, fd: Fd)
    requires forall w :: 0 <= w < |workers| ==> workers[w].Top?
    ensures Sum(workers, Handling(fd)) == 0
    decreases |workers|
  {
    if workers != [] {
      NobodyRuns(workers[1..], fd);
    }
  }

  lemma InvInit(threads: nat, maxRequests: nat, maxFd: nat, reserved: set<Fd>)
    ensures Inv(Init(threads, maxRequests, maxFd, reserved))
  {
    var s := Init(threads, maxRequests, maxFd, reserved);
    TP.InvInit<Fd>(threads, maxRequests);
    forall fd ensures Places(s, fd) == 0 {
      NobodyRuns(s.pool.workers, fd);
    }
  }

  lemma ReachableInv(threads: nat, maxRequests: nat, maxFd: nat, reserved: set<Fd>, run: seq<Action>)
    requires Exec(Step, Init(threads, maxRequests, maxFd, reserved), run).Some?
    ensures Inv(Exec(Step, Init(threads, maxRequests, maxFd, reserved), run).value)
  {
    InvInit(threads, maxRequests, maxFd, reserved);
    forall s: State, a: Action | Inv(s) && Step(s, a).Some? ensures Inv(Step(s, a).value) {
      InvStep(s, a);
    }
    InvariantHolds(Step, Inv, Init(threads, maxRequests, maxFd, reserved), run);
  }

  // ---- the theorems ----

  datatype Hand = Closed | Armed | WithMain | Queued | WithWorker | Stranded

  ghost predicate In(s: State, fd: Fd, hand: Hand) {
    match hand
    case Closed => fd !in s.open
    case Armed => fd in s.armed && !MainOn(s.main, fd)
    case WithMain => MainOn(s.main, fd) || fd in Fds(s.batch)
    case Queued => fd in s.pool.queue
    case WithWorker => exists w :: 0 <= w < |s.pool.workers| && s.pool.workers[w] == TP.Running(fd)
    case Stranded => fd in s.stranded
  }

  lemma {:induction false} TwoWorkers(workers: seq<TP.Worker<Fd>>, u: nat, w: nat, fd: Fd)
    requires u < w < |workers| && workers[u] == workers[w] == TP.Running(fd)
    ensures Sum(workers, Handling(fd)) >= 2
    decreases u
  {
    if u == 0 {
      SumBounds(workers[1..], w - 1, Handling(fd));
    } else {
      TwoWorkers(workers[1..], u - 1, w - 1, fd);
    }
  }

  lemma HandsFollowPlaces(s: State, fd: Fd)
    ensures In(s, fd, WithWorker) <==> InWorkers(s.pool, fd) > 0
    ensures In(s, fd, Queued) <==> multiset(s.pool.queue)[fd] > 0
    ensures In(s, fd, WithMain) <==> Bit(MainOn(s.main, fd)) + multiset(Fds(s.batch))[fd] > 0
    ensures InWorkers(s.pool, fd) >= 0
  {
    InWorkersNonNegative(s, fd);
    if InWorkers(s.pool, fd) > 0 {
      var w := SumWitness(s.pool.workers, Handling(fd));
    }
    forall w: nat | w < |s.pool.workers| && s.pool.workers[w] == TP.Running(fd) ensures InWorkers(s.pool, fd) > 0 {
      InWorkersBounds(s, w, fd);
    }
  }

  /** Single owner: in every interleaving of the event loop and any number of workers, each
      descriptor is in exactly one hand, the queue holds no connection twice, and no connection is
      processed by two workers or touched by a worker and the main thread at once. */
  lemma SingleOwner(threads: nat, maxRequests: nat, maxFd: nat, reserved: set<Fd>, run: seq<Action>, fd: Fd)
    requires Exec(Step, Init(threads, maxRequests, maxFd, reserved), run).Some?
    ensures var s := Exec(Step, Init(threads, maxRequests, maxFd, reserved), run).value;
            && (exists h :: In(s, fd, h))
            && (forall h, k :: In(s, fd, h) && In(s, fd, k) ==> h == k)
            && (forall i, j :: 0 <= i < j < |s.pool.queue| ==> s.pool.queue[i] != s.pool.queue[j])
            && (forall u, w :: 0 <= u < w < |s.pool.workers| && s.pool.workers[u] == TP.Running(fd) ==>
                  s.pool.workers[w] != TP.Running(fd))
  {
    ReachableInv(threads, maxRequests, maxFd, reserved, run);
    var s := Exec(Step, Init(threads, maxRequests, maxFd, reserved), run).value;
    HandsFollowPlaces(s, fd);
    assert Places(s, fd) == Bit(fd in s.open);
    OneHand(s, fd);
    forall u: nat, w: nat | u < w < |s.pool.workers| && s.pool.workers[u] == s.pool.workers[w] == TP.Running(fd)
      ensures InWorkers(s.pool, fd) >= 2
    {
      TwoWorkers(s.pool.workers, u, w, fd);
    }
    forall other ensures multiset(s.pool.queue)[other] <= 1 {
      InWorkersNonNegative(s, other);
      assert Places(s, other) == Bit(other in s.open);
    }
    CountDistinct(s.pool.queue);
  }

  lemma OneHand(s: State, fd: Fd)
    requires Places(s, fd) == Bit(fd in s.open)
    ensures exists h :: In(s, fd, h)
    ensures forall h, k :: In(s, fd, h) && In(s, fd, k) ==> h == k
  {
    HandsFollowPlaces(s, fd);
    var h := if fd !in s.open then Closed
             else if fd in s.armed && !MainOn(s.main, fd) then Armed
             else if MainOn(s.main, fd) || fd in Fds(s.batch) then WithMain
             else if fd in s.pool.queue then Queued
             else if fd in s.stranded then Stranded
             else WithWorker;
    assert In(s, fd, h);
  }

  lemma {:induction false} CountDistinct(fds: seq<Fd>)
    requires forall fd :: multiset(fds)[fd] <= 1
    ensures Distinct(fds)
    decreases |fds|
  {
    if fds != [] {
      assert fds == [fds[0]] + fds[1..];
      forall fd ensures multiset(fds[1..])[fd] <= 1 {
        assert multiset(fds)[fd] == multiset([fds[0]])[fd] + multiset(fds[1..])[fd];
      }
      assert multiset(fds)[fds[0]] == 1 + multiset(fds[1..])[fds[0]];
      CountDistinct(fds[1..]);
      forall i, j | 0 <= i < j < |fds| ensures fds[i] != fds[j] {
        assert fds[j] == fds[1..][j - 1] && (i > 0 ==> fds[i] == fds[1..][i - 1]);
      }
    }
  }

  /** Append never rejects when the descriptors that connections can get are no more than the queue
      limit: the queue is shorter than the number of open connections, which is the user count. So
      ignoring append's result loses no request. */
  lemma AppendNeverRejects(threads: nat, maxRequests: nat, maxFd: nat, reserved: set<Fd>, run: seq<Action>)
    requires |Usable(maxFd, reserved)| <= maxRequests
    requires Exec(Step, Init(threads, maxRequests, maxFd, reserved), run).Some?
    ensures var s := Exec(Step, Init(threads, maxRequests, maxFd, reserved), run).value;
            && s.userCount == |s.open| <= |Usable(maxFd, reserved)|
            && s.stranded == {}
            && (s.main.Appending? ==> |s.pool.queue| < s.userCount && |s.pool.queue| < maxRequests)
            && (s.main.Appending? ==> Step(s, Push).Some? && Step(s, Push).value.main.Releasing?)
  {
    ReachableInv(threads, maxRequests, maxFd, reserved, run);
    var s := Exec(Step, Init(threads, maxRequests, maxFd, reserved), run).value;
    LimitsFixed(Init(threads, maxRequests, maxFd, reserved), run);
    OpenFits(s);
    if s.main.Appending? {
      QueueBelowOpen(s);
    }
  }

  /** In particular when the descriptor limit itself is at most the queue limit, as by default,
      whatever else the process holds. */
  lemma DefaultLimitsSuffice(maxRequests: nat, maxFd: nat, reserved: set<Fd>)
    requires maxFd <= maxRequests
    ensures |Usable(maxFd, reserved)| <= maxRequests
  {
    Below(Usable(maxFd, reserved), maxFd);
  }

  lemma {:induction false} LimitsFixed(s: State, run: seq<Action>)
    requires Exec(Step, s, run).Some?
    ensures var t := Exec(Step, s, run).value;
            t.maxFd == s.maxFd && t.reserved == s.reserved && t.pool.maxRequests == s.pool.maxRequests
    decreases |run|
  {
    if run != [] {
      LimitsFixed(Step(s, run[0]).value, run[1..]);
    }
  }

  // ---- and only then ----

  /** One connection accepted, readable and read. */
  function Arrive(fd: Fd): seq<Action> {
    [Poll([Listen]), Accept(fd), FinishOpen, Poll([Ready(fd, Readable)]), StartEvent, ReadDone(true)]
  }

  /** Connections arrive on the given descriptors and are appended one after the other, with no worker
      moving. */
  function Rounds(fds: seq<Fd>): seq<Action> {
    if fds == [] then [] else Rounds(fds[..|fds| - 1]) + (Arrive(fds[|fds| - 1]) + [Push, Post])
  }

  function Members(fds: seq<Fd>): set<Fd> { set fd | fd in fds }

  /** The given descriptors queued in `start`, nothing else going on. */
  ghost function Filled(start: State, fds: seq<Fd>): State {
    start.(open := Members(fds), userCount := |fds|,
           pool := start.pool.(queue := fds, permits := |fds|, accepted := fds))
  }

  /** The main thread has read from one more descriptor and is about to append it. */
  ghost function AboutToAppend(s: State, fd: Fd): State {
    s.(open := s.open + {fd}, userCount := s.userCount + 1, main := Appending(fd),
       pool := s.pool.(appender := TP.Pushing(fd)))
  }

  predicate Resting(s: State) {
    && s.armed == {} && s.batch == [] && s.main == Loop && s.pool.appender.Idle? && !s.pool.Stopped()
  }

  /** Just accepted, and armed. */
  ghost function Opened(s: State, fd: Fd): State {
    s.(open := s.open + {fd}, userCount := s.userCount + 1, armed := {fd})
  }

  lemma AcceptRuns(s: State, fd: Fd)
    requires Resting(s) && s.userCount < s.maxFd && fd in Usable(s.maxFd, s.reserved) && fd !in s.open
    ensures Exec(Step, s, [Poll([Listen]), Accept(fd), FinishOpen]) == Some(Opened(s, fd))
  {
    hide Exec, TP.Step;
    var s1 := s.(batch := [Listen]);
    var s2 := Opened(s, fd).(main := Opening(fd));
    assert Fds([Listen]) == [] && [Listen][1..] == [];
    assert s.armed - (set x | x in Fds([Listen])) == {} && {} + {fd} == {fd};
    assert Step(s, Poll([Listen])) == Some(s1);
    assert Step(s1, Accept(fd)) == Some(s2);
    assert Step(s2, FinishOpen) == Some(Opened(s, fd));
    ExecChain(Step, [s, s1, s2, Opened(s, fd)], [Poll([Listen]), Accept(fd), FinishOpen]);
  }

  lemma ReadRuns(s: State, fd: Fd)
    requires Resting(s)
    ensures Exec(Step, Opened(s, fd), [Poll([Ready(fd, Readable)]), StartEvent, ReadDone(true)])
            == Some(AboutToAppend(s, fd))
  {
    hide Exec;
    var event := [Ready(fd, Readable)];
    var s0 := Opened(s, fd);
    var s1 := s0.(armed := {}, batch := event);
    var s2 := s0.(armed := {}, main := Reading(fd));
    assert Fds(event) == [fd] && event[1..] == [];
    assert {fd} - (set x | x in Fds(event)) == {};
    assert Step(s0, Poll(event)) == Some(s1);
    assert Step(s1, StartEvent) == Some(s2);
    assert Step(s2, ReadDone(true)) == Some(AboutToAppend(s, fd));
    ExecChain(Step, [s0, s1, s2, AboutToAppend(s, fd)], [Poll(event), StartEvent, ReadDone(true)]);
  }

  lemma ArriveRuns(s: State, fd: Fd)
    requires Resting(s) && s.userCount < s.maxFd && fd in Usable(s.maxFd, s.reserved) && fd !in s.open
    ensures Exec(Step, s, Arrive(fd)) == Some(AboutToAppend(s, fd))
  {
    hide Exec, Step;
    AcceptRuns(s, fd);
    ReadRuns(s, fd);
    ExecConcat(Step, s, [Poll([Listen]), Accept(fd), FinishOpen], [Poll([Ready(fd, Readable)]), StartEvent, ReadDone(true)]);
    assert Arrive(fd) == [Poll([Listen]), Accept(fd), FinishOpen] + [Poll([Ready(fd, Readable)]), StartEvent, ReadDone(true)];
  }

  /** Distinct usable descriptors, no more of them than the queue takes. */
  ghost predicate Arrivals(start: State, fds: seq<Fd>) {
    && Resting(start) && |fds| <= start.maxFd && |fds| <= start.pool.maxRequests
    && start == Init(|start.pool.workers|, start.pool.maxRequests, start.maxFd, start.reserved)
    && Distinct(fds) && forall fd :: fd in fds ==> fd in Usable(start.maxFd, start.reserved)
  }

  lemma RoundRuns(start: State, fds: seq<Fd>, fd: Fd)
    requires Arrivals(start, fds + [fd])
    ensures Exec(Step, Filled(start, fds), Arrive(fd) + [Push, Post]) == Some(Filled(start, fds + [fd]))
  {
    var s, u := Filled(start, fds), Filled(start, fds + [fd]);
    var t := AboutToAppend(s, fd);
    var pushed := u.(main := Releasing, pool := u.pool.(permits := |fds|, appender := TP.Posting));
    assert (fds + [fd])[|fds|] == fd && fd in fds + [fd];
    assert forall i :: 0 <= i < |fds| ==> (fds + [fd])[i] == fds[i];
    assert fd !in fds;
    assert u.open == s.open + {fd};
    assert Step(t, Push) == Some(pushed) && Step(pushed, Post) == Some(u);
    ArriveRuns(s, fd);
    ExecChain(Step, [t, pushed, u], [Push, Post]);
    ExecConcat(Step, s, Arrive(fd), [Push, Post]);
  }

  lemma ArrivalsPrefix(start: State, fds: seq<Fd>)
    requires Arrivals(start, fds) && fds != []
    ensures Arrivals(start, fds[..|fds| - 1]) && fds[..|fds| - 1] + [fds[|fds| - 1]] == fds
  {
    var init := fds[..|fds| - 1];
    assert forall i :: 0 <= i < |init| ==> init[i] == fds[i] && fds[i] in fds;
  }

  lemma {:induction false} RoundsRun(start: State, fds: seq<Fd>)
    requires Arrivals(start, fds)
    ensures Exec(Step, start, Rounds(fds)) == Some(Filled(start, fds))
    decreases |fds|
  {
    hide Step, Arrive;
    if fds == [] {
      assert Members(fds) == {};
    } else {
      var init, last := fds[..|fds| - 1], fds[|fds| - 1];
      ArrivalsPrefix(start, fds);
      hide Arrivals;
      RoundsRun(start, init);
      RoundRuns(start, init, last);
      ExecConcat(Step, start, Rounds(init), Arrive(last) + [Push, Post]);
    }
  }

  lemma RefusedRound(start: State, fds: seq<Fd>, fd: Fd)
    requires Arrivals(start, fds) && |fds| == start.pool.maxRequests < start.maxFd
    requires fd in Usable(start.maxFd, start.reserved) && fd !in fds
    ensures var end := Exec(Step, Filled(start, fds), Arrive(fd) + [Push]);
            end.Some? && end.value.stranded != {}
  {
    var s := Filled(start, fds);
    var t := AboutToAppend(s, fd);
    ArriveRuns(s, fd);
    assert Step(t, Push).Some? && fd in Step(t, Push).value.stranded;
    ExecChain(Step, [t, Step(t, Push).value], [Push]);
    ExecConcat(Step, s, Arrive(fd), [Push]);
  }

  /** From a set with at least `n` members, `n` of them in some order. */
  lemma {:induction false} Choose(all: set<Fd>, n: nat) returns (fds: seq<Fd>)
    requires n <= |all|
    ensures |fds| == n && Distinct(fds) && forall fd :: fd in fds ==> fd in all
    decreases n
  {
    if n == 0 {
      fds := [];
    } else {
      var fd :| fd in all;
      var rest := Choose(all - {fd}, n - 1);
      fds := rest + [fd];
    }
  }

  ghost predicate LosesRequest(start: State, run: seq<Action>) {
    var end := Exec(Step, start, run);
    end.Some? && end.value.stranded != {}
  }

  /** The bound is exact: with one more usable descriptor than the queue takes there is a run in which
      append refuses a request and the connection is left in nobody's hands. */
  lemma RejectionReachable(threads: nat, maxRequests: nat, maxFd: nat, reserved: set<Fd>)
    requires maxRequests < |Usable(maxFd, reserved)|
    ensures exists run :: LosesRequest(Init(threads, maxRequests, maxFd, reserved), run)
  {
    hide Step, Arrive;
    var start := Init(threads, maxRequests, maxFd, reserved);
    Below(Usable(maxFd, reserved), maxFd);
    var all := Choose(Usable(maxFd, reserved), maxRequests + 1);
    var fds, fd := all[..maxRequests], all[maxRequests];
    assert forall i :: 0 <= i < maxRequests ==> fds[i] == all[i] && all[i] in all;
    assert fd in all && fd !in fds;
    RoundsRun(start, fds);
    RefusedRound(start, fds, fd);
    ExecConcat(Step, start, Rounds(fds), Arrive(fd) + [Push]);
    assert LosesRequest(start, Rounds(fds) + (Arrive(fd) + [Push]));
  }

  /** No request is ever lost if and only if the queue takes a task for every usable descriptor. */
  lemma NoRequestLostIff(threads: nat, maxRequests: nat, maxFd: nat, reserved: set<Fd>)
    ensures (forall run :: !LosesRequest(Init(threads, maxRequests, maxFd, reserved), run))
            <==> |Usable(maxFd, reserved)| <= maxRequests
  {
    hide Step;
    if |Usable(maxFd, reserved)| <= maxRequests {
      forall run ensures !LosesRequest(Init(threads, maxRequests, maxFd, reserved), run) {
        if Exec(Step, Init(threads, maxRequests, maxFd, reserved), run).Some? {
          AppendNeverRejects(threads, maxRequests, maxFd, reserved, run);
        }
      }
    } else {
      RejectionReachable(threads, maxRequests, maxFd, reserved);
    }
  }
}
