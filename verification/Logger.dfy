/** The asynchronous logger of src/utils/logger.cpp: callers queue lines under a mutex and notify; one
    worker thread takes the whole queue at once and emits it outside the lock. */
module Logger {
  import opened Runs
  import opened Tally

  /** The worker: asleep in the wait, about to test the wait condition, emitting what it took, or
      out of the loop with the number of lines logged by then. */
  datatype Worker = Sleeping | Awake | Emitting(pending: seq<string>) | Exited(seen: nat)
  datatype Caller = Idle | Notifying
  datatype Destructor = Alive | Notifying | Joining

  /** `logged` is the lines in the order the lock admitted them. */
  datatype State = State(
    queue: seq<string>, running: bool, worker: Worker, callers: seq<Caller>, destructor: Destructor,
    logged: seq<string>, emitted: seq<string>)

  datatype Action =
    | Log(t: nat, line: string) | NotifyOne(t: nat) | Stop | NotifyAll
    | Spurious | Check | Emit | Done

  function Init(callers: nat): State {
    State([], true, Awake, seq(callers, _ => Caller.Idle), Alive, [], [])
  }

  function Wake(w: Worker): Worker { if w.Sleeping? then Awake else w }

  function Step(s: State, a: Action): Option<State> {
    match a
    case Log(t, line) =>
      if t < |s.callers| && s.callers[t].Idle?
      then Some(s.(queue := s.queue + [line], logged := s.logged + [line],
                   callers := s.callers[t := Caller.Notifying])) else None
    case NotifyOne(t) =>
      if t < |s.callers| && s.callers[t].Notifying?
      then Some(s.(worker := Wake(s.worker), callers := s.callers[t := Caller.Idle])) else None
    case Stop =>
      if s.destructor.Alive? then Some(s.(running := false, destructor := Destructor.Notifying)) else None
    case NotifyAll =>
      if s.destructor.Notifying? then Some(s.(worker := Wake(s.worker), destructor := Joining)) else None
    case Spurious =>
      if s.worker.Sleeping? then Some(s.(worker := Awake)) else None
    case Check =>
      if !s.worker.Awake? then None
      else if s.queue != [] then Some(s.(worker := Emitting(s.queue), queue := []))
      else Some(s.(worker := if s.running then Sleeping else Exited(|s.logged|)))
    case Emit =>
      if s.worker.Emitting? && s.worker.pending != []
      then Some(s.(worker := Emitting(s.worker.pending[1..]), emitted := s.emitted + [s.worker.pending[0]])) else None
    case Done =>
      if s.worker.Emitting? && s.worker.pending == [] then Some(s.(worker := Awake)) else None
  }

  function Pending(s: State): seq<string> { if s.worker.Emitting? then s.worker.pending else [] }
  function IsNotifying(c: Caller): int { if c.Notifying? then 1 else 0 }

  ghost predicate Inv(s: State) {
    && s.emitted + Pending(s) + s.queue == s.logged
    && (s.worker.Exited? ==> s.worker.seen <= |s.logged| && s.emitted == s.logged[..s.worker.seen])
    && (s.worker.Exited? ==> !s.running)
    && (s.running <==> s.destructor.Alive?)
    && (s.worker.Sleeping? && s.queue != [] ==> Sum(s.callers, IsNotifying) > 0)
    && (s.worker.Sleeping? && !s.running ==> s.destructor.Notifying?)
  }

  lemma InvStep(s: State, a: Action)
    requires Inv(s) && Step(s, a).Some?
    ensures Inv(Step(s, a).value)
  {
    match a
    case Log(t, line) => LogKeeps(s, t, line);
    case NotifyOne(t) => SumUpdate(s.callers, t, Caller.Idle, IsNotifying);
    case Check => CheckKeeps(s);
    case Emit => EmitKeeps(s);
    case _ =>
  }

  lemma LogKeeps(s: State, t: nat, line: string)
    requires Inv(s) && Step(s, Log(t, line)).Some?
    ensures Inv(Step(s, Log(t, line)).value)
  {
    SumUpdate(s.callers, t, Caller.Notifying, IsNotifying);
    SumBounds(s.callers[t := Caller.Notifying], t, IsNotifying);
    Snoc(s.emitted + Pending(s), s.queue, line);
  }

  lemma CheckKeeps(s: State)
    requires Inv(s) && Step(s, Check).Some?
    ensures Inv(Step(s, Check).value)
  {
    assert s.emitted + Pending(s) == s.emitted;
    if s.queue == [] {
      assert s.emitted == s.logged == s.logged[..|s.logged|];
    } else {
      assert s.emitted + s.queue + [] == s.logged;
    }
  }

  lemma EmitKeeps(s: State)
    requires Inv(s) && Step(s, Emit).Some?
    ensures Inv(Step(s, Emit).value)
  {
    var pending := s.worker.pending;
    assert pending == [pending[0]] + pending[1..];
    assert s.emitted + [pending[0]] + pending[1..] == s.emitted + pending;
  }

  lemma Snoc(before: seq<string>, queue: seq<string>, line: string)
    ensures before + (queue + [line]) == before + queue + [line]
  {}

  /** History in every interleaving: what was emitted, what the worker holds and what is queued, in
      that order, are exactly the lines in lock order - nothing lost, repeated or reordered. When the
      worker leaves, everything logged by then has been emitted. And no wakeup is lost: a worker
      asleep while lines are queued or after the stop has a notify still coming. */
  lemma LogHistory(callers: nat, run: seq<Action>)
    requires Exec(Step, Init(callers), run).Some?
    ensures var s := Exec(Step, Init(callers), run).value;
            && s.emitted + Pending(s) + s.queue == s.logged
            && (s.worker.Exited? ==> s.worker.seen <= |s.logged| && s.emitted == s.logged[..s.worker.seen] && !s.running)
            && (s.worker.Sleeping? && s.queue != [] ==> Sum(s.callers, IsNotifying) > 0)
            && (s.worker.Sleeping? && !s.running ==> s.destructor.Notifying?)
  {
    forall s: State, a: Action | Inv(s) && Step(s, a).Some? ensures Inv(Step(s, a).value) {
      InvStep(s, a);
    }
    InvariantHolds(Step, Inv, Init(callers), run);
  }

  // ---- the shutdown drain ----

  predicate ByWorker(a: Action) { a.Check? || a.Emit? || a.Done? }

  /** What the worker still has to do once no more lines arrive. */
  function Work(s: State): int {
    match s.worker
    case Sleeping => 3 * |s.queue| + 2
    case Awake => 3 * |s.queue| + 1
    case Emitting(p) => 3 * |s.queue| + |p| + 2
    case Exited(_) => 0
  }

  /** What is left to be done by the worker and by callers about to notify. */
  ghost function Left(s: State): int { Work(s) + Sum(s.callers, IsNotifying) }

  /** Once the destructor is joining, the worker can always move until it has left, and every move
      brings it closer; so it leaves, and by LogHistory with everything emitted. */
  lemma DrainProgress(s: State, a: Action)
    requires Inv(s) && s.destructor.Joining?
    ensures !s.worker.Exited? ==> exists b :: ByWorker(b) && Step(s, b).Some?
    ensures ByWorker(a) && Step(s, a).Some? ==> 0 <= Work(Step(s, a).value) < Work(s)
  {
    if !s.worker.Exited? {
      var b := if s.worker.Awake? then Check else if Pending(s) != [] then Emit else Done;
      assert ByWorker(b) && Step(s, b).Some?;
    }
  }

  /** Every step of the drain uses up something; only a further log call adds to it. */
  lemma DrainStep(s: State, a: Action)
    requires Inv(s) && s.destructor.Joining? && Step(s, a).Some?
    ensures var u := Step(s, a).value;
            && Inv(u) && u.destructor.Joining? && s.logged <= u.logged
            && Left(u) + 1 <= Left(s) + (if a.Log? then 5 else 0)
            && (!a.Log? ==> u.logged == s.logged)
            && (u.worker.Exited? ==> if s.worker.Exited? then u.worker == s.worker else u.worker.seen == |u.logged|)
  {
    InvStep(s, a);
    if a.Log? {
      SumUpdate(s.callers, a.t, Caller.Notifying, IsNotifying);
    } else if a.NotifyOne? {
      SumUpdate(s.callers, a.t, Caller.Idle, IsNotifying);
    } else {
      DrainProgress(s, a);
    }
  }

  function Logs(run: seq<Action>): nat {
    if run == [] then 0 else (if run[0].Log? then 1 else 0) + Logs(run[1..])
  }

  /** The drain, with callers that go on notifying and logging meanwhile: its length is bounded by the
      work left and the number of further log calls, and a run in which the worker can do nothing
      more has it out of the loop, with every line logged before the drain emitted - exactly those
      lines if nobody logs any more. */
  lemma {:induction false} DrainCompletes(s: State, run: seq<Action>)
    requires Inv(s) && s.destructor.Joining? && Exec(Step, s, run).Some?
    requires s.worker.Exited? ==> s.worker.seen == |s.logged|
    ensures var u := Exec(Step, s, run).value;
            && |run| <= Left(s) + 5 * Logs(run)
            && ((forall a :: ByWorker(a) ==> Step(u, a).None?) ==>
                  u.worker.Exited? && s.logged <= u.emitted && (Logs(run) == 0 ==> u.emitted == s.logged))
    decreases |run|
  {
    DrainRun(s, run);
    var u := Exec(Step, s, run).value;
    SumRange(u.callers, IsNotifying);
    DrainProgress(u, Check);
    if u.worker.Exited? {
      assert s.logged == u.logged[..|s.logged|];
    }
  }

  lemma {:induction false} DrainRun(s: State, run: seq<Action>)
    requires Inv(s) && s.destructor.Joining? && Exec(Step, s, run).Some?
    ensures var u := Exec(Step, s, run).value;
            && Inv(u) && u.destructor.Joining? && s.logged <= u.logged
            && |run| + Left(u) <= Left(s) + 5 * Logs(run)
            && (Logs(run) == 0 ==> u.logged == s.logged)
            && (u.worker.Exited? ==>
                  if s.worker.Exited? then u.worker == s.worker else |s.logged| <= u.worker.seen)
    decreases |run|
  {
    if run != [] {
      DrainStep(s, run[0]);
      DrainRun(Step(s, run[0]).value, run[1..]);
    }
  }

  // ---- the object ----

  lemma {:induction false} EmitRuns(s: State)
    requires s.worker.Emitting?
    ensures Exec(Step, s, Repeat(Emit, |s.worker.pending|))
            == Some(s.(worker := Emitting([]), emitted := s.emitted + s.worker.pending))
    decreases |s.worker.pending|
  {
    var pending := s.worker.pending;
    if pending == [] {
      assert s.emitted + pending == s.emitted;
    } else {
      var next := s.(worker := Emitting(pending[1..]), emitted := s.emitted + [pending[0]]);
      assert Step(s, Emit) == Some(next);
      assert next.emitted + pending[1..] == s.emitted + pending;
      assert Repeat(Emit, |pending|)[1..] == Repeat(Emit, |pending| - 1);
      EmitRuns(next);
    }
  }

  /** One round of worker_loop() that finds its wait condition true. */
  function RoundSteps(n: nat): seq<Action> { [Check] + if n == 0 then [] else Repeat(Emit, n) + [Done] }

  lemma RoundRuns(s: State)
    requires s.worker.Awake? && (s.queue != [] || !s.running)
    ensures Exec(Step, s, RoundSteps(|s.queue|)) ==
            Some(s.(queue := [], emitted := s.emitted + s.queue,
                    worker := if s.queue == [] then Exited(|s.logged|) else Awake))
  {
    var n := |s.queue|;
    var s1 := Step(s, Check).value;
    if n == 0 {
      assert s.emitted + s.queue == s.emitted;
      ExecChain(Step, [s, s1], [Check]);
    } else {
      EmitRuns(s1);
      var s2 := s1.(worker := Emitting([]), emitted := s.emitted + s.queue);
      ExecChain(Step, [s2, s2.(worker := Awake)], [Done]);
      ExecConcat(Step, s1, Repeat(Emit, n), [Done]);
      assert RoundSteps(n)[1..] == Repeat(Emit, n) + [Done];
    }
  }

  /** The logger object; its calls are proved to be runs of the machine above. */
  class Log {
    var logQueue: seq<string>
    var running: bool
    ghost var rest: State

    ghost function Abs(): State
      reads this
    {
      rest.(queue := logQueue, running := running)
    }

    constructor (ghost callers: nat)
      ensures Abs() == Init(callers)
    {
      logQueue, running, rest := [], true, Init(callers);
    }

    /** log(): push under the lock, then notify. */
    method Append(line: string, ghost t: nat)
      requires t < |Abs().callers| && Abs().callers[t].Idle?
      modifies this`logQueue, this`rest
      ensures logQueue == old(logQueue) + [line]
      ensures Exec(Step, old(Abs()), [Action.Log(t, line), NotifyOne(t)]) == Some(Abs())
    {
      ghost var s := Abs();
      logQueue := logQueue + [line];
      rest := rest.(logged := rest.logged + [line], worker := Wake(rest.worker));
      ghost var mid := Step(s, Action.Log(t, line)).value;
      assert mid.callers[t := Caller.Idle] == s.callers;
      assert Step(mid, NotifyOne(t)) == Some(Abs());
      ExecChain(Step, [s, mid, Abs()], [Action.Log(t, line), NotifyOne(t)]);
    }

    /** One round of worker_loop() whose wait condition holds: take the queue, then emit it line by
        line, or leave. */
    method Round() returns (leave: bool, output: string)
      requires (!running || logQueue != []) && Abs().worker.Awake?
      modifies this
      ensures Exec(Step, old(Abs()), RoundSteps(|old(logQueue)|)) == Some(Abs())
      ensures leave <==> !old(running) && old(logQueue) == []
      ensures output == Lines(old(logQueue)) && Abs().emitted == old(Abs().emitted) + old(logQueue)
    {
      hide Step;
      RoundRuns(Abs());
      output := "";
      if !running && logQueue == [] {
        rest := rest.(worker := Exited(|rest.logged|), emitted := rest.emitted + logQueue);
        return true, output;
      }
      var pending := logQueue;
      logQueue := [];
      for i := 0 to |pending|
        invariant logQueue == [] && running == old(running) && rest == old(rest)
        invariant output == Lines(pending[..i])
      {
        LinesSnoc(pending[..i], pending[i]);
        assert pending[..i + 1] == pending[..i] + [pending[i]];
        output := output + pending[i] + "\n";
      }
      assert pending[..|pending|] == pending;
      rest := rest.(emitted := rest.emitted + pending);
      return false, output;
    }
  }

  function Lines(messages: seq<string>): string {
    if messages == [] then "" else messages[0] + "\n" + Lines(messages[1..])
  }

  lemma {:induction false} LinesSnoc(messages: seq<string>, line: string)
    ensures Lines(messages + [line]) == Lines(messages) + line + "\n"
    decreases |messages|
  {
    if messages == [] {
      assert messages + [line] == [line];
    } else {
      assert (messages + [line])[1..] == messages[1..] + [line];
      LinesSnoc(messages[1..], line);
    }
  }
}
