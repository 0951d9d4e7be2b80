/** The whole server: the event loop and its workers moving the contents of the connections.

    Every thread works on its own copy of a connection while it has it: a worker copies what it pops,
    the main thread what an event is about, and each writes its copy back when it is done. Nothing but
    the discipline of Proactor keeps two threads from losing each other's work; the theorem is that
    none is ever lost. */
module Server {
  import opened Runs
  import opened Tally
  import opened Text
  import opened HttpParser
  import opened HttpResponse
  import opened HttpConn
  import opened HttpSession
  import HttpLockstep
  import ResponseWriter
  import P = Proactor
  import TP = ThreadPool

  // ---- one connection ----

  /** Waiting for input; with a read to be processed; with a response to send; or about to be closed. */
  datatype Stage = Waiting | Loaded | Replying | Ending

  /** The contents of a connection. `groups` are the reads of the requests decided so far, `results` what
      their handlers did and `due` the responses to them; `current` are the reads since then, and `log`
      is every read the connection ever made. */
  datatype Conn = Conn(
    stage: Stage, received: string, parser: Parser, unsent: string, left: ResponseWriter.Parts, wire: string,
    current: seq<string>, groups: seq<seq<string>>, results: seq<Handled>, due: seq<Due>, log: seq<string>)

  const NEW: Conn := Conn(Waiting, "", INITIAL, "", ResponseWriter.Parts(0, 0), "", [], [], [], [], [])

  /** read() */
  function Got(c: Conn, bytes: string): Conn {
    c.(stage := Loaded, received := c.received + bytes, current := c.current + [bytes], log := c.log + [bytes])
  }

  /** The response to a request that arrived in `group`, when its handler did `result`. */
  ghost predicate DueTo(d: Due, group: seq<string>, result: Handled) {
    var s := Flatten(group);
    var outcome := HttpParser.ProcessRead(HTTP, s, INITIAL);
    && !outcome.NeedMore? && !outcome.Unspecified?
    && Answer(outcome, _ => result) == Returned(d.code, d.json)
    && d.linger == HeaderPhase(HTTP, s, INITIAL).parser.fields.linger
  }

  /** process(): parse on; if the request is decided, print the response to what the handler did. Only
      specified outcomes, results the handler can have and bodies an `int` can count are followed. */
  ghost function Processed(c: Conn, result: Handled): Option<Conn>
    requires Ready(c.received, c.parser)
  {
    var outcome := HttpParser.ProcessRead(HTTP, c.received, c.parser);
    var phase := HeaderPhase(HTTP, c.received, c.parser);
    if outcome.NeedMore? then Some(c.(stage := Waiting, parser := phase.parser))
    else if outcome.Unspecified? then None
    else if outcome.Call? && result.Returned? && !CanReturn(outcome.handler, result.code) then None
    else
      var a := Answer(outcome, _ => result);
      var d := Due(a.code, a.json, phase.parser.fields.linger);
      if !Sendable(d) then None
      else Some(c.(stage := Replying, unsent := Bytes(d), left := Split(d), due := c.due + [d],
                   groups := c.groups + [c.current], results := c.results + [result]))
  }

  datatype Written = Written(conn: Conn, result: P.WriteResult)

  /** write() */
  ghost function Wrote(c: Conn, counts: seq<nat>, full: bool): Written
    requires |c.unsent| == c.left.All() && c.due != []
  {
    var w := ResponseWriter.Written(counts, c.left);
    var d := c.(wire := c.wire + c.unsent[..w.sent], unsent := c.unsent[w.sent..], left := c.left.Without(w.sent));
    if !w.finished then Written(d.(stage := if full then Replying else Ending), if full then P.Pause else P.Fail)
    else if ToInt32(c.left.All()) == 0 || c.due[|c.due| - 1].linger
    then Written(d.(stage := Waiting, received := "", parser := INITIAL, current := []), P.Done(true))
    else Written(d.(stage := Ending), P.Done(false))
  }

  /** Everything sent and still to be sent is the responses to the requests so far, in order. */
  ghost predicate Answered(c: Conn) {
    && |c.groups| == |c.results| == |c.due| && AllSendable(c.due)
    && (forall j :: 0 <= j < |c.due| ==> HttpLockstep.Whole(HTTP, c.groups[j]) && DueTo(c.due[j], c.groups[j], c.results[j]))
    && c.wire + c.unsent == Transcript(c.due)
  }

  ghost predicate Sending(c: Conn) {
    && |c.unsent| == c.left.All() && ResponseWriter.Countable(c.left)
    && (c.stage.Replying? ==> c.unsent != "" && c.due != [])
    && (c.stage.Waiting? || c.stage.Loaded? ==> c.unsent == "")
  }

  /** The parser has seen all reads of the current request, or all but the last one. */
  ghost predicate Parsing(c: Conn) {
    && (c.stage.Waiting? ==>
          c.received == Flatten(c.current) && HeaderPhase(HTTP, c.received, INITIAL) == Progress(c.parser, More))
    && (c.stage.Loaded? ==>
          && c.current != [] && c.received == Flatten(c.current)
          && HeaderPhase(HTTP, HttpLockstep.Before(c.current), INITIAL) == Progress(c.parser, More))
  }

  /** The reads of a connection are those of its requests, one after the other, and the current ones. */
  ghost predicate Logged(c: Conn) {
    && c.log == HttpLockstep.Concat(c.groups) + (if c.stage.Waiting? || c.stage.Loaded? then c.current else [])
  }

  ghost predicate ConnOk(c: Conn) { Answered(c) && Sending(c) && Parsing(c) && Logged(c) }

  lemma NewOk()
    ensures ConnOk(NEW)
  {
    hide Answered, Sending, Parsing;
    NewAnswered();
    NewSending();
    NewParsing();
    assert HttpLockstep.Concat([]) + [] == [];
  }

  lemma NewAnswered()
    ensures Answered(NEW)
  {
    hide DueTo, HttpLockstep.Whole, Sendable;
    assert Transcript([]) == "";
  }

  lemma NewSending()
    ensures Sending(NEW)
  {}

  lemma NewParsing()
    ensures Parsing(NEW)
  {
    hide HeaderPhase;
    NothingReceived(HTTP);
  }

  lemma GotOk(c: Conn, bytes: string)
    requires ConnOk(c) && c.stage.Waiting?
    ensures ConnOk(Got(c, bytes))
  {
    hide HeaderPhase, Answered, Flatten, HttpLockstep.Concat;
    var chunks := c.current + [bytes];
    FlattenSnoc(chunks, |c.current|);
    assert chunks[..|c.current|] == c.current && chunks[..|c.current| + 1] == chunks;
    AnsweredFrame(c, Got(c, bytes));
    assert HttpLockstep.Concat(c.groups) + c.current + [bytes] == HttpLockstep.Concat(c.groups) + chunks;
  }

  lemma AnsweredFrame(c: Conn, d: Conn)
    requires Answered(c) && d.groups == c.groups && d.results == c.results && d.due == c.due
    requires d.wire + d.unsent == c.wire + c.unsent
    ensures Answered(d)
  {}

  /** The last read of a request is ready to be parsed, and a result it gives is that of all its reads. */
  lemma LastRead(chunks: seq<string>, p: Parser)
    requires chunks != [] && HeaderPhase(HTTP, HttpLockstep.Before(chunks), INITIAL) == Progress(p, More)
    ensures var s := Flatten(chunks);
            && Ready(s, p) && HeaderPhase(HTTP, s, p) == HeaderPhase(HTTP, s, INITIAL)
            && (!HeaderPhase(HTTP, s, p).event.More? ==> HttpLockstep.Whole(HTTP, chunks))
  {
    hide HeaderPhase;
    var n := |chunks| - 1;
    NextChunk(HTTP, chunks, n, p);
    assert chunks[..n + 1] == chunks;
    if !HeaderPhase(HTTP, Flatten(chunks), p).event.More? {
      forall i | 0 <= i < |chunks| ensures HeaderPhase(HTTP, Flatten(chunks[..i]), INITIAL).event.More? {
        FlattenPrefix(chunks[..n], i);
        assert chunks[..n][..i] == chunks[..i];
        HeaderPhaseResumes(HTTP, Flatten(chunks[..i]), HttpLockstep.Before(chunks), INITIAL);
      }
      HttpLockstep.AllUndecided(HTTP, chunks, 0);
    }
  }

  lemma ProcessedOk(c: Conn, result: Handled)
    requires ConnOk(c) && c.stage.Loaded?
    ensures Ready(c.received, c.parser)
    ensures Processed(c, result).Some? ==>
              ConnOk(Processed(c, result).value) && Processed(c, result).value.stage in {Waiting, Replying}
  {
    hide HeaderPhase, HttpParser.ProcessRead, Answered, Flatten, Answer, Sendable, Bytes, Split, CanReturn;
    LastRead(c.current, c.parser);
    BodyPhaseNeverPauses(HTTP, c.received, c.parser);
    if Processed(c, result).Some? {
      var next := Processed(c, result).value;
      if next.stage.Waiting? {
        AnsweredFrame(c, next);
      } else {
        SameOutcome(HTTP, c.received, c.parser);
        var d := next.due[|c.due|];
        DueParts(d);
        AnsweredNext(c, next, d, result);
        ConcatSnoc(c.groups, c.current);
      }
    }
  }

  lemma {:induction false} ConcatSnoc(groups: seq<seq<string>>, group: seq<string>)
    ensures HttpLockstep.Concat(groups + [group]) == HttpLockstep.Concat(groups) + group + []
    decreases |groups|
  {
    if groups == [] {
      assert groups + [group] == [group] && [group][1..] == [];
    } else {
      assert (groups + [group])[1..] == groups[1..] + [group];
      ConcatSnoc(groups[1..], group);
    }
  }

  /** A resumed parser decides as a new one would. */
  lemma SameOutcome(g: Grammar, s: string, p: Parser)
    requires Ready(s, p) && HeaderPhase(g, s, p) == HeaderPhase(g, s, INITIAL)
    ensures HttpParser.ProcessRead(g, s, p) == HttpParser.ProcessRead(g, s, INITIAL)
  {
    hide HeaderPhase;
  }

  /** A response goes out in two countable parts. */
  lemma DueParts(d: Due)
    requires Sendable(d)
    ensures Bytes(d) != "" && |Bytes(d)| == Split(d).All() && ResponseWriter.Countable(Split(d))
  {
    ResponseCountable(Returned(d.code, d.json), d.linger);
  }

  lemma AnsweredNext(c: Conn, next: Conn, d: Due, result: Handled)
    requires Answered(c) && c.unsent == "" && Sendable(d)
    requires next.groups == c.groups + [c.current] && next.results == c.results + [result] && next.due == c.due + [d]
    requires next.wire == c.wire && next.unsent == Bytes(d)
    requires HttpLockstep.Whole(HTTP, c.current) && DueTo(d, c.current, result)
    ensures Answered(next)
  {
    hide HttpLockstep.Whole, DueTo, Sendable, Bytes, Transcript;
    TranscriptSnoc(c.due, d);
    assert c.wire + c.unsent == c.wire;
  }

  lemma WroteOk(c: Conn, counts: seq<nat>, full: bool)
    requires ConnOk(c) && c.stage.Replying?
    ensures var w := Wrote(c, counts, full);
            && ConnOk(w.conn)
            && (w.result == P.Done(true) ==> w.conn.stage.Waiting?)
            && (w.result == P.Pause ==> w.conn.stage.Replying?)
            && (w.result.Done? ==> w.conn.unsent == "" && (w.result.keep <==> c.due[|c.due| - 1].linger))
            && (w.result == P.Fail ==> !full) && w.conn.due == c.due
  {
    hide HeaderPhase, Answered, ToInt32, ResponseWriter.Written, ResponseWriter.Parts.Without, ResponseWriter.Countable;
    var w := Wrote(c, counts, full).conn;
    var k := ResponseWriter.Written(counts, c.left).sent;
    WriteEffect(counts, c.left);
    NotZero(c.left);
    Rejoin(c.wire, c.unsent, k);
    AnsweredFrame(c, w);
    NothingReceived(HTTP);
    assert HttpLockstep.Concat(c.groups) + [] == HttpLockstep.Concat(c.groups);
  }

  lemma NotZero(left: ResponseWriter.Parts)
    requires ResponseWriter.Countable(left) && 0 < left.All()
    ensures ToInt32(left.All()) != 0
  {}

  lemma Rejoin(wire: string, unsent: string, k: nat)
    requires k <= |unsent|
    ensures wire + unsent[..k] + unsent[k..] == wire + unsent
  {}

  lemma WriteEffect(counts: seq<nat>, left: ResponseWriter.Parts)
    requires ResponseWriter.Countable(left) && 0 < left.All()
    ensures var w := ResponseWriter.Written(counts, left);
            && left.Without(w.sent).All() == left.All() - w.sent && ResponseWriter.Countable(left.Without(w.sent))
            && (w.finished <==> w.sent == left.All())
  {
    ResponseWriter.PushedExact(counts, left);
  }

  // ---- the system ----

  /** `conns` are the connection objects; `held` the copy each worker works on, `own` the main thread's. */
  datatype State = State(sys: P.State, conns: map<P.Fd, Conn>, held: seq<Conn>, own: Conn)

  /** A step of the system, with what its environment does: the bytes read, what the handler did, and how
      the socket takes a response. */
  datatype Action = Action(move: P.Action, bytes: string, result: Handled, counts: seq<nat>, full: bool)

  function Init(threads: nat, maxRequests: nat, maxFd: nat, reserved: set<P.Fd>): State {
    State(P.Init(threads, maxRequests, maxFd, reserved), map[], seq(threads, _ => NEW), NEW)
  }

  /** What epoll may report of a connection: input while it waits, output while it replies. */
  predicate Reports(kind: P.Kind, stage: Stage) {
    match kind
    case Hangup => true
    case Readable => stage.Waiting?
    case Writable => stage.Replying?
  }

  ghost predicate Reportable(conns: map<P.Fd, Conn>, events: seq<P.Event>) {
    forall i :: 0 <= i < |events| && events[i].Ready? ==>
      events[i].fd in conns && Reports(events[i].kind, conns[events[i].fd].stage)
  }

  /** The effect of a step on the contents, with `sys` the control state behind it. */
  ghost function Effect(s: State, a: Action, sys: P.State): Option<State>
    requires P.Step(s.sys, a.move) == Some(sys)
  {
    var t := s.(sys := sys);
    match a.move
    case Poll(events) => if Reportable(s.conns, events) then Some(t) else None
    case FinishOpen => Some(t.(conns := s.conns[s.sys.main.fd := NEW]))
    case StartEvent =>
      if s.sys.batch[0].fd in s.conns then Some(t.(own := s.conns[s.sys.batch[0].fd])) else None
    case ReadDone(ok) =>
      if !ok then Some(t)
      else if |s.own.received| + |a.bytes| < READ_BUFFER_SIZE
      then Some(t.(conns := s.conns[s.sys.main.fd := Got(s.own, a.bytes)])) else None
    case WriteDone(r) =>
      if !(|s.own.unsent| == s.own.left.All() && s.own.due != []) then None
      else
        var w := Wrote(s.own, a.counts, a.full);
        if w.result == r then Some(t.(conns := s.conns[s.sys.main.fd := w.conn])) else None
    case WorkerMove(move) =>
      if move.Pop? then Popped(t, s, move.w)
      else if move.Finish? then Finished(t, s, move.w, a.result)
      else Some(t)
    case _ => Some(t)
  }

  /** A worker copies the connection it pops. */
  ghost function Popped(t: State, s: State, w: nat): Option<State>
    requires w < |t.sys.pool.workers|
  {
    if !t.sys.pool.workers[w].Running? then Some(t)
    else if w < |s.held| && t.sys.pool.workers[w].task in s.conns
    then Some(t.(held := s.held[w := s.conns[t.sys.pool.workers[w].task]])) else None
  }

  /** And writes its copy back when it has processed it. */
  ghost function Finished(t: State, s: State, w: nat, result: Handled): Option<State>
    requires w < |s.sys.pool.workers| && s.sys.pool.workers[w].Running?
  {
    if !(w < |s.held| && Ready(s.held[w].received, s.held[w].parser)) then None
    else match Processed(s.held[w], result)
      case None => None
      case Some(c) => Some(t.(conns := s.conns[s.sys.pool.workers[w].task := c]))
  }

  ghost function Step(s: State, a: Action): Option<State> {
    match P.Step(s.sys, a.move)
    case None => None
    case Some(sys) => Effect(s, a, sys)
  }

  // ---- no thread's work is lost ----

  /** The last response is all out, and was to a request that asked for the connection to be closed. */
  ghost predicate AskedToClose(c: Conn) { c.unsent == "" && c.due != [] && !c.due[|c.due| - 1].linger }

  /** What holds of a connection that is open and initialised, wherever it is. */
  ghost predicate Consistent(s: State, fd: P.Fd) {
    && fd in s.conns && ConnOk(s.conns[fd])
    && var stage := s.conns[fd].stage;
    && (fd in s.sys.armed && !P.MainOn(s.sys.main, fd) ==> stage.Waiting? || stage.Replying?)
    && (forall i :: 0 <= i < |s.sys.batch| && s.sys.batch[i].Ready? && s.sys.batch[i].fd == fd ==>
          Reports(s.sys.batch[i].kind, stage))
    && (fd in s.sys.pool.queue ==> stage.Loaded?)
    && (s.sys.main == P.Reading(fd) ==> s.own == s.conns[fd] && stage.Waiting?)
    && (s.sys.main == P.Writing(fd) ==> s.own == s.conns[fd] && stage.Replying?)
    && (s.sys.main == P.Appending(fd) ==> stage.Loaded?)
    && (s.sys.main == P.Finishing(fd, true) ==> stage.Waiting?)
    && (s.sys.main == P.Finishing(fd, false) ==> AskedToClose(s.conns[fd]))
    && (forall w :: 0 <= w < |s.held| && w < |s.sys.pool.workers| && s.sys.pool.workers[w] == TP.Running(fd) ==>
          s.held[w] == s.conns[fd] && stage.Loaded?)
  }

  ghost predicate FdOk(s: State, fd: P.Fd) {
    fd in s.sys.open && s.sys.main != P.Opening(fd) ==> Consistent(s, fd)
  }

  ghost predicate Inv(s: State) {
    P.Inv(s.sys) && |s.held| == |s.sys.pool.workers| && forall fd :: FdOk(s, fd)
  }

  /** A step leaves the whereabouts of a connection alone. */
  ghost predicate Elsewhere(s: State, t: State, fd: P.Fd) {
    && (fd in t.sys.open ==> fd in s.sys.open)
    && (fd in s.conns ==> fd in t.conns && t.conns[fd] == s.conns[fd])
    && (fd in t.sys.armed ==> fd in s.sys.armed)
    && (forall e :: e in t.sys.batch && e.Ready? && e.fd == fd ==> e in s.sys.batch)
    && (fd in t.sys.pool.queue ==> fd in s.sys.pool.queue)
    && ((t.sys.main == s.sys.main && t.own == s.own) || (!P.MainOn(s.sys.main, fd) && !P.MainOn(t.sys.main, fd)))
    && (forall w :: 0 <= w < |t.held| && w < |t.sys.pool.workers| && t.sys.pool.workers[w] == TP.Running(fd) ==>
          w < |s.held| && w < |s.sys.pool.workers| && s.sys.pool.workers[w] == TP.Running(fd) && t.held[w] == s.held[w])
  }

  lemma Frame(s: State, t: State, fd: P.Fd)
    requires FdOk(s, fd) && Elsewhere(s, t, fd)
    ensures FdOk(t, fd)
  {
    hide ConnOk;
    if fd in t.sys.open && t.sys.main != P.Opening(fd) {
      forall i | 0 <= i < |t.sys.batch| && t.sys.batch[i].Ready? && t.sys.batch[i].fd == fd
        ensures Reports(t.sys.batch[i].kind, t.conns[fd].stage)
      {
        assert t.sys.batch[i] in s.sys.batch;
      }
    }
  }

  /** Where a descriptor can be: in one place, and open if it is anywhere. */
  lemma Whereabouts(s: P.State, fd: P.Fd)
    requires P.Inv(s)
    ensures P.MainOn(s.main, fd) ==> fd in s.open && fd !in s.pool.queue && fd !in P.Fds(s.batch)
    ensures P.MainOn(s.main, fd) || fd in s.armed || fd in s.pool.queue || fd in P.Fds(s.batch) ==>
              forall w :: 0 <= w < |s.pool.workers| ==> s.pool.workers[w] != TP.Running(fd)
    ensures fd in s.armed ==> fd in s.open && fd !in s.pool.queue && fd !in P.Fds(s.batch)
    ensures fd in s.pool.queue ==> fd in s.open && fd !in s.armed && !P.MainOn(s.main, fd) && fd !in P.Fds(s.batch)
    ensures fd in P.Fds(s.batch) ==> fd in s.open && fd !in s.armed && !P.MainOn(s.main, fd) && fd !in s.pool.queue
    ensures forall w :: 0 <= w < |s.pool.workers| && s.pool.workers[w] == TP.Running(fd) ==>
              fd in s.open && fd !in s.armed && !P.MainOn(s.main, fd) && fd !in s.pool.queue && fd !in P.Fds(s.batch)
  {
    hide TP.Inv;
    P.HandsFollowPlaces(s, fd);
    assert P.Places(s, fd) == Bit(fd in s.open);
    forall w: nat | w < |s.pool.workers| && s.pool.workers[w] == TP.Running(fd) ensures P.InWorkers(s.pool, fd) > 0 {
      assert P.In(s, fd, P.WithWorker);
    }
  }

  lemma {:induction false} EventsAndFds(events: seq<P.Event>, e: P.Event)
    requires e in events && e.Ready?
    ensures e.fd in P.Fds(events)
    decreases |events|
  {
    if e != events[0] {
      EventsAndFds(events[1..], e);
    }
  }

  lemma NoEvents(events: seq<P.Event>, fd: P.Fd)
    ensures fd !in P.Fds(events) ==> forall e :: e in events && e.Ready? ==> e.fd != fd
  {
    forall e | e in events && e.Ready? ensures e.fd in P.Fds(events) {
      EventsAndFds(events, e);
    }
  }

  lemma OnlyWorker(s: P.State, fd: P.Fd, u: nat, w: nat)
    requires P.Inv(s) && u < |s.pool.workers| && w < |s.pool.workers|
    requires s.pool.workers[u] == s.pool.workers[w] == TP.Running(fd)
    ensures u == w
  {
    hide TP.Inv;
    assert P.Places(s, fd) == Bit(fd in s.open);
    if u < w {
      P.TwoWorkers(s.pool.workers, u, w, fd);
    } else if w < u {
      P.TwoWorkers(s.pool.workers, w, u, fd);
    }
  }

  lemma AllElse(s: State, t: State, fd: P.Fd)
    requires forall x :: FdOk(s, x)
    requires forall x :: x != fd ==> Elsewhere(s, t, x)
    ensures forall x :: x != fd ==> FdOk(t, x)
  {
    hide FdOk, Elsewhere;
    forall x | x != fd ensures FdOk(t, x) {
      Frame(s, t, x);
    }
  }

  /** What is known of the connection the main thread is on. */
  lemma MainHas(s: State, fd: P.Fd)
    requires Inv(s) && P.MainOn(s.sys.main, fd)
    ensures fd in s.sys.open && fd !in s.sys.pool.queue && FdOk(s, fd)
    ensures forall e :: e in s.sys.batch && e.Ready? ==> e.fd != fd
    ensures forall w :: 0 <= w < |s.sys.pool.workers| ==> s.sys.pool.workers[w] != TP.Running(fd)
    ensures fd in s.sys.armed ==> s.sys.main.Opening? || s.sys.main.Finishing? || s.sys.main.Closing?
  {
    Whereabouts(s.sys, fd);
    NoEvents(s.sys.batch, fd);
    NotArmedInside(s.sys, fd);
  }

  /** A step of the main thread on `fd` that leaves all other connections where they are. */
  ghost predicate OnlyOn(s: State, t: State, fd: P.Fd) {
    && P.MainOn(s.sys.main, fd) && (t.sys.main.Loop? || t.sys.main.Releasing? || t.sys.main.fd == fd)
    && t.sys.batch == s.sys.batch && t.sys.pool.workers == s.sys.pool.workers && t.held == s.held
    && (forall x :: x != fd ==>
          && (x in t.sys.open ==> x in s.sys.open) && (x in t.sys.armed ==> x in s.sys.armed)
          && (x in t.sys.pool.queue ==> x in s.sys.pool.queue)
          && (x in s.conns ==> x in t.conns && t.conns[x] == s.conns[x]))
  }

  lemma MainStep(s: State, t: State, fd: P.Fd)
    requires Inv(s) && OnlyOn(s, t, fd) && FdOk(t, fd)
    ensures forall x :: FdOk(t, x)
  {
    hide P.Inv, FdOk;
    forall x ensures FdOk(t, x) {
      if x != fd {
        assert Elsewhere(s, t, x);
        Frame(s, t, x);
      }
    }
  }

  lemma OpenedOk(s: State, t: State, fd: P.Fd)
    requires Inv(s) && s.sys.main == P.Opening(fd)
    requires t == s.(sys := s.sys.(main := P.Loop), conns := s.conns[fd := NEW])
    ensures forall x :: FdOk(t, x)
  {
    hide Inv, P.Inv, ConnOk;
    MainHas(s, fd);
    NewOk();
    assert Consistent(t, fd);
    MainStep(s, t, fd);
  }

  lemma ReadOk(s: State, t: State, fd: P.Fd, bytes: string)
    requires Inv(s) && s.sys.main == P.Reading(fd)
    requires t == s.(sys := s.sys.(main := P.Appending(fd), pool := s.sys.pool.(appender := TP.Pushing(fd))),
                     conns := s.conns[fd := Got(s.own, bytes)])
    ensures forall x :: FdOk(t, x)
  {
    hide Inv, P.Inv, ConnOk;
    MainHas(s, fd);
    GotOk(s.own, bytes);
    assert Consistent(t, fd);
    MainStep(s, t, fd);
  }

  lemma WrittenOk(s: State, t: State, fd: P.Fd, counts: seq<nat>, full: bool)
    requires Inv(s) && s.sys.main == P.Writing(fd) && |s.own.unsent| == s.own.left.All() && s.own.due != []
    requires var w := Wrote(s.own, counts, full);
             && t == s.(sys := s.sys.(main := t.sys.main, armed := t.sys.armed), conns := s.conns[fd := w.conn])
             && (t.sys.armed == s.sys.armed + {fd} || t.sys.armed == s.sys.armed)
             && (match w.result
                 case Pause => t.sys.main.Loop?
                 case Done(keep) => t.sys.main == P.Finishing(fd, keep)
                 case Fail => t.sys.main == P.Closing(fd))
    ensures forall x :: FdOk(t, x)
  {
    hide Inv, P.Inv, ConnOk, Wrote;
    MainHas(s, fd);
    WroteOk(s.own, counts, full);
    assert Consistent(t, fd);
    MainStep(s, t, fd);
  }

  /** Leaving a connection without touching its contents. */
  lemma LeftOk(s: State, t: State, fd: P.Fd)
    requires Inv(s) && P.MainOn(s.sys.main, fd) && !s.sys.main.Opening?
    requires t == s.(sys := t.sys) && OnlyOn(s, t, fd) && t.sys.armed <= s.sys.armed
    requires fd in t.sys.open && !t.sys.main.Reading? && !t.sys.main.Writing? && !t.sys.main.Appending? && !t.sys.main.Finishing?
    requires fd in t.sys.pool.queue ==> s.sys.main.Appending?
    requires fd in t.sys.armed && !P.MainOn(t.sys.main, fd) ==> s.sys.main == P.Finishing(fd, true)
    ensures forall x :: FdOk(t, x)
  {
    hide Inv, P.Inv, ConnOk;
    MainHas(s, fd);
    assert Consistent(s, fd);
    assert Consistent(t, fd);
    MainStep(s, t, fd);
  }

  /** While the main thread reads, appends or writes, the descriptor is not armed. */
  lemma NotArmedInside(s: P.State, fd: P.Fd)
    requires P.Inv(s)
    ensures P.MainOn(s.main, fd) && fd in s.armed ==> s.main.Opening? || s.main.Finishing? || s.main.Closing?
  {}

  lemma ClosedOk(s: State, t: State, fd: P.Fd)
    requires Inv(s) && OnlyOn(s, t, fd) && fd !in t.sys.open
    ensures forall x :: FdOk(t, x)
  {
    hide Inv, P.Inv, ConnOk, Consistent;
    MainStep(s, t, fd);
  }

  /** Steps that leave every connection where it is. */
  lemma NobodyMoves(s: State, t: State)
    requires Inv(s) && t == s.(sys := t.sys)
    requires (s.sys.main.Loop? || s.sys.main.Releasing?) && (t.sys.main.Loop? || t.sys.main.Releasing?)
    requires t.sys.open == s.sys.open && t.sys.armed == s.sys.armed && t.sys.pool.queue == s.sys.pool.queue
    requires t.sys.pool.workers == s.sys.pool.workers && forall e :: e in t.sys.batch ==> e in s.sys.batch
    ensures forall x :: FdOk(t, x)
  {
    hide P.Inv, FdOk;
    forall x ensures FdOk(t, x) {
      assert Elsewhere(s, t, x);
      Frame(s, t, x);
    }
  }

  /** A batch arrives: what it reports was armed. */
  lemma PolledOk(s: State, t: State, events: seq<P.Event>)
    requires Inv(s) && s.sys.main.Loop? && s.sys.batch == [] && P.Pollable(s.sys, events) && Reportable(s.conns, events)
    requires t == s.(sys := s.sys.(batch := events, armed := s.sys.armed - set fd | fd in P.Fds(events)))
    ensures forall x :: FdOk(t, x)
  {
    hide P.Inv, ConnOk;
    forall x ensures FdOk(t, x) {
      assert FdOk(s, x);
      NoEvents(events, x);
      if x !in P.Fds(events) {
        hide FdOk;
        assert Elsewhere(s, t, x);
        Frame(s, t, x);
      } else {
        assert forall i :: 0 <= i < |events| && events[i].Ready? ==> Reports(events[i].kind, s.conns[events[i].fd].stage);
      }
    }
  }

  /** The main thread takes an event and copies its connection. */
  lemma StartedOk(s: State, t: State, fd: P.Fd)
    requires Inv(s) && s.sys.main.Loop? && s.sys.batch != [] && s.sys.batch[0].Ready? && s.sys.batch[0].fd == fd && fd in s.conns
    requires t == s.(sys := s.sys.(batch := s.sys.batch[1..], main := t.sys.main), own := s.conns[fd])
    requires t.sys.main == match s.sys.batch[0].kind
                           case Hangup => P.Closing(fd)
                           case Readable => P.Reading(fd)
                           case Writable => P.Writing(fd)
    ensures forall x :: FdOk(t, x)
  {
    hide Inv, ConnOk;
    EventHas(s, fd);
    assert t.sys.batch == s.sys.batch[1..];
    assert Consistent(t, fd);
    hide Consistent;
    forall x | x != fd ensures Elsewhere(s, t, x) {}
    EveryFd(s);
    AllElse(s, t, fd);
  }

  /** What is known of the connection the next event is about. */
  lemma EventHas(s: State, fd: P.Fd)
    requires Inv(s) && s.sys.main.Loop? && s.sys.batch != [] && s.sys.batch[0].Ready? && s.sys.batch[0].fd == fd
    ensures Consistent(s, fd) && fd !in s.sys.pool.queue && fd !in s.sys.armed
    ensures forall w :: 0 <= w < |s.sys.pool.workers| ==> s.sys.pool.workers[w] != TP.Running(fd)
  {
    EventsAndFds(s.sys.batch, s.sys.batch[0]);
    Whereabouts(s.sys, fd);
    hide P.Inv, ConnOk, Consistent;
    assert FdOk(s, fd);
  }

  lemma AdmittedOk(s: State, t: State, fd: P.Fd)
    requires Inv(s) && s.sys.main.Loop? && s.sys.batch != [] && fd !in s.sys.open
    requires t == s.(sys := s.sys.(batch := s.sys.batch[1..], open := s.sys.open + {fd}, userCount := t.sys.userCount,
                                   armed := s.sys.armed + {fd}, main := P.Opening(fd)))
    ensures forall x :: FdOk(t, x)
  {
    hide P.Inv, Consistent;
    forall x ensures FdOk(t, x) {
      assert FdOk(s, x);
      if x != fd {
        hide FdOk;
        assert Elsewhere(s, t, x);
        Frame(s, t, x);
      }
    }
  }

  /** A worker copies the connection it takes from the queue. */
  lemma PoppedOk(s: State, t: State, w: nat, fd: P.Fd)
    requires Inv(s) && w < |s.sys.pool.workers| && s.sys.pool.queue != [] && s.sys.pool.queue[0] == fd && fd in s.conns
    requires t == s.(sys := s.sys.(pool := t.sys.pool), held := s.held[w := s.conns[fd]])
    requires t.sys.pool.queue == s.sys.pool.queue[1..] && t.sys.pool.workers == s.sys.pool.workers[w := TP.Running(fd)]
    ensures forall x :: FdOk(t, x)
  {
    Whereabouts(s.sys, fd);
    hide P.Inv, ConnOk;
    forall x ensures FdOk(t, x) {
      assert FdOk(s, x);
      if x != fd {
        hide FdOk;
        assert Elsewhere(s, t, x);
        Frame(s, t, x);
      }
    }
  }

  /** What is known of the connection a worker has. */
  lemma WorkerHas(s: State, w: nat, fd: P.Fd)
    requires Inv(s) && w < |s.sys.pool.workers| && s.sys.pool.workers[w] == TP.Running(fd)
    ensures fd in s.sys.open && !P.MainOn(s.sys.main, fd) && fd !in s.sys.pool.queue && w < |s.held|
    ensures forall e :: e in s.sys.batch && e.Ready? ==> e.fd != fd
    ensures forall u :: 0 <= u < |s.sys.pool.workers| && s.sys.pool.workers[u] == TP.Running(fd) ==> u == w
    ensures Consistent(s, fd) && s.held[w] == s.conns[fd] && s.held[w].stage.Loaded? && ConnOk(s.held[w])
  {
    Whereabouts(s.sys, fd);
    NoEvents(s.sys.batch, fd);
    assert FdOk(s, fd);
    hide P.Inv, ConnOk;
    forall u: nat | u < |s.sys.pool.workers| && s.sys.pool.workers[u] == TP.Running(fd) ensures u == w {
      OnlyWorker(s.sys, fd, u, w);
    }
  }

  /** And writes it back processed. */
  lemma ProcessedHere(s: State, t: State, w: nat, fd: P.Fd, c: Conn)
    requires Inv(s) && w < |s.sys.pool.workers| && s.sys.pool.workers[w] == TP.Running(fd)
    requires ConnOk(c) && c.stage in {Waiting, Replying}
    requires t == s.(sys := s.sys.(pool := t.sys.pool, armed := s.sys.armed + {fd}), conns := s.conns[fd := c])
    requires t.sys.pool.queue == s.sys.pool.queue && t.sys.pool.workers == s.sys.pool.workers[w := TP.Top]
    ensures forall x :: FdOk(t, x)
  {
    hide Inv, ConnOk;
    WorkerHas(s, w, fd);
    assert Consistent(t, fd);
    hide Consistent;
    forall x | x != fd ensures Elsewhere(s, t, x) {}
    EveryFd(s);
    AllElse(s, t, fd);
  }

  lemma EveryFd(s: State)
    requires Inv(s)
    ensures forall x :: FdOk(s, x)
  {
    hide P.Inv, FdOk;
  }

  /** A worker's other steps concern no connection. */
  lemma WorkerMoved(s: State, t: State, w: nat, pc: TP.Worker<P.Fd>)
    requires Inv(s) && w < |s.sys.pool.workers| && !pc.Running? && t == s.(sys := s.sys.(pool := t.sys.pool))
    requires t.sys.pool.queue == s.sys.pool.queue && t.sys.pool.workers == s.sys.pool.workers[w := pc]
    ensures forall x :: FdOk(t, x)
  {
    hide P.Inv, FdOk;
    forall x ensures FdOk(t, x) {
      assert Elsewhere(s, t, x);
      Frame(s, t, x);
    }
  }

  // ---- every step ----

  lemma MainKeeps(s: State, a: Action)
    requires Inv(s) && Step(s, a).Some? && (a.move.FinishOpen? || a.move.ReadDone? || a.move.WriteDone?)
    ensures forall x :: FdOk(Step(s, a).value, x)
  {
    hide Inv, P.Inv, FdOk, Got, Wrote;
    var fd, t := s.sys.main.fd, Step(s, a).value;
    match a.move
    case FinishOpen => OpenedOk(s, t, fd);
    case WriteDone(_) => WrittenOk(s, t, fd, a.counts, a.full);
    case ReadDone(ok) =>
      if ok {
        ReadOk(s, t, fd, a.bytes);
      } else {
        StillOpen(s, fd);
        LeftOk(s, t, fd);
      }
  }

  lemma StillOpen(s: State, fd: P.Fd)
    requires Inv(s) && P.MainOn(s.sys.main, fd)
    ensures fd in s.sys.open && fd !in s.sys.pool.queue
    ensures fd in s.sys.armed ==> s.sys.main.Opening? || s.sys.main.Finishing? || s.sys.main.Closing?
  {
    hide Inv, P.Inv;
    MainHas(s, fd);
  }

  lemma LeaveKeeps(s: State, a: Action)
    requires Inv(s) && Step(s, a).Some? && (a.move.FinishWrite? || a.move.Close? || a.move.Push?)
    ensures forall x :: FdOk(Step(s, a).value, x)
  {
    hide Inv, P.Inv, FdOk;
    var fd, t := s.sys.main.fd, Step(s, a).value;
    StillOpen(s, fd);
    if a.move.Close? {
      ClosedOk(s, t, fd);
    } else {
      AppendsItsOwn(s);
      assert OnlyOn(s, t, fd);
      LeftOk(s, t, fd);
    }
  }

  lemma AppendsItsOwn(s: State)
    requires Inv(s)
    ensures s.sys.main.Appending? ==> s.sys.pool.appender == TP.Pushing(s.sys.main.fd)
  {
    hide TP.Inv;
  }

  lemma LoopKeeps(s: State, a: Action)
    requires Inv(s) && Step(s, a).Some?
    requires a.move.Poll? || a.move.AcceptFails? || a.move.Accept? || a.move.StartEvent? || a.move.Post?
    ensures forall x :: FdOk(Step(s, a).value, x)
  {
    hide Inv, P.Inv, FdOk;
    var t := Step(s, a).value;
    match a.move
    case Poll(events) => PolledOk(s, t, events);
    case StartEvent => StartedOk(s, t, s.sys.batch[0].fd);
    case Accept(fd) =>
      if s.sys.userCount >= s.sys.maxFd || fd >= s.sys.maxFd {
        NobodyMoves(s, t);
      } else {
        AdmittedOk(s, t, fd);
      }
    case _ => NobodyMoves(s, t);
  }

  lemma FinishKeeps(s: State, a: Action, w: nat)
    requires Inv(s) && Step(s, a).Some? && a.move == P.WorkerMove(TP.Finish(w))
    ensures forall x :: FdOk(Step(s, a).value, x)
  {
    hide Inv, P.Inv, FdOk, ConnOk, Processed, Consistent;
    var t, fd := Step(s, a).value, s.sys.pool.workers[w].task;
    WorkerHas(s, w, fd);
    ProcessedOk(s.held[w], a.result);
    ProcessedHere(s, t, w, fd, Processed(s.held[w], a.result).value);
  }

  lemma PopKeeps(s: State, a: Action, w: nat)
    requires Inv(s) && Step(s, a).Some? && a.move == P.WorkerMove(TP.Pop(w))
    ensures forall x :: FdOk(Step(s, a).value, x)
  {
    PoolInv(s);
    TP.PopFindsTask(s.sys.pool, w);
    hide Inv, P.Inv, TP.Inv, FdOk;
    PoppedOk(s, Step(s, a).value, w, s.sys.pool.queue[0]);
  }

  lemma PoolInv(s: State)
    requires Inv(s)
    ensures TP.Inv(s.sys.pool) && !s.sys.pool.Stopped()
  {}

  lemma WorkerKeeps(s: State, a: Action)
    requires Inv(s) && Step(s, a).Some? && a.move.WorkerMove?
    ensures forall x :: FdOk(Step(s, a).value, x)
  {
    hide Inv, P.Inv, FdOk;
    var move := a.move.action;
    if move.Pop? {
      PopKeeps(s, a, move.w);
    } else if move.Finish? {
      FinishKeeps(s, a, move.w);
    } else {
      var t, w := Step(s, a).value, TP.WorkerOf(move).value;
      WorkerMoved(s, t, w, t.sys.pool.workers[w]);
    }
  }

  lemma StepKeepsFds(s: State, a: Action)
    requires Inv(s) && Step(s, a).Some?
    ensures forall x :: FdOk(Step(s, a).value, x)
  {
    hide Inv, Step, FdOk;
    match a.move
    case WorkerMove(_) => WorkerKeeps(s, a);
    case FinishOpen => MainKeeps(s, a);
    case ReadDone(_) => MainKeeps(s, a);
    case WriteDone(_) => MainKeeps(s, a);
    case FinishWrite => LeaveKeeps(s, a);
    case Close => LeaveKeeps(s, a);
    case Push => LeaveKeeps(s, a);
    case Poll(_) => LoopKeeps(s, a);
    case AcceptFails => LoopKeeps(s, a);
    case Accept(_) => LoopKeeps(s, a);
    case StartEvent => LoopKeeps(s, a);
    case Post => LoopKeeps(s, a);
  }

  lemma StepSystem(s: State, a: Action)
    requires Step(s, a).Some? && |s.held| == |s.sys.pool.workers|
    ensures P.Step(s.sys, a.move) == Some(Step(s, a).value.sys)
    ensures |Step(s, a).value.held| == |Step(s, a).value.sys.pool.workers|
  {
    hide Processed, Wrote, Got;
  }

  lemma InvStep(s: State, a: Action)
    requires Inv(s) && Step(s, a).Some?
    ensures Inv(Step(s, a).value)
  {
    StepKeepsFds(s, a);
    hide P.Inv, FdOk, Step, P.Step;
    StepSystem(s, a);
    P.InvStep(s.sys, a.move);
  }

  lemma InvInit(threads: nat, maxRequests: nat, maxFd: nat, reserved: set<P.Fd>)
    ensures Inv(Init(threads, maxRequests, maxFd, reserved))
  {
    hide P.Inv, Consistent;
    P.InvInit(threads, maxRequests, maxFd, reserved);
  }

  lemma ReachableInv(threads: nat, maxRequests: nat, maxFd: nat, reserved: set<P.Fd>, run: seq<Action>)
    requires Exec(Step, Init(threads, maxRequests, maxFd, reserved), run).Some?
    ensures Inv(Exec(Step, Init(threads, maxRequests, maxFd, reserved), run).value)
  {
    hide Inv, Step;
    InvInit(threads, maxRequests, maxFd, reserved);
    forall s: State, a: Action | Inv(s) && Step(s, a).Some? ensures Inv(Step(s, a).value) {
      InvStep(s, a);
    }
    InvariantHolds(Step, Inv, Init(threads, maxRequests, maxFd, reserved), run);
  }

  // ---- the theorems ----

  /** A connection that main has initialised and not closed. */
  predicate Live(s: State, fd: P.Fd) { fd in s.sys.open && s.sys.main != P.Opening(fd) }

  /** In every interleaving of the event loop and any number of workers, for every live connection: its
      reads, in order, were taken request by request, each exactly up to the one that completed the
      headers; what has been and
      is still to be sent are the responses to those requests, each to its own reads, in order; and a
      client that has received everything reads exactly those answers, in order. */
  lemma EveryConnectionAnswered(
      threads: nat, maxRequests: nat, maxFd: nat, reserved: set<P.Fd>, run: seq<Action>, fd: P.Fd)
    requires Exec(Step, Init(threads, maxRequests, maxFd, reserved), run).Some?
    requires Live(Exec(Step, Init(threads, maxRequests, maxFd, reserved), run).value, fd)
    ensures var s := Exec(Step, Init(threads, maxRequests, maxFd, reserved), run).value;
            && fd in s.conns
            && var c := s.conns[fd];
            && |c.groups| == |c.results| == |c.due|
            && (forall j :: 0 <= j < |c.due| ==>
                  HttpLockstep.Whole(HTTP, c.groups[j]) && DueTo(c.due[j], c.groups[j], c.results[j]))
            && HttpLockstep.InStep(HTTP, c.groups) && HttpLockstep.Concat(c.groups) <= c.log
            && Shows("", c.wire + c.unsent, c.due, "")
  {
    hide Step, Inv, ConnOk, DueTo, HttpLockstep.Whole, HttpLockstep.InStep, HttpLockstep.Concat, Shows, Exec;
    ReachableInv(threads, maxRequests, maxFd, reserved, run);
    var s := Exec(Step, Init(threads, maxRequests, maxFd, reserved), run).value;
    EveryFd(s);
    assert FdOk(s, fd);
    AnsweredShown(s.conns[fd]);
  }

  lemma AnsweredShown(c: Conn)
    requires ConnOk(c)
    ensures |c.groups| == |c.results| == |c.due|
    ensures forall j :: 0 <= j < |c.due| ==>
              HttpLockstep.Whole(HTTP, c.groups[j]) && DueTo(c.due[j], c.groups[j], c.results[j])
    ensures HttpLockstep.InStep(HTTP, c.groups) && HttpLockstep.Concat(c.groups) <= c.log
    ensures Shows("", c.wire + c.unsent, c.due, "")
  {
    hide DueTo, HttpLockstep.Whole, HttpLockstep.InStep, HttpLockstep.Concat, Transcript, Shows, Sending, Parsing;
    HttpLockstep.InStepIff(HTTP, c.groups);
    assert c.wire + c.unsent == "" + Transcript(c.due) + "";
    ShowsIntro("", c.wire + c.unsent, c.due, "");
  }

  /** No work is lost: what a worker has copied is still what the connection is when it writes back, and so
      it is for the main thread. */
  lemma NoWorkLost(threads: nat, maxRequests: nat, maxFd: nat, reserved: set<P.Fd>, run: seq<Action>, fd: P.Fd, w: nat)
    requires Exec(Step, Init(threads, maxRequests, maxFd, reserved), run).Some?
    ensures var s := Exec(Step, Init(threads, maxRequests, maxFd, reserved), run).value;
            && (w < |s.sys.pool.workers| && s.sys.pool.workers[w] == TP.Running(fd) ==>
                  w < |s.held| && fd in s.conns && s.held[w] == s.conns[fd])
            && (s.sys.main == P.Reading(fd) || s.sys.main == P.Writing(fd) ==> fd in s.conns && s.own == s.conns[fd])
  {
    hide Step, Inv, ConnOk, Exec;
    ReachableInv(threads, maxRequests, maxFd, reserved, run);
    var s := Exec(Step, Init(threads, maxRequests, maxFd, reserved), run).value;
    EveryFd(s);
    assert FdOk(s, fd);
    if w < |s.sys.pool.workers| && s.sys.pool.workers[w] == TP.Running(fd) {
      WorkerHas(s, w, fd);
    }
    if P.MainOn(s.sys.main, fd) {
      MainHas(s, fd);
    }
  }

  /** What the environment may not do: report what is not so, send more than fits, let a handler return a
      code it does not have or a body no `int` counts, declare a length outside the buffer, or answer a
      write otherwise than the socket does. */
  ghost predicate Possible(s: State, a: Action) {
    match a.move
    case Poll(events) => Reportable(s.conns, events)
    case ReadDone(ok) => ok ==> |s.own.received| + |a.bytes| < READ_BUFFER_SIZE
    case WriteDone(r) =>
      |s.own.unsent| == s.own.left.All() && s.own.due != [] ==> Wrote(s.own, a.counts, a.full).result == r
    case WorkerMove(move) =>
      move.Finish? && move.w < |s.held| && Ready(s.held[move.w].received, s.held[move.w].parser) ==>
        Processed(s.held[move.w], a.result).Some?
    case _ => true
  }

  /** Nothing else keeps a step of the event loop or a worker from happening: the copies are always there
      and in the state the step needs. */
  lemma StepsDefined(s: State, a: Action)
    requires Inv(s) && P.Step(s.sys, a.move).Some? && Possible(s, a)
    ensures Step(s, a).Some?
  {
    hide Inv, P.Inv, ConnOk, Processed, Wrote, Got;
    match a.move
    case StartEvent =>
      EventHas(s, s.sys.batch[0].fd);
    case WriteDone(_) =>
      MainHas(s, s.sys.main.fd);
      SendingParts(s.own);
    case WorkerMove(move) =>
      if move.Finish? {
        WorkerHas(s, move.w, s.sys.pool.workers[move.w].task);
        LoadedReady(s.held[move.w]);
      } else if move.Pop? {
        PoolInv(s);
        TP.PopFindsTask(s.sys.pool, move.w);
        QueueHas(s, s.sys.pool.queue[0]);
      }
    case _ =>
  }

  lemma QueueHas(s: State, fd: P.Fd)
    requires Inv(s) && fd in s.sys.pool.queue
    ensures fd in s.conns && |s.held| == |s.sys.pool.workers|
  {
    Whereabouts(s.sys, fd);
    hide P.Inv, ConnOk;
    assert FdOk(s, fd);
  }

  lemma SendingParts(c: Conn)
    requires ConnOk(c) && c.stage.Replying?
    ensures |c.unsent| == c.left.All() && c.due != []
  {
    hide Answered, Parsing, Logged;
  }

  lemma LoadedReady(c: Conn)
    requires ConnOk(c) && c.stage.Loaded?
    ensures Ready(c.received, c.parser)
  {
    hide Answered, Sending, Logged, HeaderPhase;
    LastRead(c.current, c.parser);
  }

  // ---- why connections are closed ----

  /** The four reasons to close a connection: the peer hung up, a read failed, a write failed on a broken
      socket, or a response is all out whose request asked for it. */
  ghost predicate Cause(s: State, a: Action, fd: P.Fd) {
    || (a.move.StartEvent? && s.sys.batch != [] && s.sys.batch[0] == P.Ready(fd, P.Hangup))
    || (s.sys.main == P.Reading(fd) && a.move == P.ReadDone(false))
    || (s.sys.main == P.Writing(fd) && a.move == P.WriteDone(P.Fail) && !a.full)
    || (s.sys.main == P.Finishing(fd, false) && a.move.FinishWrite? && fd in s.conns && AskedToClose(s.conns[fd]))
  }

  lemma ClosesForCause(s: State, a: Action, fd: P.Fd)
    requires Inv(s) && Step(s, a).Some? && s.sys.main != P.Closing(fd) && Step(s, a).value.sys.main == P.Closing(fd)
    ensures Cause(s, a, fd)
  {
    hide Inv, P.Inv, ConnOk, Processed, Got, Wrote;
    if s.sys.main == P.Finishing(fd, false) || s.sys.main == P.Writing(fd) {
      MainHas(s, fd);
      if a.move.WriteDone? {
        WroteOk(s.own, a.counts, a.full);
      }
    }
  }

  /** A connection is closed only by the main thread, and only when it has a reason to. */
  lemma StaysOpen(s: State, a: Action, fd: P.Fd)
    requires Step(s, a).Some? && fd in s.sys.open && s.sys.main != P.Closing(fd)
    ensures fd in Step(s, a).value.sys.open
  {
    hide Processed, Got, Wrote;
  }

  ghost predicate CauseAt(s: State, run: seq<Action>, i: nat, fd: P.Fd)
    requires i < |run|
  {
    var before := Exec(Step, s, run[..i]);
    before.Some? && Cause(before.value, run[i], fd)
  }

  /** In every run, a connection that was open and no longer is, or is about to be closed, has met one of
      the four reasons on the way; in particular a connection is kept while its requests ask for it. */
  lemma {:induction false} ClosedOnlyFor(s: State, run: seq<Action>, fd: P.Fd)
    requires Inv(s) && Exec(Step, s, run).Some? && fd in s.sys.open && s.sys.main != P.Closing(fd)
    ensures var u := Exec(Step, s, run).value;
            fd !in u.sys.open || u.sys.main == P.Closing(fd) ==> exists i :: 0 <= i < |run| && CauseAt(s, run, i, fd)
    decreases |run|
  {
    hide Inv, Step, Cause;
    if run != [] {
      var next := Step(s, run[0]).value;
      InvStep(s, run[0]);
      StaysOpen(s, run[0], fd);
      if next.sys.main == P.Closing(fd) {
        ClosesForCause(s, run[0], fd);
        assert run[..0] == [];
        assert CauseAt(s, run, 0, fd);
      } else {
        ClosedOnlyFor(next, run[1..], fd);
        if i :| 0 <= i < |run[1..]| && CauseAt(next, run[1..], i, fd) {
          assert run[..i + 1][1..] == run[1..][..i] && run[..i + 1][0] == run[0];
          assert CauseAt(s, run, i + 1, fd);
        }
      }
    }
  }

  // ---- and they are kept open otherwise ----

  /** A step whose contents do not matter. */
  function Plain(move: P.Action): Action { Action(move, "", Threw, [], false) }

  /** Nothing is going on but connection `fd`, armed and as new but for its history. */
  ghost predicate Calm(s: State, fd: P.Fd) {
    && s.sys.main.Loop? && s.sys.batch == [] && fd in s.sys.open && fd in s.sys.armed
    && |s.held| == |s.sys.pool.workers| > 0 && s.sys.pool.workers[0].Top?
    && s.sys.pool.queue == [] && s.sys.pool.permits == 0 && s.sys.pool.maxRequests > 0
    && s.sys.pool.appender.Idle? && !s.sys.pool.Stopped()
    && fd in s.conns && Fresh(s.conns[fd])
  }

  predicate Fresh(c: Conn) {
    c.stage.Waiting? && c.received == "" && c.parser == INITIAL && c.current == [] && c.unsent == ""
  }

  lemma PollRuns(s: State, fd: P.Fd, kind: P.Kind)
    requires s.sys.main.Loop? && s.sys.batch == [] && fd in s.sys.armed && fd in s.conns && Reports(kind, s.conns[fd].stage)
    ensures Step(s, Plain(P.Poll([P.Ready(fd, kind)])))
            == Some(s.(sys := s.sys.(batch := [P.Ready(fd, kind)], armed := s.sys.armed - {fd})))
  {
    var event := [P.Ready(fd, kind)];
    assert event[1..] == [] && P.Fds(event) == [fd];
    assert s.sys.armed - (set x | x in P.Fds(event)) == s.sys.armed - {fd};
  }

  /** The main thread reads the request and is about to append its connection. */
  ghost function AfterRead(s: State, fd: P.Fd, text: string): State
    requires fd in s.conns
  {
    State(s.sys.(armed := s.sys.armed - {fd}, main := P.Appending(fd), pool := s.sys.pool.(appender := TP.Pushing(fd))),
          s.conns[fd := Got(s.conns[fd], text)], s.held, s.conns[fd])
  }

  lemma ReadRuns(s: State, fd: P.Fd, text: string)
    requires Calm(s, fd) && |text| < READ_BUFFER_SIZE
    ensures Exec(Step, s, [Plain(P.Poll([P.Ready(fd, P.Readable)])), Plain(P.StartEvent),
                           Action(P.ReadDone(true), text, Threw, [], false)]) == Some(AfterRead(s, fd, text))
  {
    hide Exec, Got;
    var event := [P.Ready(fd, P.Readable)];
    var s1 := s.(sys := s.sys.(batch := event, armed := s.sys.armed - {fd}));
    var s2 := s1.(sys := s1.sys.(batch := [], main := P.Reading(fd)), own := s.conns[fd]);
    assert event[1..] == [];
    PollRuns(s, fd, event[0].kind);
    assert Step(s1, Plain(P.StartEvent)) == Some(s2);
    assert Step(s2, Action(P.ReadDone(true), text, Threw, [], false)) == Some(AfterRead(s, fd, text));
    hide Step;
    ExecChain(Step, [s, s1, s2, AfterRead(s, fd, text)],
              [Plain(P.Poll(event)), Plain(P.StartEvent), Action(P.ReadDone(true), text, Threw, [], false)]);
  }

  /** It has been appended. */
  ghost function AfterAppend(s: State, fd: P.Fd): State {
    s.(sys := s.sys.(main := P.Loop, pool := s.sys.pool.(queue := [fd], accepted := s.sys.pool.accepted + [fd],
                                                         permits := 1, appender := TP.Idle)))
  }

  lemma AppendRuns(s: State, fd: P.Fd)
    requires s.sys.main == P.Appending(fd) && s.sys.pool.appender == TP.Pushing(fd) && s.sys.pool.queue == []
    requires s.sys.pool.permits == 0 && s.sys.pool.maxRequests > 0
    ensures Exec(Step, s, [Plain(P.Push), Plain(P.Post)]) == Some(AfterAppend(s, fd))
  {
    hide Exec;
    var p := s.sys.pool.(queue := [fd], accepted := s.sys.pool.accepted + [fd], appender := TP.Posting);
    var s1 := s.(sys := s.sys.(main := P.Releasing, pool := p));
    assert s.sys.pool.queue + [fd] == [fd];
    assert Step(s, Plain(P.Push)) == Some(s1);
    assert Step(s1, Plain(P.Post)) == Some(AfterAppend(s, fd));
    hide Step;
    ExecChain(Step, [s, s1, AfterAppend(s, fd)], [Plain(P.Push), Plain(P.Post)]);
  }

  /** Worker 0 is about to take it. */
  ghost function AfterWake(s: State): State
    requires |s.sys.pool.workers| > 0
  {
    s.(sys := s.sys.(pool := s.sys.pool.(permits := 0, workers := s.sys.pool.workers[0 := TP.Popping])))
  }

  lemma WakeRuns(s: State)
    requires s.sys.pool.permits == 1 && !s.sys.pool.Stopped() && |s.sys.pool.workers| > 0 && s.sys.pool.workers[0].Top?
    ensures Exec(Step, s, [Plain(P.WorkerMove(TP.TestLoop(0))), Plain(P.WorkerMove(TP.Acquire(0))),
                           Plain(P.WorkerMove(TP.TestStop(0)))]) == Some(AfterWake(s))
  {
    hide Exec;
    var p := s.sys.pool;
    var s1 := s.(sys := s.sys.(pool := p.(workers := p.workers[0 := TP.Waiting])));
    var s2 := s.(sys := s.sys.(pool := p.(permits := 0, workers := p.workers[0 := TP.Woken])));
    assert s1.sys.pool.workers[0 := TP.Woken] == s2.sys.pool.workers;
    assert s2.sys.pool.workers[0 := TP.Popping] == p.workers[0 := TP.Popping];
    assert Step(s, Plain(P.WorkerMove(TP.TestLoop(0)))) == Some(s1);
    assert Step(s1, Plain(P.WorkerMove(TP.Acquire(0)))) == Some(s2);
    assert Step(s2, Plain(P.WorkerMove(TP.TestStop(0)))) == Some(AfterWake(s));
    hide Step;
    ExecChain(Step, [s, s1, s2, AfterWake(s)],
              [Plain(P.WorkerMove(TP.TestLoop(0))), Plain(P.WorkerMove(TP.Acquire(0))), Plain(P.WorkerMove(TP.TestStop(0)))]);
  }

  /** Worker 0 has processed it, and armed it again. */
  ghost function AfterWork(s: State, fd: P.Fd, c: Conn): State
    requires fd in s.conns && |s.sys.pool.workers| == |s.held| > 0
  {
    State(s.sys.(armed := s.sys.armed + {fd},
                 pool := s.sys.pool.(queue := [], taken := s.sys.pool.taken + [fd], workers := s.sys.pool.workers[0 := TP.Top])),
          s.conns[fd := c], s.held[0 := s.conns[fd]], s.own)
  }

  lemma WorkRuns(s: State, fd: P.Fd, result: Handled)
    requires s.sys.pool.queue == [fd] && |s.sys.pool.workers| == |s.held| > 0 && s.sys.pool.workers[0].Popping? && fd in s.conns
    requires Ready(s.conns[fd].received, s.conns[fd].parser) && Processed(s.conns[fd], result).Some?
    ensures Exec(Step, s, [Plain(P.WorkerMove(TP.Pop(0))), Action(P.WorkerMove(TP.Finish(0)), "", result, [], false)])
            == Some(AfterWork(s, fd, Processed(s.conns[fd], result).value))
  {
    hide Exec, Processed;
    var p := s.sys.pool;
    var c := Processed(s.conns[fd], result).value;
    var p1 := p.(queue := [], taken := p.taken + [fd], workers := p.workers[0 := TP.Running(fd)]);
    var s1 := s.(sys := s.sys.(pool := p1), held := s.held[0 := s.conns[fd]]);
    assert [fd][1..] == [] && p1.workers[0 := TP.Top] == p.workers[0 := TP.Top];
    assert Step(s, Plain(P.WorkerMove(TP.Pop(0)))) == Some(s1);
    assert Step(s1, Action(P.WorkerMove(TP.Finish(0)), "", result, [], false)) == Some(AfterWork(s, fd, c));
    hide Step;
    ExecChain(Step, [s, s1, AfterWork(s, fd, c)],
              [Plain(P.WorkerMove(TP.Pop(0))), Action(P.WorkerMove(TP.Finish(0)), "", result, [], false)]);
  }

  /** The main thread has written the response and kept the connection. */
  ghost function AfterWrite(s: State, fd: P.Fd, c: Conn): State
    requires fd in s.conns
  {
    State(s.sys.(armed := s.sys.armed - {fd} + {fd}), s.conns[fd := c], s.held, s.conns[fd])
  }

  lemma WriteRuns(s: State, fd: P.Fd, counts: seq<nat>)
    requires s.sys.main.Loop? && s.sys.batch == [] && fd in s.sys.armed && fd in s.conns && s.conns[fd].stage.Replying?
    requires |s.conns[fd].unsent| == s.conns[fd].left.All() && s.conns[fd].due != []
    requires Wrote(s.conns[fd], counts, false).result == P.Done(true)
    ensures Exec(Step, s, [Plain(P.Poll([P.Ready(fd, P.Writable)])), Plain(P.StartEvent),
                           Action(P.WriteDone(P.Done(true)), "", Threw, counts, false), Plain(P.FinishWrite)])
            == Some(AfterWrite(s, fd, Wrote(s.conns[fd], counts, false).conn))
  {
    hide Exec, Wrote;
    var event := [P.Ready(fd, P.Writable)];
    var c := Wrote(s.conns[fd], counts, false).conn;
    var s1 := s.(sys := s.sys.(batch := event, armed := s.sys.armed - {fd}));
    var s2 := s1.(sys := s1.sys.(batch := [], main := P.Writing(fd)), own := s.conns[fd]);
    var s3 := s2.(sys := s2.sys.(main := P.Finishing(fd, true), armed := s.sys.armed - {fd} + {fd}), conns := s.conns[fd := c]);
    assert event[1..] == [];
    PollRuns(s, fd, event[0].kind);
    assert Step(s1, Plain(P.StartEvent)) == Some(s2);
    assert Step(s2, Action(P.WriteDone(P.Done(true)), "", Threw, counts, false)) == Some(s3);
    assert Step(s3, Plain(P.FinishWrite)) == Some(AfterWrite(s, fd, c));
    hide Step;
    ExecChain(Step, [s, s1, s2, s3, AfterWrite(s, fd, c)],
              [Plain(P.Poll(event)), Plain(P.StartEvent),
               Action(P.WriteDone(P.Done(true)), "", Threw, counts, false), Plain(P.FinishWrite)]);
  }

  /** The response to a request that comes in one read. */
  ghost function DueOf(text: string, result: Handled): Due
    requires var outcome := HttpParser.ProcessRead(HTTP, text, INITIAL); !outcome.NeedMore? && !outcome.Unspecified?
  {
    var a := Answer(HttpParser.ProcessRead(HTTP, text, INITIAL), _ => result);
    Due(a.code, a.json, HeaderPhase(HTTP, text, INITIAL).parser.fields.linger)
  }

  /** A complete request that asks to keep the connection, and what its handler did. */
  ghost predicate Complete(text: string, result: Handled) {
    var outcome := HttpParser.ProcessRead(HTTP, text, INITIAL);
    && |text| < READ_BUFFER_SIZE && !outcome.NeedMore? && !outcome.Unspecified?
    && (outcome.Call? && result.Returned? ==> CanReturn(outcome.handler, result.code))
    && Sendable(DueOf(text, result)) && DueOf(text, result).linger
  }

  /** The response is printed as soon as the request is read. */
  lemma ProcessedAtOnce(c: Conn, text: string, result: Handled)
    requires Fresh(c) && Complete(text, result)
    ensures var g, d := Got(c, text), DueOf(text, result);
            && g.received == text && g.parser == INITIAL && Ready(g.received, g.parser)
            && Processed(g, result) == Some(g.(stage := Replying, unsent := Bytes(d), left := Split(d), due := c.due + [d],
                                               groups := c.groups + [g.current], results := c.results + [result]))
  {
    hide HeaderPhase, HttpParser.ProcessRead, Answer, Sendable, Bytes, Split, CanReturn;
    assert "" + text == text;
  }

  /** Two writes are enough for any countable response. */
  lemma TwoWrites(left: ResponseWriter.Parts)
    requires ResponseWriter.Countable(left) && 0 < left.All()
    ensures var w := ResponseWriter.Written([left.All(), left.All()], left); w.finished && w.sent == left.All()
  {
    var counts := [left.All(), left.All()];
    assert counts[1..] == [left.All()] && counts[1..][1..] == [];
    assert ResponseWriter.Total(counts) == ResponseWriter.Min(left.All(), ResponseWriter.MAX_RW_COUNT)
                                         + ResponseWriter.Total(counts[1..]);
    assert ResponseWriter.Total(counts[1..]) == ResponseWriter.Min(left.All(), ResponseWriter.MAX_RW_COUNT);
    ResponseWriter.PushedExact(counts, left);
  }

  /** A response that is written completely leaves the connection as new. */
  lemma WrittenAtOnce(c: Conn, d: Due)
    requires Sendable(d) && d.linger && c.stage.Replying? && c.unsent == Bytes(d) && c.left == Split(d)
    requires c.due != [] && c.due[|c.due| - 1] == d
    ensures |c.unsent| == c.left.All()
    ensures var w := Wrote(c, [c.left.All(), c.left.All()], false);
            && w.result == P.Done(true) && Fresh(w.conn) && w.conn.wire == c.wire + Bytes(d)
            && w.conn.due == c.due && w.conn.groups == c.groups && w.conn.results == c.results && w.conn.log == c.log
  {
    hide Bytes, Split, Sendable, ToInt32, ResponseWriter.Written, ResponseWriter.Parts.Without;
    DueParts(d);
    TwoWrites(c.left);
    assert c.unsent[..|c.unsent|] == c.unsent;
  }

  /** One request served, and the connection as new behind it. */
  ghost predicate OneMore(c: Conn, d: Conn, text: string, result: Handled)
    requires Complete(text, result)
  {
    && d.wire == c.wire + Bytes(DueOf(text, result)) && d.due == c.due + [DueOf(text, result)]
    && d.groups == c.groups + [[text]] && d.results == c.results + [result] && d.log == c.log + [text]
  }

  /** The states a round goes through. */
  ghost function Reading(s: State, fd: P.Fd, text: string): State
    requires Calm(s, fd)
  {
    AfterWake(AfterAppend(AfterRead(s, fd, text), fd))
  }

  ghost function AfterRound(s: State, fd: P.Fd, text: string, replying: Conn, done: Conn): State
    requires Calm(s, fd)
  {
    AfterWrite(AfterWork(Reading(s, fd, text), fd, replying), fd, done)
  }

  lemma RoundCalm(s: State, fd: P.Fd, text: string, replying: Conn, done: Conn)
    requires Calm(s, fd) && Fresh(done)
    ensures Calm(AfterRound(s, fd, text, replying, done), fd) && AfterRound(s, fd, text, replying, done).conns[fd] == done
  {
    hide Got, Fresh;
  }

  /** The run of a round, given what its parts do to the connection. */
  lemma RoundRuns(s: State, fd: P.Fd, text: string, result: Handled, replying: Conn, counts: seq<nat>) returns (run: seq<Action>)
    requires Calm(s, fd) && |text| < READ_BUFFER_SIZE
    requires var g := Got(s.conns[fd], text); Ready(g.received, g.parser) && Processed(g, result) == Some(replying)
    requires replying.stage.Replying? && |replying.unsent| == replying.left.All() && replying.due != []
    requires Wrote(replying, counts, false).result == P.Done(true)
    ensures Exec(Step, s, run) == Some(AfterRound(s, fd, text, replying, Wrote(replying, counts, false).conn))
  {
    hide Step, Exec, Processed, Wrote, Got, Fresh;
    var s1 := AfterRead(s, fd, text);
    var s2 := AfterAppend(s1, fd);
    var s3 := AfterWake(s2);
    var s4 := AfterWork(s3, fd, replying);
    ReadRuns(s, fd, text);
    AppendRuns(s1, fd);
    WakeRuns(s2);
    WorkRuns(s3, fd, result);
    WriteRuns(s4, fd, counts);
    run := Joined(s, s1, s2, s3, s4, AfterWrite(s4, fd, Wrote(replying, counts, false).conn),
      [Plain(P.Poll([P.Ready(fd, P.Readable)])), Plain(P.StartEvent), Action(P.ReadDone(true), text, Threw, [], false)],
      [Plain(P.Push), Plain(P.Post)],
      [Plain(P.WorkerMove(TP.TestLoop(0))), Plain(P.WorkerMove(TP.Acquire(0))), Plain(P.WorkerMove(TP.TestStop(0)))],
      [Plain(P.WorkerMove(TP.Pop(0))), Action(P.WorkerMove(TP.Finish(0)), "", result, [], false)],
      [Plain(P.Poll([P.Ready(fd, P.Writable)])), Plain(P.StartEvent),
       Action(P.WriteDone(P.Done(true)), "", Threw, counts, false), Plain(P.FinishWrite)]);
  }

  lemma Round(s: State, fd: P.Fd, text: string, result: Handled) returns (run: seq<Action>, u: State)
    requires Calm(s, fd) && Complete(text, result)
    ensures Exec(Step, s, run) == Some(u) && Calm(u, fd) && OneMore(s.conns[fd], u.conns[fd], text, result)
  {
    hide Step, Exec, Wrote, DueOf, Bytes, Split, HeaderPhase, Calm, HttpParser.ProcessRead, Sendable;
    CalmParts(s, fd);
    var c, d := s.conns[fd], DueOf(text, result);
    ProcessedAtOnce(c, text, result);
    hide Processed;
    var replying := Processed(Got(c, text), result).value;
    assert replying.current == [text];
    WrittenAtOnce(replying, d);
    var counts := [replying.left.All(), replying.left.All()];
    var done := Wrote(replying, counts, false).conn;
    run := RoundRuns(s, fd, text, result, replying, counts);
    u := AfterRound(s, fd, text, replying, done);
    RoundCalm(s, fd, text, replying, done);
  }

  lemma CalmParts(s: State, fd: P.Fd)
    requires Calm(s, fd)
    ensures fd in s.conns && Fresh(s.conns[fd])
  {}

  lemma Joined(s: State, s1: State, s2: State, s3: State, s4: State, u: State,
               r1: seq<Action>, r2: seq<Action>, r3: seq<Action>, r4: seq<Action>, r5: seq<Action>) returns (run: seq<Action>)
    requires Exec(Step, s, r1) == Some(s1) && Exec(Step, s1, r2) == Some(s2) && Exec(Step, s2, r3) == Some(s3)
    requires Exec(Step, s3, r4) == Some(s4) && Exec(Step, s4, r5) == Some(u)
    ensures Exec(Step, s, run) == Some(u)
  {
    hide Step, Exec;
    run := r1 + (r2 + (r3 + (r4 + r5)));
    ExecConcat(Step, s3, r4, r5);
    ExecConcat(Step, s2, r3, r4 + r5);
    ExecConcat(Step, s1, r2, r3 + (r4 + r5));
    ExecConcat(Step, s, r1, r2 + (r3 + (r4 + r5)));
  }

  /** A new connection: accepted, and calm. */
  lemma OpenRuns(threads: nat, maxRequests: nat, maxFd: nat, reserved: set<P.Fd>, fd: P.Fd)
      returns (run: seq<Action>, u: State)
    requires threads > 0 && maxRequests > 0 && fd in P.Usable(maxFd, reserved)
    ensures Exec(Step, Init(threads, maxRequests, maxFd, reserved), run) == Some(u) && Calm(u, fd) && u.conns[fd] == NEW
  {
    hide Exec;
    var s := Init(threads, maxRequests, maxFd, reserved);
    var s1 := s.(sys := s.sys.(batch := [P.Listen]));
    var s2 := s.(sys := s.sys.(open := {fd}, userCount := 1, armed := {fd}, main := P.Opening(fd)));
    u := s2.(sys := s2.sys.(main := P.Loop), conns := map[fd := NEW]);
    assert P.Fds([P.Listen]) == [] && [P.Listen][1..] == [];
    assert s.sys.armed - (set x | x in P.Fds([P.Listen])) == {} && {} + {fd} == {fd};
    assert s2.conns[fd := NEW] == map[fd := NEW];
    run := [Plain(P.Poll([P.Listen])), Plain(P.Accept(fd)), Plain(P.FinishOpen)];
    assert Step(s, run[0]) == Some(s1);
    assert Step(s1, run[1]) == Some(s2);
    assert Step(s2, run[2]) == Some(u);
    hide Step;
    ExecChain(Step, [s, s1, s2, u], run);
  }

  /** Complete requests, and what their handlers did. */
  ghost predicate AllComplete(texts: seq<string>, results: seq<Handled>) {
    |texts| == |results| && forall j :: 0 <= j < |texts| ==> Complete(texts[j], results[j])
  }

  /** Each is answered, in order. */
  ghost predicate AnsweredAll(c: Conn, texts: seq<string>, results: seq<Handled>)
    requires AllComplete(texts, results)
  {
    && |c.due| == |texts| && AllSendable(c.due) && c.wire == Transcript(c.due) && c.unsent == ""
    && forall j :: 0 <= j < |texts| ==> c.due[j] == DueOf(texts[j], results[j])
  }

  lemma {:induction false} RoundsRun(s: State, fd: P.Fd, texts: seq<string>, results: seq<Handled>)
      returns (run: seq<Action>, u: State)
    requires Calm(s, fd) && s.conns[fd] == NEW && AllComplete(texts, results)
    ensures Exec(Step, s, run) == Some(u) && Calm(u, fd) && AnsweredAll(u.conns[fd], texts, results)
    decreases |texts|
  {
    if texts == [] {
      run, u := [], s;
      assert Transcript([]) == "";
    } else {
      hide Step, Calm, Complete, DueOf, Exec, Bytes, Transcript;
      var n := |texts| - 1;
      assert AllComplete(texts[..n], results[..n]);
      var before, mid := RoundsRun(s, fd, texts[..n], results[..n]);
      var last;
      last, u := Round(mid, fd, texts[n], results[n]);
      run := before + last;
      ExecConcat(Step, s, before, last);
      CalmParts(mid, fd);
      CalmParts(u, fd);
      NextAnswered(mid.conns[fd], u.conns[fd], texts, results);
    }
  }

  lemma NextAnswered(c: Conn, d: Conn, texts: seq<string>, results: seq<Handled>)
    requires texts != [] && AllComplete(texts, results) && AllComplete(texts[..|texts| - 1], results[..|texts| - 1])
    requires AnsweredAll(c, texts[..|texts| - 1], results[..|texts| - 1]) && Fresh(d)
    requires OneMore(c, d, texts[|texts| - 1], results[|texts| - 1])
    ensures AnsweredAll(d, texts, results)
  {
    hide Complete, DueOf, Bytes, Transcript, Sendable;
    var n := |texts| - 1;
    CompleteDue(texts[n], results[n]);
    TranscriptSnoc(c.due, DueOf(texts[n], results[n]));
    assert forall j :: 0 <= j < n ==> texts[..n][j] == texts[j] && results[..n][j] == results[j];
  }

  lemma CompleteDue(text: string, result: Handled)
    requires Complete(text, result)
    ensures !HttpParser.ProcessRead(HTTP, text, INITIAL).NeedMore? && !HttpParser.ProcessRead(HTTP, text, INITIAL).Unspecified?
    ensures Sendable(DueOf(text, result))
  {
    hide HeaderPhase, HttpParser.ProcessRead, Answer;
  }

  /** The connection is kept, and every request answered, all the way through. */
  ghost predicate ServesAll(start: State, run: seq<Action>, fd: P.Fd, texts: seq<string>, results: seq<Handled>)
    requires AllComplete(texts, results)
  {
    var end := Exec(Step, start, run);
    && end.Some? && fd in end.value.sys.open && fd in end.value.sys.armed && end.value.sys.main.Loop?
    && fd in end.value.conns && end.value.conns[fd].stage.Waiting? && AnsweredAll(end.value.conns[fd], texts, results)
  }

  /** Keep-alive works: for any number of complete requests that ask to keep the connection, with any results
      of their handlers, there is a run of the server in which one connection carries them all; its wire
      is all the responses in order, and it is still open and waiting for the next request. */
  lemma KeptThroughout(threads: nat, maxRequests: nat, maxFd: nat, reserved: set<P.Fd>, fd: P.Fd,
                       texts: seq<string>, results: seq<Handled>)
    requires threads > 0 && maxRequests > 0 && fd in P.Usable(maxFd, reserved) && AllComplete(texts, results)
    ensures exists run :: ServesAll(Init(threads, maxRequests, maxFd, reserved), run, fd, texts, results)
  {
    hide Step, Exec, AllComplete, AnsweredAll, P.Usable;
    var start := Init(threads, maxRequests, maxFd, reserved);
    var opening, s := OpenRuns(threads, maxRequests, maxFd, reserved, fd);
    var serving, u := RoundsRun(s, fd, texts, results);
    ExecConcat(Step, start, opening, serving);
    assert ServesAll(start, opening + serving, fd, texts, results);
  }
}
