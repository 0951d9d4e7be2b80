/** A keep-alive connection over its whole life: a sequence of exchanges, and the client's view of it. */
module HttpSession {
  import opened Runs
  import opened Text
  import opened HttpParser
  import opened HttpResponse
  import opened HttpConn
  import ResponseWriter

  // ---- responses behind one another ----

  /** A response due to a client: printable, and countable in an `int`. */
  datatype Due = Due(code: Code, json: string, linger: bool)

  predicate Sendable(d: Due) { Printable(d.code) && |d.json| <= INT_MAX }

  function Bytes(d: Due): string
    requires Sendable(d)
  {
    Wire(ReplyFor(d.code, d.json), d.linger)
  }

  /** How its bytes are split over the two iovecs. */
  ghost function Split(d: Due): ResponseWriter.Parts
    requires Sendable(d)
  {
    ResponseWriter.PartsOf(ReplyFor(d.code, d.json), d.linger)
  }

  predicate AllSendable(ds: seq<Due>) { forall i :: 0 <= i < |ds| ==> Sendable(ds[i]) }

  function Transcript(ds: seq<Due>): string
    requires AllSendable(ds)
  {
    if ds == [] then "" else Bytes(ds[0]) + Transcript(ds[1..])
  }

  /** What a client reads of a response: its status, whether the connection stays open, and its body. */
  datatype Received = Received(status: int, linger: bool, body: string)

  function Content(d: Due): Received
    requires Sendable(d)
  {
    Received(StatusOf(d.code), d.linger, ReplyFor(d.code, d.json).body)
  }

  function Contents(ds: seq<Due>): seq<Received>
    requires AllSendable(ds)
  {
    if ds == [] then [] else [Content(ds[0])] + Contents(ds[1..])
  }

  datatype Reading = Reading(replies: seq<Received>, rest: string)

  /** A client that reads `n` responses, one after the other. */
  function ReadMany(g: Grammar, s: string, n: nat): Option<Reading>
    decreases n
  {
    if n == 0 then Some(Reading([], s))
    else match ReadResponse(g, s)
      case None => None
      case Some(m) =>
        match ReadMany(g, m.rest, n - 1)
        case None => None
        case Some(more) => Some(Reading([Received(m.status, m.linger, m.body)] + more.replies, more.rest))
  }

  lemma FirstReads(d: Due, rest: string)
    requires Sendable(d)
    ensures ReadResponse(HTTP, Bytes(d) + rest) == Some(Message(Content(d).status, d.linger, Content(d).body, rest))
  {
    hide Wire, ReplyFor, ReadResponse, StatusOf;
    ResponseReadsBack(d.code, d.json, d.linger, rest);
  }

  /** Whatever follows them, a client reads a series of responses back one by one. */
  lemma {:induction false} TranscriptReadsBack(ds: seq<Due>, rest: string)
    requires AllSendable(ds)
    ensures ReadMany(HTTP, Transcript(ds) + rest, |ds|) == Some(Reading(Contents(ds), rest))
    decreases |ds|
  {
    hide ReadResponse, Bytes, Content, Sendable;
    if ds == [] {
      assert "" + rest == rest;
    } else {
      var more := Transcript(ds[1..]) + rest;
      assert Transcript(ds) + rest == Bytes(ds[0]) + more;
      ContentLinger(ds[0]);
      FirstReads(ds[0], more);
      TranscriptReadsBack(ds[1..], rest);
    }
  }

  lemma ContentLinger(d: Due)
    requires Sendable(d)
    ensures Content(d).linger == d.linger
  {}

  lemma {:induction false} TranscriptSnoc(ds: seq<Due>, d: Due)
    requires AllSendable(ds) && Sendable(d)
    ensures AllSendable(ds + [d]) && Transcript(ds + [d]) == Transcript(ds) + Bytes(d)
    decreases |ds|
  {
    hide Bytes, Sendable;
    if ds == [] {
      assert ds + [d] == [d] && [d][1..] == [];
    } else {
      assert (ds + [d])[1..] == ds[1..] + [d];
      TranscriptSnoc(ds[1..], d);
      assert Bytes(ds[0]) + (Transcript(ds[1..]) + Bytes(d)) == Transcript(ds) + Bytes(d);
    }
  }

  // ---- exchanges ----

  /** Where request `j` of a connection starts among its reads: each request takes the reads up to the
      one that completes its headers, and the next request starts behind them. */
  function Starts(g: Grammar, input: seq<string>, j: nat): (k: nat)
    ensures k <= |input|
  {
    if j == 0 then 0
    else
      var i := Starts(g, input, j - 1);
      i + DoneAt(g, input[i..], 0)
  }

  /** What happens to one request besides its reads: what the handlers do, and how the socket takes the
      response. */
  datatype Turn = Turn(handled: Handler -> Handled, calls: seq<WriteCall>)

  /** One exchange: the reads from its start on, and its turn. */
  datatype Exchange = Exchange(chunks: seq<string>, handled: Handler -> Handled, calls: seq<WriteCall>)

  /** The exchanges of a connection. */
  ghost function ExchangeAt(input: seq<string>, turns: seq<Turn>, j: nat): Exchange
    requires j < |turns|
  {
    Exchange(input[Starts(HTTP, input, j)..], turns[j].handled, turns[j].calls)
  }

  ghost function Exchanges(input: seq<string>, turns: seq<Turn>): seq<Exchange> {
    seq(|turns|, j requires 0 <= j < |turns| => ExchangeAt(input, turns, j))
  }

  /** What was received when the headers were complete fits the read buffer. */
  ghost predicate Fits(x: Exchange) { |Seen(HTTP, x.chunks)| < READ_BUFFER_SIZE }

  ghost predicate Decided(x: Exchange) {
    Fits(x) && !OutcomeOf(x.chunks).NeedMore? && !OutcomeOf(x.chunks).Unspecified?
  }

  /** The response a request deserves: that to its outcome. */
  ghost function DueFor(x: Exchange): Due
    requires Decided(x)
  {
    var a := Answer(OutcomeOf(x.chunks), x.handled);
    Due(a.code, a.json, LingerOf(x.chunks))
  }

  /** Handlers keep to their codes, the declared length is a position of the buffer, and an `int` can
      count the body of the response. */
  ghost predicate Ordinary(x: Exchange) {
    && WellBehaved(x.handled) && (Fits(x) ==> !OutcomeOf(x.chunks).Unspecified?)
    && (Decided(x) ==> |DueFor(x).json| <= INT_MAX)
  }

  lemma DueSendable(x: Exchange)
    requires Ordinary(x) && Decided(x)
    ensures Sendable(DueFor(x))
  {
    AnswerIsPrintable(OutcomeOf(x.chunks), x.handled);
  }

  lemma OrdinaryParts(x: Exchange)
    requires Ordinary(x)
    ensures WellBehaved(x.handled) && (Decided(x) <==> Fits(x) && !OutcomeOf(x.chunks).NeedMore?)
    ensures Fits(x) ==> !OutcomeOf(x.chunks).Unspecified?
    ensures Fits(x) <==> |Seen(HTTP, x.chunks)| < READ_BUFFER_SIZE
    ensures Decided(x) ==>
              && Answer(OutcomeOf(x.chunks), x.handled) == Returned(DueFor(x).code, DueFor(x).json)
              && DueFor(x).linger == LingerOf(x.chunks) && Sendable(DueFor(x))
  {
    if Decided(x) {
      DueSendable(x);
    }
  }

  /** What a client sees of a response, by its code and JSON text; NotFoundSays and its companions spell
      out the texts. */
  ghost predicate Shown(got: Received, code: Code, json: string) {
    match code
    case NO_RESOURCE => got.status == 404 && got.body == ErrorText(NO_RESOURCE)
    case FORBIDDEN_REQUEST => got.status == 403 && got.body == ErrorText(FORBIDDEN_REQUEST)
    case INTERNAL_ERROR => got.status == 500 && got.body == ErrorText(INTERNAL_ERROR)
    case BAD_REQUEST => got.status == 400 && got.body == if json != "" then json else ErrorText(BAD_REQUEST)
    case NO_REQUEST => false
    case CLOSED_CONNECTION => false
    case _ => got.status == 200 && got.body == json
  }

  lemma ContentShown(d: Due)
    requires Sendable(d)
    ensures Shown(Content(d), d.code, d.json)
  {
    hide ErrorText;
  }

  /** What a client sees of a request: 404 for what is not found, 400 for what is malformed, 500 for an
      exception, and otherwise what the handler's own code and JSON text say. */
  ghost predicate Sees(got: Received, outcome: Outcome, handled: Handler -> Handled) {
    match outcome
    case NoResource => Shown(got, NO_RESOURCE, "")
    case BadRequest => Shown(got, BAD_REQUEST, "")
    case Call(h, _) => if handled(h).Returned? then Shown(got, handled(h).code, handled(h).json) else got.status == 500
    case _ => false
  }

  lemma ClientSees(x: Exchange)
    requires Ordinary(x) && Decided(x)
    ensures Sendable(DueFor(x)) && Sees(Content(DueFor(x)), OutcomeOf(x.chunks), x.handled)
  {
    DueSendable(x);
    ContentShown(DueFor(x));
    AnswerSays(OutcomeOf(x.chunks), x.handled);
    hide OutcomeOf, LingerOf, WellBehaved, Answer, ReplyFor, Fits, Content;
  }

  /** The statuses, plainly. */
  lemma SeenStatus(got: Received, outcome: Outcome, handled: Handler -> Handled)
    requires Sees(got, outcome, handled)
    ensures outcome.NoResource? ==> got.status == 404
    ensures outcome.BadRequest? ==> got.status == 400
  {}

  /** What one exchange adds to the wire. */
  lemma OneExchange(d: Due, calls: seq<WriteCall>, before: string, wire: string, finished: bool)
    requires Sendable(d) && Responded(before, wire, Returned(d.code, d.json), d.linger, calls, finished)
    ensures before <= wire && wire[|before|..] <= Bytes(d)
    ensures finished == Delivered(calls, Split(d)).finished
    ensures if finished then wire == before + Bytes(d) else wire[|before|..] != Bytes(d)
  {
    hide Wire, ReplyFor, ReadResponse, Delivered, ResponseWriter.PartsOf;
    var response := Bytes(d);
    var p := Delivered(calls, Split(d));
    assert wire[|before|..] == response[..p.sent];
    assert response[..|response|] == response;
  }

  /** The served exchanges' responses in order, then `partial`; and a client that reads as many responses
      as were served gets the answers to its requests, in order. */
  ghost predicate Shows(before: string, wire: string, ds: seq<Due>, partial: string) {
    && AllSendable(ds) && wire == before + Transcript(ds) + partial
    && ReadMany(HTTP, wire[|before|..], |ds|) == Some(Reading(Contents(ds), partial))
  }

  lemma ShowsIntro(before: string, wire: string, ds: seq<Due>, partial: string)
    requires AllSendable(ds) && wire == before + Transcript(ds) + partial
    ensures Shows(before, wire, ds, partial)
  {
    hide ReadMany, Transcript, Contents;
    TranscriptReadsBack(ds, partial);
    assert wire == before + (Transcript(ds) + partial);
    assert wire[|before|..] == Transcript(ds) + partial;
  }

  /** `text` begins the response `d`, which is not complete. */
  ghost predicate Begins(text: string, d: Due) { Sendable(d) && text <= Bytes(d) && text != Bytes(d) }

  /** The request is complete, and the socket takes all of the response. */
  ghost predicate Completes(x: Exchange) {
    Decided(x) && Sendable(DueFor(x)) && Delivered(x.calls, Split(DueFor(x))).finished
  }

  /** `due` answers the first exchanges, all but perhaps the last of which keep the connection. */
  ghost predicate Follows(xs: seq<Exchange>, due: seq<Due>) {
    && |due| <= |xs|
    && (forall i :: 0 <= i < |due| ==> Decided(xs[i]) && due[i] == DueFor(xs[i]))
    && (forall i :: 0 <= i < |due| - 1 ==> due[i].linger)
  }

  /** `partial` was sent in reply to `x`: nothing if the request is incomplete or too long. */
  ghost predicate PartOf(x: Exchange, partial: string) {
    if Decided(x) then Begins(partial, DueFor(x)) else partial == ""
  }

  /** Where a session may stop: behind the last exchange, behind a response that closes the connection,
      or in an exchange that does not complete, of whose response `partial` was sent. */
  ghost predicate MayStop(xs: seq<Exchange>, due: seq<Due>, partial: string)
    requires |due| <= |xs|
  {
    || (partial == "" && (|due| == |xs| || (due != [] && !due[|due| - 1].linger)))
    || (|due| < |xs| && !Completes(xs[|due|]) && PartOf(xs[|due|], partial))
  }

  /** A whole session: the reads of a connection, in order, are taken request by request, until an
      exchange does not finish or does not keep the connection. The wire then shows the responses to the
      requests so found, in order, followed by a part of the response to the next one; and a client that
      reads as many responses as were served gets exactly those answers, in order. `due` are those
      responses. The session stops only at a request to close or at an exchange that does not
      complete. */
  method ServeAll(conn: Connection, input: seq<string>, turns: seq<Turn>)
    returns (served: nat, ghost due: seq<Due>, ghost partial: string)
    requires conn.AsNew()
    requires forall j :: 0 <= j < |turns| ==> Ordinary(ExchangeAt(input, turns, j))
    modifies conn.Repr()
    ensures served == |due| && Follows(Exchanges(input, turns), due) && MayStop(Exchanges(input, turns), due, partial)
    ensures Shows(old(conn.writer.wire), conn.writer.wire, due, partial)
  {
    hide Ordinary, Served, MayStop, Shows, Follows, Connection.AsNew, AllKeep, Starts, Exchanges, ExchangeAt;
    ghost var start := conn.writer.wire;
    served, due, partial := 0, [], "";
    var from := 0;
    NothingServed(input, turns, start);
    while served < |turns|
      invariant served == |due| <= |turns| && from == Starts(HTTP, input, served) && partial == ""
      invariant Served(input, turns, due, start, conn.writer.wire) && conn.AsNew() && AllKeep(due)
    {
      var taken, finished, keep;
      ghost var next;
      taken, finished, keep, next, partial := ServeOne(conn, input, turns, from, turns[served], due, start);
      if !finished {
        return;
      }
      due, served, from := next, served + 1, from + taken;
      if !keep {
        break;
      }
    }
    StopsBehind(input, turns, due, start, conn.writer.wire);
  }

  /** One exchange of a session, the one behind `due`. */
  method ServeOne(conn: Connection, input: seq<string>, turns: seq<Turn>, from: nat, turn: Turn, ghost due: seq<Due>, ghost start: string)
    returns (taken: nat, finished: bool, keep: bool, ghost next: seq<Due>, ghost partial: string)
    requires conn.AsNew() && |due| < |turns| && from == Starts(HTTP, input, |due|) && turn == turns[|due|]
    requires Ordinary(ExchangeAt(input, turns, |due|)) && AllKeep(due)
    requires Served(input, turns, due, start, conn.writer.wire)
    modifies conn.Repr()
    ensures !finished ==>
              && Follows(Exchanges(input, turns), due) && MayStop(Exchanges(input, turns), due, partial)
              && Shows(start, conn.writer.wire, due, partial)
    ensures finished ==>
              && partial == "" && |next| == |due| + 1 && Served(input, turns, next, start, conn.writer.wire)
              && from + taken == Starts(HTTP, input, |next|)
              && if keep then AllKeep(next) && conn.AsNew() else !next[|due|].linger
  {
    hide Ordinary, OutcomeOf, LingerOf, WellBehaved, Answer, Responded, Served, MayStop, Shows, Follows, Decided, DueFor, Fits;
    hide Seen, DoneAt, Connection.AsNew, Connection.Receiving, AllSendable, Exchanges, ExchangeAt, PartOf, Completes, Bytes, Split, Sendable, Delivered;
    ghost var x, mid := ExchangeAt(input, turns, |due|), conn.writer.wire;
    ExchangeParts(input, turns, |due|);
    OrdinaryParts(x);
    var answer;
    next, partial := due, "";
    answer, taken, finished, keep := conn.Serve(input[from..], turn.handled, turn.calls);
    if finished {
      CountableDue(DueFor(x));
      Finished(x, mid, conn.writer.wire);
      ServedNext(input, turns, due, start, mid, conn.writer.wire);
      next := due + [DueFor(x)];
    } else {
      partial := Unfinished(x, mid, conn.writer.wire);
      StopsInside(input, turns, due, start, mid, partial);
    }
  }

  /** The exchanges behind `due` have been served in full. */
  ghost predicate Served(input: seq<string>, turns: seq<Turn>, due: seq<Due>, start: string, wire: string) {
    Follows(Exchanges(input, turns), due) && AllSendable(due) && wire == start + Transcript(due)
  }

  lemma NothingServed(input: seq<string>, turns: seq<Turn>, start: string)
    ensures Served(input, turns, [], start, start) && AllKeep([]) && Starts(HTTP, input, 0) == 0
  {
    assert start == start + "";
  }

  lemma ExchangeParts(input: seq<string>, turns: seq<Turn>, j: nat)
    requires j < |turns|
    ensures ExchangeAt(input, turns, j) == Exchange(input[Starts(HTTP, input, j)..], turns[j].handled, turns[j].calls)
    ensures |Exchanges(input, turns)| == |turns| && Exchanges(input, turns)[j] == ExchangeAt(input, turns, j)
  {}

  ghost predicate AllKeep(due: seq<Due>) { forall i :: 0 <= i < |due| ==> due[i].linger }

  lemma FollowsNext(xs: seq<Exchange>, due: seq<Due>)
    requires |due| < |xs| && AllKeep(due)
    ensures Follows(xs, due) && Decided(xs[|due|]) ==> Follows(xs, due + [DueFor(xs[|due|])])
  {
    hide Decided, DueFor;
  }

  lemma Associate(a: string, b: string, c: string)
    ensures a + b + c == a + (b + c)
  {}

  /** An exchange that finishes is served. */
  lemma ServedNext(input: seq<string>, turns: seq<Turn>, due: seq<Due>, start: string, mid: string, wire: string)
    requires |due| < |turns| && AllKeep(due)
    ensures var x := ExchangeAt(input, turns, |due|);
            Served(input, turns, due, start, mid) && Decided(x) && Sendable(DueFor(x)) && wire == mid + Bytes(DueFor(x)) ==>
            Served(input, turns, due + [DueFor(x)], start, wire)
  {
    hide Decided, DueFor, Bytes, Sendable, ExchangeAt, Exchanges, Transcript, Follows;
    var x := ExchangeAt(input, turns, |due|);
    ExchangeParts(input, turns, |due|);
    FollowsNext(Exchanges(input, turns), due);
    if AllSendable(due) && Decided(x) && Sendable(DueFor(x)) {
      TranscriptSnoc(due, DueFor(x));
      Associate(start, Transcript(due), Bytes(DueFor(x)));
    }
  }

  lemma Finished(x: Exchange, mid: string, wire: string)
    requires Decided(x) && Sendable(DueFor(x))
    requires Responded(mid, wire, Returned(DueFor(x).code, DueFor(x).json), DueFor(x).linger, x.calls, true)
    ensures wire == mid + Bytes(DueFor(x))
  {
    OneExchange(DueFor(x), x.calls, mid, wire, true);
  }

  /** What was sent in reply to an exchange that does not finish. */
  lemma Unfinished(x: Exchange, mid: string, wire: string) returns (partial: string)
    requires !Decided(x) ==> wire == mid
    requires Decided(x) ==>
               && Sendable(DueFor(x))
               && Responded(mid, wire, Returned(DueFor(x).code, DueFor(x).json), DueFor(x).linger, x.calls, false)
    ensures wire == mid + partial && PartOf(x, partial) && !Completes(x)
  {
    if Decided(x) {
      OneExchange(DueFor(x), x.calls, mid, wire, false);
      hide Decided, DueFor, Bytes, Split, Responded, Delivered, Sendable;
      partial := wire[|mid|..];
      assert mid == wire[..|mid|];
    } else {
      partial := "";
    }
  }

  lemma StopsInside(input: seq<string>, turns: seq<Turn>, due: seq<Due>, start: string, mid: string, partial: string)
    requires |due| < |turns|
    ensures var x := ExchangeAt(input, turns, |due|);
            Served(input, turns, due, start, mid) && PartOf(x, partial) && !Completes(x) ==>
            && Follows(Exchanges(input, turns), due) && MayStop(Exchanges(input, turns), due, partial)
            && Shows(start, mid + partial, due, partial)
  {
    hide PartOf, Completes, ExchangeAt, Exchanges, Transcript, Shows, Follows;
    ExchangeParts(input, turns, |due|);
    if AllSendable(due) && mid == start + Transcript(due) {
      ShowsIntro(start, mid + partial, due, partial);
    }
  }

  lemma StopsBehind(input: seq<string>, turns: seq<Turn>, due: seq<Due>, start: string, wire: string)
    requires |due| <= |turns| && (|due| == |turns| || (due != [] && !due[|due| - 1].linger))
    ensures Served(input, turns, due, start, wire) ==>
            && Follows(Exchanges(input, turns), due) && MayStop(Exchanges(input, turns), due, "")
            && Shows(start, wire, due, "")
  {
    hide PartOf, Completes, Transcript, Shows, Follows;
    if AllSendable(due) && wire == start + Transcript(due) {
      assert wire == start + Transcript(due) + "";
      ShowsIntro(start, wire, due, "");
    }
  }

  lemma CountableDue(d: Due)
    requires Sendable(d)
    ensures Countable(Returned(d.code, d.json))
  {}
}
