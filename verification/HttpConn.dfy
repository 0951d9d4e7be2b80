/** A client connection: its reader, its writer and what its descriptor is armed for. */
module HttpConn {
  import opened Runs
  import opened Text
  import opened HttpParser
  import opened HttpResponse
  import RequestReader
  import ResponseWriter

  /** What the descriptor is armed for; a delivered one-shot event disarms it. */
  datatype Interest = Disarmed | ForInput | ForOutput

  /** What a request handler did: a result code with a JSON text, or an exception. */
  datatype Handled = Returned(code: Code, json: string) | Threw

  /** Each handler returns one of its own codes; nothing else is known about it. */
  ghost predicate WellBehaved(handled: Handler -> Handled) {
    forall h :: handled(h).Returned? ==> CanReturn(h, handled(h).code)
  }

  /** The code and JSON text process() goes on with. */
  function Answer(outcome: Outcome, handled: Handler -> Handled): Handled
    requires !outcome.NeedMore? && !outcome.Unspecified?
    ensures Answer(outcome, handled).Returned?
  {
    match outcome
    case BadRequest => Returned(BAD_REQUEST, "")
    case NoResource => Returned(NO_RESOURCE, "")
    case Call(h, _) =>
      if handled(h).Returned? then handled(h)
      else Returned(INTERNAL_ERROR, "{\"error\":\"internal server error\"}")
  }

  /** No outcome of process_read reaches the branch of process_write that refuses to print. */
  lemma AnswerIsPrintable(outcome: Outcome, handled: Handler -> Handled)
    requires WellBehaved(handled) && !outcome.NeedMore? && !outcome.Unspecified?
    ensures Printable(Answer(outcome, handled).code)
  {}

  /** Unknown routes and malformed requests get their own codes without a JSON text, an exception is an
      internal error, and otherwise the handler's result stands. */
  lemma AnswerSays(outcome: Outcome, handled: Handler -> Handled)
    requires !outcome.NeedMore? && !outcome.Unspecified?
    ensures outcome.NoResource? ==> Answer(outcome, handled) == Returned(NO_RESOURCE, "")
    ensures outcome.BadRequest? ==> Answer(outcome, handled) == Returned(BAD_REQUEST, "")
    ensures outcome.Call? && handled(outcome.handler).Returned? ==> Answer(outcome, handled) == handled(outcome.handler)
    ensures outcome.Call? && handled(outcome.handler).Threw? ==> Answer(outcome, handled).code == INTERNAL_ERROR
  {}

  /** One write() call as the kernel sees it: the results of its writev calls, and whether the socket
      then is full or broken. */
  type WriteCall = (seq<nat>, bool)

  ghost function GrandTotal(calls: seq<WriteCall>): nat {
    if calls == [] then 0 else ResponseWriter.Total(calls[0].0) + GrandTotal(calls[1..])
  }

  /** How far repeated write() calls get with what is left. */
  ghost function Delivered(calls: seq<WriteCall>, left: ResponseWriter.Parts): (p: ResponseWriter.Push)
    ensures p.sent <= left.All()
  {
    if calls == [] then ResponseWriter.Push(0, false)
    else
      var w := ResponseWriter.Written(calls[0].0, left);
      if w.finished || !calls[0].1 then w
      else
        var r := Delivered(calls[1..], left.Without(w.sent));
        ResponseWriter.Push(w.sent + r.sent, r.finished)
  }

  /** The same from call `i` on. */
  ghost function DeliveredFrom(calls: seq<WriteCall>, i: nat, left: ResponseWriter.Parts): (p: ResponseWriter.Push)
    requires i <= |calls|
    ensures p.sent <= left.All()
  {
    Delivered(calls[i..], left)
  }

  lemma DeliveredEnds(calls: seq<WriteCall>, left: ResponseWriter.Parts)
    ensures DeliveredFrom(calls, 0, left) == Delivered(calls, left)
    ensures DeliveredFrom(calls, |calls|, left) == ResponseWriter.Push(0, false)
  {
    assert calls[0..] == calls;
  }

  /** One write() call more. */
  lemma DeliveredStep(calls: seq<WriteCall>, i: nat, left: ResponseWriter.Parts)
    requires i < |calls|
    ensures DeliveredFrom(calls, i, left) ==
            var w := ResponseWriter.Written(calls[i].0, left);
            if w.finished || !calls[i].1 then w
            else
              var r := DeliveredFrom(calls, i + 1, left.Without(w.sent));
              ResponseWriter.Push(w.sent + r.sent, r.finished)
  {
    hide ResponseWriter.Written;
    assert calls[i..][0] == calls[i] && calls[i..][1..] == calls[i + 1..];
  }

  /** For a response with a countable body: finished exactly when all of it is out, and without a broken
      socket exactly as much is out as the socket took. */
  lemma {:induction false} DeliveredExact(calls: seq<WriteCall>, left: ResponseWriter.Parts)
    requires ResponseWriter.Countable(left) && 0 < left.All()
    ensures Delivered(calls, left).finished <==> Delivered(calls, left).sent == left.All()
    ensures (forall c :: c in calls ==> c.1) ==>
              Delivered(calls, left).sent == ResponseWriter.Min(GrandTotal(calls), left.All())
    decreases |calls|
  {
    if calls != [] {
      assert calls[0] in calls;
      ResponseWriter.PushedExact(calls[0].0, left);
      var w := ResponseWriter.Written(calls[0].0, left);
      if !w.finished {
        DeliveredExact(calls[1..], left.Without(w.sent));
      }
    }
  }

  lemma LeftToSend(counts: seq<nat>, left: ResponseWriter.Parts)
    requires ResponseWriter.Countable(left) && 0 < left.All()
    ensures ToInt32(left.All()) != 0
    ensures var w := ResponseWriter.Written(counts, left);
            !w.finished ==> w.sent < left.All() && ResponseWriter.Countable(left.Without(w.sent)) && 0 < left.Without(w.sent).All()
  {
    ResponseWriter.PushedExact(counts, left);
  }

  class Connection {
    const reader: RequestReader.Reader
    const writer: ResponseWriter.Writer
    var armed: Interest

    ghost function Repr(): set<object> {
      {this, reader, reader.readBuf, writer, writer.writeBuf}
    }

    /** Receiving: the reader is ready to resume and nothing is being sent. */
    ghost predicate Receiving()
      reads Repr()
    {
      reader.readBuf != writer.writeBuf && reader.Valid() && writer.Idle() && writer.json == ""
    }

    /** As after init(): waiting for a request of which nothing has been received. */
    ghost predicate AsNew()
      reads Repr()
    {
      Receiving() && reader.stream == "" && reader.Abs() == INITIAL && armed == ForInput
    }

    /** Replying: a response is in flight. */
    ghost predicate Replying()
      reads Repr()
    {
      && reader.readBuf != writer.writeBuf && reader.readBuf.Length == READ_BUFFER_SIZE
      && writer.InRange() && writer.Sending()
    }

    constructor ()
      ensures AsNew()
      ensures fresh(Repr())
    {
      reader := new RequestReader.Reader();
      writer := new ResponseWriter.Writer();
      armed := ForInput;
    }

    /** process() once the request is decided: print the response and arm for output last. It never
        takes the path that closes the connection. */
    method Respond(code: Code, json: string) returns (closed: bool)
      requires reader.readBuf != writer.writeBuf && reader.readBuf.Length == READ_BUFFER_SIZE && writer.Idle()
      requires Printable(code)
      modifies writer, writer.writeBuf, this`armed
      ensures !closed && Replying() && writer.Remaining() != "" && armed == ForOutput
      ensures writer.wire == old(writer.wire)
      ensures writer.response == writer.Remaining() == Wire(ReplyFor(code, json), reader.request.linger)
      ensures writer.Left() == ResponseWriter.PartsOf(ReplyFor(code, json), reader.request.linger)
    {
      hide ReplyFor, Wire, ResponseWriter.PartsOf;
      writer.json := json;
      var written := writer.ProcessWrite(code, reader.request.linger);
      closed := !written;
      assert writer.wire[writer.mark..] == "";
      assert "" + writer.Remaining() == writer.Remaining();
      WireNotEmpty(ReplyFor(code, json), reader.request.linger);
      armed := ForOutput;
    }

    /** process(): parse, call the handler, print, and re-arm as the last step. It pauses only to
        read more; every other specified outcome leaves a complete response behind. */
    method Process(handled: Handler -> Handled) returns (outcome: Outcome, answer: Handled, closed: bool)
      requires Receiving() && reader.readIndex < READ_BUFFER_SIZE && armed == Disarmed && WellBehaved(handled)
      modifies Repr()
      ensures outcome == HttpParser.ProcessRead(HTTP, old(reader.stream), old(reader.Abs()))
      ensures !closed && reader.Abs() == HeaderPhase(HTTP, old(reader.stream), old(reader.Abs())).parser
      ensures outcome.NoResource? ==> answer == Returned(NO_RESOURCE, "")
      ensures outcome.BadRequest? ==> answer == Returned(BAD_REQUEST, "")
      ensures outcome.Call? && handled(outcome.handler).Returned? ==> answer == handled(outcome.handler)
      ensures outcome.Call? && handled(outcome.handler).Threw? ==> answer.Returned? && answer.code == INTERNAL_ERROR
      ensures outcome.NeedMore? ==>
                Receiving() && armed == ForInput && reader.stream == old(reader.stream) && writer.wire == old(writer.wire)
      ensures !outcome.NeedMore? && !outcome.Unspecified? ==>
                && answer == Answer(outcome, handled) && answer.Returned? && Printable(answer.code)
                && Replying() && writer.Remaining() != "" && armed == ForOutput && writer.wire == old(writer.wire)
                && reader.request.linger == HeaderPhase(HTTP, old(reader.stream), old(reader.Abs())).parser.fields.linger
                && writer.response == writer.Remaining()
                                   == Wire(ReplyFor(answer.code, answer.json), reader.request.linger)
                && writer.Left() == ResponseWriter.PartsOf(ReplyFor(answer.code, answer.json), reader.request.linger)
    {
      hide HttpParser.ProcessRead, HeaderPhase, ReplyFor, Wire, ResponseWriter.PartsOf, WellBehaved, Answer;
      outcome := reader.ProcessRead();
      answer, closed := Threw, false;
      if outcome.NeedMore? {
        armed := ForInput;
      } else if !outcome.Unspecified? {
        answer := Answer(outcome, handled);
        AnswerIsPrintable(outcome, handled);
        AnswerSays(outcome, handled);
        closed := Respond(answer.code, answer.json);
      }
    }

    /** write(): the response goes on exactly where it stopped. The call re-arms for input exactly
        when it declares the response finished, for output exactly when the socket is full before. */
    method Write(counts: seq<nat>, full: bool) returns (ok: bool)
      requires Replying() && armed == Disarmed
      modifies Repr()
      ensures old(writer.Left()).All() == |old(writer.Remaining())|
      ensures var todo, left, w := old(writer.Remaining()), old(writer.Left()), ResponseWriter.Written(counts, old(writer.Left()));
              && ResponseWriter.Sent(old(writer.wire), writer.wire, todo, w.sent, ResponseWriter.Rest(todo, w.sent))
              && (armed == ForInput <==> w.finished)
              && (armed == ForOutput <==> !w.finished && full)
              && (w.finished && ok ==> AsNew())
              && (!w.finished ==> Replying() && writer.Remaining() == ResponseWriter.Rest(todo, w.sent)
                                  && writer.Left() == left.Without(w.sent) && reader.request == old(reader.request))
              && (w.finished ==> (ok <==> ToInt32(left.All()) == 0 || old(reader.request.linger)))
      ensures armed == ForOutput ==> ok
      ensures armed == Disarmed ==> !ok
    {
      hide ToInt32, ResponseWriter.Gather, ResponseWriter.Parts.Without;
      ghost var todo, start, left := writer.Remaining(), writer.wire, writer.Left();
      ResponseWriter.GatherLength(writer.writeBuf[..], writer.json, writer.iov0, writer.iov1, writer.iovCount);
      if ToInt32(writer.Left().All()) == 0 {
        armed := ForInput;
        ResponseWriter.NothingSent(start, todo);
        ResponseWriter.WhatIsLeft(start, start, todo, 0, todo);
        reader.Reset();
        writer.Reset();
        return true;
      }
      var r := writer.Flush(counts, full);
      ResponseWriter.WhatIsLeft(start, writer.wire, todo, ResponseWriter.Pushed(counts, left).sent, writer.Remaining());
      match r {
        case Finished =>
          armed := ForInput;
          if reader.request.linger {
            reader.Reset();
            writer.Reset();
            return true;
          }
          return false;
        case Paused =>
          armed := ForOutput;
          return true;
        case Broken =>
          return false;
      }
    }

    /** Repeated write() calls, one for each writable event. Over any sequence of short writes and
        pauses the client receives a prefix of the response, never a byte twice or out of order, and a
        finished keep-alive response leaves the connection as new. `keep` is the last call's result. */
    method Deliver(calls: seq<WriteCall>) returns (finished: bool, keep: bool)
      requires Replying() && writer.response == writer.Remaining()
      modifies Repr()
      ensures old(writer.Left()).All() == |old(writer.response)|
      ensures var whole, p := old(writer.response), Delivered(calls, old(writer.Left()));
              && ResponseWriter.Sent(old(writer.wire), writer.wire, whole, p.sent, ResponseWriter.Rest(whole, p.sent))
              && finished == p.finished
      ensures finished && old(reader.request.linger) ==> keep
      ensures finished && keep ==> AsNew()
      ensures finished && ResponseWriter.Countable(old(writer.Left())) && 0 < old(writer.Left()).All() ==>
                (keep <==> old(reader.request.linger))
    {
      hide ResponseWriter.Writer.Sending, ResponseWriter.Writer.Remaining, ResponseWriter.Written, ResponseWriter.Sent, ResponseWriter.Rest;
      hide AsNew, ToInt32, Delivered, DeliveredFrom, ResponseWriter.Parts.Without, ResponseWriter.Countable, ResponseWriter.Writer.Left;
      RemainingSize();
      ghost var whole, start, all := writer.response, writer.wire, writer.Left();
      ghost var sent: nat := 0;
      var i := 0;
      ghost var goal := Delivered(calls, all);
      DeliveredEnds(calls, all);
      ResponseWriter.NothingSent(start, whole);
      ResponseWriter.WithoutNone(all);
      while i < |calls|
        invariant i <= |calls| && Replying() && sent <= |whole| == all.All()
        invariant reader.request == old(reader.request)
        invariant ResponseWriter.Sent(start, writer.wire, whole, sent, writer.Remaining())
        invariant writer.Left() == all.Without(sent) && writer.Left().All() == all.All() - sent
        invariant ResponseWriter.Countable(all) && 0 < all.All() ==>
                    ResponseWriter.Countable(writer.Left()) && 0 < writer.Left().All()
        invariant goal.sent == sent + DeliveredFrom(calls, i, writer.Left()).sent
        invariant goal.finished == DeliveredFrom(calls, i, writer.Left()).finished
      {
        ghost var left, mid, rest := writer.Left(), writer.wire, writer.Remaining();
        DeliveredStep(calls, i, left);
        armed := Disarmed;
        ghost var k := ResponseWriter.Written(calls[i].0, left).sent;
        if ResponseWriter.Countable(all) && 0 < all.All() {
          LeftToSend(calls[i].0, left);
        }
        var ok := Write(calls[i].0, calls[i].1);
        ResponseWriter.SentMore(start, mid, whole, sent, rest, writer.wire, k, ResponseWriter.Rest(rest, k));
        ResponseWriter.WithoutMore(all, sent, k);
        sent := sent + k;
        ResponseWriter.WithoutSize(all, sent);
        ResponseWriter.WhatIsLeft(start, writer.wire, whole, sent, ResponseWriter.Rest(rest, k));
        if armed == ForInput {
          return true, ok;
        }
        if !ok {
          return false, false;
        }
        i := i + 1;
      }
      DeliveredEnds(calls, writer.Left());
      ResponseWriter.WhatIsLeft(start, writer.wire, whole, sent, writer.Remaining());
      return false, true;
    }

    lemma RemainingSize()
      requires writer.InRange()
      ensures writer.Left().All() == |writer.Remaining()|
    {
      ResponseWriter.GatherLength(writer.writeBuf[..], writer.json, writer.iov0, writer.iov1, writer.iovCount);
    }

    /** The reads of one request, each followed by process(), until it is decided: `taken` of them. However
        the request is split into reads, it is decided on the bytes received when its headers are
        complete. If those do not fit the read buffer, a read fails before and the connection is
        dropped. */
    method Receive(chunks: seq<string>, handled: Handler -> Handled)
      returns (outcome: Outcome, answer: Handled, taken: nat, dropped: bool)
      requires AsNew()
      requires WellBehaved(handled)
      modifies Repr()
      ensures dropped <==> READ_BUFFER_SIZE <= |Seen(HTTP, chunks)|
      ensures dropped ==> writer.wire == old(writer.wire)
      ensures !dropped ==> outcome == OutcomeOf(chunks) && taken == DoneAt(HTTP, chunks, 0)
      ensures !dropped && outcome.NeedMore? ==> Receiving() && armed == ForInput && writer.wire == old(writer.wire)
      ensures !dropped && !outcome.NeedMore? && !outcome.Unspecified? ==>
                && answer == Answer(outcome, handled) && answer.Returned? && Printable(answer.code)
                && Replying() && armed == ForOutput && writer.wire == old(writer.wire)
                && reader.request.linger == LingerOf(chunks)
                && writer.response == writer.Remaining() == Wire(ReplyFor(answer.code, answer.json), LingerOf(chunks))
                && writer.Left() == ResponseWriter.PartsOf(ReplyFor(answer.code, answer.json), LingerOf(chunks))
    {
      hide HeaderPhase, HttpParser.ProcessRead, BodyOutcome, WellBehaved, Answer, ReplyFor, Wire, DoneAt;
      hide ResponseWriter.Writer.Sending, ResponseWriter.Writer.Remaining, ResponseWriter.PartsOf;
      hide RequestReader.Shows, RequestReader.Represents, NoBreaks;
      outcome, answer, taken, dropped := NeedMore, Threw, 0, false;
      ghost var start := writer.wire;
      NothingReceived(HTTP);
      while taken < |chunks|
        invariant taken <= |chunks| && Receiving() && armed == ForInput && writer.wire == start
        invariant reader.stream == Flatten(chunks[..taken]) && Ready(reader.stream, INITIAL)
        invariant |reader.stream| < READ_BUFFER_SIZE && !dropped
        invariant HeaderPhase(HTTP, reader.stream, INITIAL) == Progress(reader.Abs(), More)
        invariant outcome == NeedMore && DoneAt(HTTP, chunks, taken) == DoneAt(HTTP, chunks, 0)
      {
        NextChunk(HTTP, chunks, taken, reader.Abs());
        OutcomeAfter(HTTP, chunks, taken, reader.Abs());
        FlattenGrows(chunks, taken + 1, DoneAt(HTTP, chunks, 0));
        armed := Disarmed;
        var ok := reader.Read(chunks[taken], RequestReader.WouldBlock);
        if !ok {
          dropped := true;
          return;
        }
        taken := taken + 1;
        var closed;
        outcome, answer, closed := Process(handled);
        if outcome != NeedMore {
          return;
        }
      }
      DoneNext(HTTP, chunks, taken);
      UndecidedOutcome(HTTP, reader.stream, reader.Abs());
    }

    /** From request to response: for every sequence of reads, every well-behaved handler and every
        sequence of short writes and pauses, the request takes the reads up to the one that completes its
        headers; the bytes sent are a prefix of the response to what had been received then; once it is
        declared finished a client reads exactly its status, persistence and body; and nothing at all is
        sent before. By SplitOutcome that is the response to the whole request exactly when no body is
        cut off. Reads that were not taken belong to what the connection does next. */
    method Serve(chunks: seq<string>, handled: Handler -> Handled, calls: seq<WriteCall>)
      returns (answer: Handled, taken: nat, finished: bool, keep: bool)
      requires AsNew()
      requires WellBehaved(handled)
      modifies Repr()
      ensures READ_BUFFER_SIZE <= |Seen(HTTP, chunks)| ==> !finished && !keep && writer.wire == old(writer.wire)
      ensures |Seen(HTTP, chunks)| < READ_BUFFER_SIZE ==>
              var outcome, linger := OutcomeOf(chunks), LingerOf(chunks);
              && taken == DoneAt(HTTP, chunks, 0)
              && (outcome.NeedMore? ==> !finished && writer.wire == old(writer.wire) && Receiving() && armed == ForInput)
              && (!outcome.NeedMore? && !outcome.Unspecified? ==>
                    && answer == Answer(outcome, handled) && Printable(answer.code)
                    && Responded(old(writer.wire), writer.wire, answer, linger, calls, finished)
                    && (finished && linger ==> keep)
                    && (finished && Countable(answer) ==> (keep <==> linger))
                    && (finished && keep ==> AsNew()))
    {
      hide OutcomeOf, LingerOf, WellBehaved, Answer, ReplyFor, Wire, Responded, Delivered, ResponseWriter.Sent, ResponseWriter.Rest;
      hide Seen, DoneAt, ResponseWriter.PartsOf, ResponseWriter.Countable;
      ghost var start := writer.wire;
      var outcome, dropped;
      outcome, answer, taken, dropped := Receive(chunks, handled);
      finished, keep := false, !dropped;
      if !dropped && outcome != NeedMore && outcome != Unspecified {
        ghost var linger := LingerOf(chunks);
        if Countable(answer) {
          ResponseCountable(answer, linger);
        }
        finished, keep := Deliver(calls);
        RespondedIntro(start, writer.wire, answer, linger, calls, finished);
      }
    }
  }

  /** What the server decides for a request that arrives in these chunks, and whether it will keep the
      connection. */
  ghost function OutcomeOf(chunks: seq<string>): Outcome { HttpParser.ProcessRead(HTTP, Seen(HTTP, chunks), INITIAL) }

  ghost function LingerOf(chunks: seq<string>): bool {
    HeaderPhase(HTTP, Seen(HTTP, chunks), INITIAL).parser.fields.linger
  }

  lemma UndecidedOutcome(g: Grammar, s: string, p: Parser)
    requires Ready(s, INITIAL) && HeaderPhase(g, s, INITIAL) == Progress(p, More)
    ensures HttpParser.ProcessRead(g, s, INITIAL) == NeedMore
  {
    hide HeaderPhase;
  }

  /** An answer whose body an `int` can count. */
  predicate Countable(a: Handled) { a.Returned? && |a.json| <= INT_MAX }

  /** What the wire shows of a response after some write() calls, and what a client makes of it. */
  ghost predicate Responded(before: string, wire: string, a: Handled, linger: bool, calls: seq<WriteCall>, finished: bool)
    requires a.Returned? && Printable(a.code)
  {
    var r := ReplyFor(a.code, a.json);
    var response := Wire(r, linger);
    var p := Delivered(calls, ResponseWriter.PartsOf(r, linger));
    && p.sent <= |response|
    && ResponseWriter.Sent(before, wire, response, p.sent, ResponseWriter.Rest(response, p.sent))
    && finished == p.finished
    && (Countable(a) ==>
          && (finished <==> p.sent == |response|)
          && (finished ==> before <= wire && ReadResponse(HTTP, wire[|before|..]) == Some(Message(r.status, linger, r.body, ""))))
  }

  lemma RespondedIntro(before: string, wire: string, a: Handled, linger: bool, calls: seq<WriteCall>, finished: bool)
    requires a.Returned? && Printable(a.code)
    requires var response := Wire(ReplyFor(a.code, a.json), linger);
             var p := Delivered(calls, ResponseWriter.PartsOf(ReplyFor(a.code, a.json), linger));
             && p.sent <= |response| && finished == p.finished
             && ResponseWriter.Sent(before, wire, response, p.sent, ResponseWriter.Rest(response, p.sent))
    ensures Responded(before, wire, a, linger, calls, finished)
  {
    hide ReplyFor, Wire, Delivered, ReadResponse, ResponseWriter.PartsOf, ResponseWriter.Countable;
    var r := ReplyFor(a.code, a.json);
    if Countable(a) {
      ResponseCountable(a, linger);
      DeliveredExact(calls, ResponseWriter.PartsOf(r, linger));
      if finished {
        ClientReads(a.code, a.json, linger, before, wire, "");
      }
    }
  }

  lemma ResponseCountable(a: Handled, linger: bool)
    requires Countable(a) && Printable(a.code)
    ensures var r := ReplyFor(a.code, a.json);
            var left := ResponseWriter.PartsOf(r, linger);
            ResponseWriter.Countable(left) && 0 < left.All() == |Wire(r, linger)|
  {
    hide ReplyFor;
    EveryReplyFits(a.code, a.json, linger);
    ReplyShape(a.code, a.json);
  }

  /** What process_read answers to the next read, in terms of the whole split. */
  lemma OutcomeAfter(g: Grammar, chunks: seq<string>, i: nat, p: Parser)
    requires i < |chunks| && HeaderPhase(g, Flatten(chunks[..i]), INITIAL) == Progress(p, More)
    ensures var s, whole := Flatten(chunks[..i + 1]), HeaderPhase(g, Flatten(chunks), INITIAL);
            && Ready(s, p)
            && var outcome := HttpParser.ProcessRead(g, s, p);
            && (outcome.NeedMore? <==> HeaderPhase(g, s, p).event.More?)
            && (outcome.NeedMore? ==> HeaderPhase(g, s, INITIAL) == HeaderPhase(g, s, p))
            && (outcome.NeedMore? ==> DoneAt(g, chunks, i) == DoneAt(g, chunks, i + 1))
            && (!outcome.NeedMore? ==>
                  && HeaderPhase(g, s, p) == whole == HeaderPhase(g, s, INITIAL) && DoneAt(g, chunks, i) == i + 1
                  && outcome == HttpParser.ProcessRead(g, s, INITIAL))
  {
    hide HeaderPhase, BodyOutcome, DoneAt;
    NextChunk(g, chunks, i, p);
    DoneNext(g, chunks, i);
    DoneNext(g, chunks, i + 1);
    BodyPhaseNeverPauses(g, Flatten(chunks[..i + 1]), p);
  }

  lemma ClientReads(code: Code, json: string, linger: bool, before: string, wire: string, rest: string)
    requires Printable(code) && |json| <= INT_MAX
    requires var response := Wire(ReplyFor(code, json), linger);
             ResponseWriter.Sent(before, wire, response, |response|, rest)
    ensures before <= wire
    ensures ReadResponse(HTTP, wire[|before|..])
            == Some(Message(ReplyFor(code, json).status, linger, ReplyFor(code, json).body, ""))
  {
    hide Wire, ReadResponse, ReplyFor;
    var response := Wire(ReplyFor(code, json), linger);
    assert wire[|before|..] == response == response + "";
    ResponseReadsBack(code, json, linger, "");
  }

  lemma WireNotEmpty(r: Reply, linger: bool)
    ensures Wire(r, linger) != ""
  {}
}
