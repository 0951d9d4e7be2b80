/** What the incremental request parser of http_conn computes, as functions of the bytes received.

    The connection object parses in place and resumes at every read; here its result is described
    on the untouched byte stream, and shown not to depend on how the stream was cut into reads. */
module HttpParser {
  import opened Runs
  import opened Text

  const READ_BUFFER_SIZE: nat := 65536

  datatype Method = GET | POST | HEAD | PUT | DELETE
  datatype Phase = RequestLine | Header | Content
  datatype LineStatus = LineOk | LineBad | LineOpen
  datatype Handler =
    | Register | Login | Logout | GetResources | DeleteResource | PostResource | PutResource
    | UploadUrl | DownloadUrl | Health

  /** The parsed fields of a request; `url`, `version` and `host` are C strings or null. */
  datatype Fields = Fields(
    verb: Method, url: Option<string>, version: Option<string>, host: Option<string>,
    contentLength: int, linger: bool, token: string, route: int)

  /** Parser state: the two cursors, the phase and the fields. */
  datatype Parser = Parser(phase: Phase, checked: nat, start: nat, fields: Fields)

  const INITIAL: Parser := Parser(RequestLine, 0, 0, Fields(GET, None, None, None, 0, true, "", 0))

  // ---- one line ----

  predicate NoBreaks(s: string, from: nat, to: nat)
    requires from <= to <= |s|
  {
    forall k :: from <= k < to ==> s[k] != CR && s[k] != LF
  }

  datatype Scan = Scan(status: LineStatus, next: nat)

  /** Where scanning for a CRLF from `i` stops, and why. */
  function ScanLine(s: string, i: nat): (r: Scan)
    requires i <= |s|
    ensures i <= r.next <= |s|
    ensures r.status.LineOk? ==>
              i + 2 <= r.next && s[r.next - 2] == CR && s[r.next - 1] == LF && NoBreaks(s, i, r.next - 2)
    ensures !r.status.LineOk? ==> NoBreaks(s, i, r.next)
    ensures r.status.LineOpen? ==> r.next == |s| || (r.next == |s| - 1 && s[r.next] == CR)
    decreases |s| - i
  {
    if i == |s| then Scan(LineOpen, i)
    else if s[i] == CR then
      if i + 1 == |s| then Scan(LineOpen, i)
      else if s[i + 1] == LF then Scan(LineOk, i + 2)
      else Scan(LineBad, i)
    else if s[i] == LF then Scan(LineBad, i)
    else ScanLine(s, i + 1)
  }

  /** parse_line exactly as written, on the buffer it overwrites: the scan looks only at the first
      `n` bytes, and a terminated line has its two end bytes replaced by terminators. */
  datatype RawScan = RawScan(status: LineStatus, next: nat, buffer: string)

  function RawParseLine(b: string, i: nat, n: nat): (r: RawScan)
    requires i <= n <= |b|
    ensures |r.buffer| == |b| && i <= r.next <= n
    decreases n - i
  {
    if i == n then RawScan(LineOpen, i, b)
    else if b[i] == CR then
      if i + 1 == n then RawScan(LineOpen, i, b)
      else if b[i + 1] == LF then RawScan(LineOk, i + 2, b[i := NUL][i + 1 := NUL])
      else RawScan(LineBad, i, b)
    else if b[i] == LF then
      if i > 1 && b[i - 1] == CR then RawScan(LineOk, i + 1, b[i - 1 := NUL][i := NUL])
      else RawScan(LineBad, i, b)
    else RawParseLine(b, i + 1, n)
  }

  /** The buffer still shows the stream from the current line on, nothing scanned so far in that
      line is a line end, and the byte before the line is not a CR. */
  ghost predicate LineInvariant(b: string, s: string, start: nat, checked: nat) {
    && start <= checked <= |s| <= |b|
    && (forall k :: start <= k < |s| ==> b[k] == s[k])
    && NoBreaks(s, start, checked)
    && (start > 0 ==> b[start - 1] != CR)
  }

  lemma {:induction false} RawScanAgrees(b: string, s: string, start: nat, checked: nat)
    requires LineInvariant(b, s, start, checked)
    ensures var raw, scan := RawParseLine(b, checked, |s|), ScanLine(s, checked);
            raw.status == scan.status && raw.next == scan.next &&
            raw.buffer == if scan.status.LineOk? then b[scan.next - 2 := NUL][scan.next - 1 := NUL] else b
    decreases |s| - checked
  {
    if checked < |s| && s[checked] != CR && s[checked] != LF {
      RawScanAgrees(b, s, start, checked + 1);
    }
  }

  lemma LineFeedBranchDead(b: string, s: string, start: nat, checked: nat)
    requires LineInvariant(b, s, start, checked)
    ensures forall i :: checked <= i < |s| && NoBreaks(s, checked, i) && b[i] == LF ==> !(i > 1 && b[i - 1] == CR)
  {}

  /** Under the parser's invariant the in-place scanner is the pure one, and the branch for an LF
      that follows an already consumed CR is never taken. */
  lemma RawParseLineIsScan(b: string, s: string, start: nat, checked: nat)
    requires LineInvariant(b, s, start, checked)
    ensures var raw, scan := RawParseLine(b, checked, |s|), ScanLine(s, checked);
            raw.status == scan.status && raw.next == scan.next &&
            raw.buffer == if scan.status.LineOk? then b[scan.next - 2 := NUL][scan.next - 1 := NUL] else b
    ensures forall i :: checked <= i < |s| && NoBreaks(s, checked, i) && b[i] == LF ==>
              !(i > 1 && b[i - 1] == CR)
  {
    RawScanAgrees(b, s, start, checked);
    LineFeedBranchDead(b, s, start, checked);
  }

  lemma {:induction false} ScanLinePrefix(s: string, t: string, i: nat)
    requires s <= t && i <= |s|
    ensures var scan := ScanLine(s, i);
            if scan.status.LineOpen? then ScanLine(t, i) == ScanLine(t, scan.next) else ScanLine(t, i) == scan
    decreases |s| - i
  {
    if i < |s| && s[i] != CR && s[i] != LF {
      ScanLinePrefix(s, t, i + 1);
    }
  }

  /** A scan that stops without a line stays where it is. */
  lemma {:induction false} ScanLineStable(s: string, i: nat)
    requires i <= |s| && !ScanLine(s, i).status.LineOk?
    ensures ScanLine(s, ScanLine(s, i).next) == ScanLine(s, i)
    decreases |s| - i
  {
    if i < |s| && s[i] != CR && s[i] != LF {
      ScanLineStable(s, i + 1);
    }
  }

  lemma {:induction false} ScanLineCut(s: string, t: string, i: nat)
    requires s <= t && i <= |t| && ScanLine(t, i).status.LineOk? && ScanLine(t, i).next <= |s|
    ensures ScanLine(s, i) == ScanLine(t, i)
    decreases |s| - i
  {
    if t[i] != CR && t[i] != LF {
      ScanLineCut(s, t, i + 1);
    }
  }

  // ---- the request line and the headers ----

  /** An unknown method word leaves the current method in place. */
  function VerbOf(word: string, current: Method): Method {
    if SameIgnoringCase(word, "POST") then POST
    else if SameIgnoringCase(word, "PUT") then PUT
    else if SameIgnoringCase(word, "GET") then GET
    else if SameIgnoringCase(word, "DELETE") then DELETE
    else current
  }

  /** The route marker; later tests in the source override earlier ones. */
  function RouteOf(url: string, current: int): int {
    if url == "/health" then 7
    else if "/api/files/download-url" <= url then 6
    else if "/api/files/upload-url" <= url then 5
    else if "/api/register" <= url then 4
    else if "/api/logout" <= url then 3
    else if "/api/login" <= url then 2
    else if "/api/resources" <= url then 1
    else current
  }

  datatype Parsed = Parsed(fields: Fields, ok: bool)

  function ParseRequestLine(text: string, f: Fields): Parsed {
    var i := FirstBlank(text);
    if i == |text| then Parsed(f.(url := None), false)
    else ParseTarget(text[i + 1..], f.(verb := VerbOf(text[..i], f.verb)))
  }

  /** What follows the method: the target, a blank, and the protocol version. */
  function ParseTarget(rest: string, f: Fields): Parsed {
    var j := FirstBlank(rest);
    if j == |rest| then Parsed(f.(url := Some(rest), version := None), false)
    else
      var url, version := rest[..j], rest[j + 1..];
      var split := f.(url := Some(url), version := Some(version));
      if !SameIgnoringCase(version, "HTTP/1.1") then Parsed(split, false)
      else NormaliseTarget(url, split.(route := RouteOf(url, f.route)))
  }

  /** Absolute-form targets lose scheme and authority; every target must then start with a slash. */
  function NormaliseTarget(url: string, f: Fields): Parsed {
    if StartsIgnoringCase(url, "http://") then
      var slash := IndexOf(url[7..], '/');
      if slash == |url[7..]| then Parsed(f.(url := None), false)
      else Parsed(f.(url := Some(url[7..][slash..])), true)
    else Parsed(f, url != [] && url[0] == '/')
  }

  /** The value after a header name of length `k`, without leading blanks. */
  function HeaderValue(text: string, k: nat): string
    requires k <= |text|
  {
    text[k..][LeadingBlanks(text[k..])..]
  }

  function ParseHeader(text: string, f: Fields): Fields {
    if StartsIgnoringCase(text, "Connection:") then
      var value := HeaderValue(text, 11);
      if SameIgnoringCase(value, "keep-alive") then f.(linger := true)
      else if SameIgnoringCase(value, "close") then f.(linger := false)
      else f
    else if StartsIgnoringCase(text, "Content-Length:") then
      f.(contentLength := ToInt32(Atol(HeaderValue(text, 15))))
    else if StartsIgnoringCase(text, "Host:") then
      f.(host := Some(HeaderValue(text, 5)))
    else if StartsIgnoringCase(text, "Authorization:") then
      var value := HeaderValue(text, 14);
      if "Bearer " <= value then f.(token := value[7..]) else f
    else f
  }

  /** How the request-line and header phase can end: more bytes needed, or one of its four results. */
  datatype Event = More | Rejected | NotFound | Dispatch(handler: Handler) | Body

  function HeadersDone(f: Fields): Event { Dispatcher(f.verb, f.route, f.contentLength) }

  /** The blank line: routes without a body are dispatched at once. */
  function Dispatcher(verb: Method, route: int, contentLength: int): Event {
    if route == 1 && verb == DELETE then Dispatch(DeleteResource)
    else if route == 1 && verb == GET then Dispatch(GetResources)
    else if verb == POST && 2 <= route <= 5 then Body
    else if route == 6 && verb == GET then Dispatch(DownloadUrl)
    else if route == 7 && verb == GET then Dispatch(Health)
    else if contentLength != 0 then Body
    else NotFound
  }

  datatype Progress = Progress(parser: Parser, event: Event)

  /** What the lines mean. The results about cutting the stream hold for every grammar; the server's
      is HTTP. */
  datatype Grammar = Grammar(
    requestLine: (string, Fields) -> Parsed, header: (string, Fields) -> Fields, done: Fields -> Event)

  const HTTP: Grammar := Grammar(ParseRequestLine, ParseHeader, HeadersDone)

  predicate Ready(s: string, p: Parser) {
    p.phase != Content && p.start <= p.checked <= |s|
  }

  /** The text of the line that starts at `start` and whose CRLF ends at `next`. */
  function LineText(s: string, start: nat, next: nat): string
    requires start + 2 <= next <= |s|
  {
    UpToNul(s[start..next - 2])
  }

  /** One complete line ending at `next`, in the request-line or header phase. */
  function LineEffect(g: Grammar, phase: Phase, f: Fields, text: string, next: nat): (r: Progress)
    requires phase != Content
    ensures r.parser.checked == r.parser.start == next
    ensures r.parser.phase == Content <==> r.event.Body?
  {
    if phase == RequestLine then
      var r := g.requestLine(text, f);
      if r.ok then Progress(Parser(Header, next, next, r.fields), More)
      else Progress(Parser(phase, next, next, r.fields), Rejected)
    else if text == "" then
      var e := g.done(f);
      Progress(Parser(if e.Body? then Content else phase, next, next, f), e)
    else Progress(Parser(phase, next, next, g.header(text, f)), More)
  }

  /** The request-line and header phase on everything received so far, from parser state `p`. */
  function HeaderPhase(g: Grammar, s: string, p: Parser): (r: Progress)
    requires Ready(s, p)
    ensures p.checked <= r.parser.checked <= |s| && r.parser.start <= r.parser.checked
    ensures r.event.More? ==> Ready(s, r.parser)
    ensures r.event.Body? ==> r.parser.phase == Content && r.parser.start == r.parser.checked
    decreases |s| - p.checked
  {
    var scan := ScanLine(s, p.checked);
    if !scan.status.LineOk? then Progress(p.(checked := scan.next), More)
    else
      var line := LineEffect(g, p.phase, p.fields, LineText(s, p.start, scan.next), scan.next);
      if line.event.More? then HeaderPhase(g, s, line.parser) else line
  }

  lemma LineTextAgrees(s: string, t: string, start: nat, next: nat)
    requires s <= t && start + 2 <= next <= |s|
    ensures LineText(s, start, next) == LineText(t, start, next)
  {
    assert s[start..next - 2] == t[start..next - 2];
  }

  /** Parsing a prefix first changes nothing: a result it reaches is final, and a pause resumes. */
  lemma {:induction false} HeaderPhaseResumes(g: Grammar, s: string, t: string, p: Parser)
    requires s <= t && Ready(s, p)
    ensures var first := HeaderPhase(g, s, p);
            if first.event.More? then HeaderPhase(g, t, p) == HeaderPhase(g, t, first.parser)
            else HeaderPhase(g, t, p) == first
    decreases |s| - p.checked
  {
    hide LineText, LineEffect, NoBreaks;
    ScanLinePrefix(s, t, p.checked);
    if ScanLine(t, p.checked).status.LineBad? {
      ScanLineStable(t, p.checked);
    }
    var scan := ScanLine(s, p.checked);
    if scan.status.LineOk? {
      LineTextAgrees(s, t, p.start, scan.next);
      var line := LineEffect(g, p.phase, p.fields, LineText(s, p.start, scan.next), scan.next);
      if line.event.More? {
        HeaderPhaseResumes(g, s, t, line.parser);
      }
    }
  }

  function Flatten(chunks: seq<string>): string {
    if chunks == [] then [] else chunks[0] + Flatten(chunks[1..])
  }

  lemma {:induction false} FlattenSnoc(chunks: seq<string>, i: nat)
    requires i < |chunks|
    ensures Flatten(chunks[..i + 1]) == Flatten(chunks[..i]) + chunks[i]
    ensures Flatten(chunks[..i + 1]) <= Flatten(chunks)
    decreases i
  {
    assert chunks[..i + 1][1..] == chunks[1..][..i];
    if i == 0 {
      assert chunks[..1] == [chunks[0]];
    } else {
      assert chunks[..i][1..] == chunks[1..][..i - 1];
      FlattenSnoc(chunks[1..], i - 1);
    }
  }

  /** Serving reads one by one: each read appends a chunk and resumes, until a result is reached. */
  function RunChunks(g: Grammar, received: string, p: Parser, chunks: seq<string>): Progress
    requires Ready(received, p)
    decreases |chunks|
  {
    if chunks == [] then Progress(p, More)
    else
      var s := received + chunks[0];
      var r := HeaderPhase(g, s, p);
      if r.event.More? then RunChunks(g, s, r.parser, chunks[1..]) else r
  }

  /** One more read: the parser that paused on the earlier chunks goes on as if it had seen all of
      them at once, and a result it reaches is the result for the whole stream. */
  lemma NextChunk(g: Grammar, chunks: seq<string>, i: nat, p: Parser)
    requires i < |chunks| && HeaderPhase(g, Flatten(chunks[..i]), INITIAL) == Progress(p, More)
    ensures var s := Flatten(chunks[..i + 1]);
            && s == Flatten(chunks[..i]) + chunks[i] && s <= Flatten(chunks) && Ready(s, p)
            && HeaderPhase(g, s, p) == HeaderPhase(g, s, INITIAL)
            && (!HeaderPhase(g, s, p).event.More? ==> HeaderPhase(g, s, p) == HeaderPhase(g, Flatten(chunks), INITIAL))
  {
    hide HeaderPhase;
    FlattenSnoc(chunks, i);
    var s := Flatten(chunks[..i + 1]);
    HeaderPhaseResumes(g, Flatten(chunks[..i]), s, INITIAL);
    HeaderPhaseResumes(g, s, Flatten(chunks), INITIAL);
  }

  lemma NothingReceived(g: Grammar)
    ensures HeaderPhase(g, [], INITIAL) == Progress(INITIAL, More)
  {}

  /** Fragmentation independence: for every split of a byte stream into reads, the first result of
      the request-line and header phase and every parsed field equal those of one single read. */
  lemma FragmentationIndependence(g: Grammar, chunks: seq<string>)
    ensures RunChunks(g, [], INITIAL, chunks) == HeaderPhase(g, Flatten(chunks), INITIAL)
  {
    if chunks != [] {
      RunChunksIsWhole(g, [], INITIAL, chunks);
      assert [] + Flatten(chunks) == Flatten(chunks);
    }
  }

  lemma {:induction false} RunChunksIsWhole(g: Grammar, received: string, p: Parser, chunks: seq<string>)
    requires Ready(received, p) && chunks != []
    ensures Ready(received + Flatten(chunks), p)
    ensures RunChunks(g, received, p, chunks) == HeaderPhase(g, received + Flatten(chunks), p)
    decreases |chunks|
  {
    var s := received + chunks[0];
    var whole := received + Flatten(chunks);
    assert whole == s + Flatten(chunks[1..]);
    HeaderPhaseResumes(g, s, whole, p);
    var r := HeaderPhase(g, s, p);
    if chunks[1..] == [] {
      assert whole == s;
      if r.event.More? {
        assert RunChunks(g, s, r.parser, chunks[1..]) == Progress(r.parser, More);
      }
    } else if r.event.More? {
      RunChunksIsWhole(g, s, r.parser, chunks[1..]);
    }
  }

  /** A result of the phase needs only the bytes up to where it stopped. */
  lemma {:induction false} HeaderPhaseCut(g: Grammar, s: string, t: string, p: Parser)
    requires s <= t && Ready(t, p) && !HeaderPhase(g, t, p).event.More?
    requires HeaderPhase(g, t, p).parser.checked <= |s|
    ensures Ready(s, p) && HeaderPhase(g, s, p) == HeaderPhase(g, t, p)
    decreases |t| - p.checked
  {
    hide LineText, LineEffect, NoBreaks;
    var scan := ScanLine(t, p.checked);
    var line := LineEffect(g, p.phase, p.fields, LineText(t, p.start, scan.next), scan.next);
    ScanLineCut(s, t, p.checked);
    LineTextAgrees(s, t, p.start, scan.next);
    if line.event.More? {
      assert HeaderPhase(g, t, p) == HeaderPhase(g, t, line.parser);
      HeaderPhaseCut(g, s, t, line.parser);
      assert HeaderPhase(g, s, p) == HeaderPhase(g, s, line.parser);
    }
  }

  // ---- the body ----

  /** Results of process_read. `Unspecified` marks a declared length for which the address
      arithmetic of parse_content leaves the range C++ defines. */
  datatype Outcome = NeedMore | BadRequest | NoResource | Call(handler: Handler, body: string) | Unspecified

  function BodyHandler(verb: Method, route: int): Option<Handler> {
    if route == 1 && verb == POST then Some(PostResource)
    else if route == 1 && verb == PUT then Some(PutResource)
    else if verb == POST && route == 2 then Some(Login)
    else if verb == POST && route == 3 then Some(Logout)
    else if verb == POST && route == 4 then Some(Register)
    else if verb == POST && route == 5 then Some(UploadUrl)
    else None
  }

  function BodyOutcome(s: string, p: Parser): Outcome
    requires p.checked <= |s|
  {
    var end := p.fields.contentLength + p.checked;
    if end > INT_MAX || end < 0 then Unspecified
    else if |s| < end then BadRequest
    else match BodyHandler(p.fields.verb, p.fields.route)
      case None => NoResource
      case Some(h) => Call(h, UpToNul(s[p.checked..if end < p.checked then |s| else end]))
  }

  function Finish(s: string, r: Progress): Outcome
    requires r.parser.checked <= |s|
  {
    match r.event
    case More => NeedMore
    case Rejected => BadRequest
    case NotFound => NoResource
    case Dispatch(h) => Call(h, "")
    case Body => BodyOutcome(s, r.parser)
  }

  /** process_read on everything received so far. */
  function ProcessRead(g: Grammar, s: string, p: Parser): Outcome
    requires Ready(s, p)
  {
    Finish(s, HeaderPhase(g, s, p))
  }

  /** The body phase never asks for more bytes, so a call never starts in the body phase:
      process_read either stops with a result or leaves a parser that is ready to resume. */
  lemma BodyPhaseNeverPauses(g: Grammar, s: string, p: Parser)
    requires Ready(s, p)
    ensures ProcessRead(g, s, p).NeedMore? <==> HeaderPhase(g, s, p).event.More?
    ensures ProcessRead(g, s, p).NeedMore? ==> Ready(s, HeaderPhase(g, s, p).parser)
  {
  }

  /** Where the declared length says the body ends; C++ defines the position only inside `int`, and the
      terminator is stored there. */
  function BodyEnd(p: Parser): int { p.checked + p.fields.contentLength }

  predicate Defined(p: Parser) { 0 <= BodyEnd(p) <= INT_MAX }

  /** What a body route gets, for every declared length and every body. The outcome is unspecified
      exactly when the declared end is no position of the buffer, and BAD_REQUEST exactly when it is
      one that has not been received. Otherwise the handler gets the text up to its first NUL: of
      exactly the declared bytes, or, for a negative length, of everything received. */
  lemma BodyIsExact(g: Grammar, s: string, p: Parser)
    requires Ready(s, p) && HeaderPhase(g, s, p).event.Body?
    ensures var q, outcome := HeaderPhase(g, s, p).parser, ProcessRead(g, s, p);
            var n := q.fields.contentLength;
            && (outcome.Unspecified? <==> !Defined(q))
            && (outcome.BadRequest? <==> Defined(q) && |s| < BodyEnd(q))
            && (outcome.NoResource? <==>
                  Defined(q) && BodyEnd(q) <= |s| && BodyHandler(q.fields.verb, q.fields.route).None?)
            && (outcome.Call? ==>
                  && BodyHandler(q.fields.verb, q.fields.route) == Some(outcome.handler)
                  && q.checked + |outcome.body| <= |s| && (0 <= n ==> |outcome.body| <= n)
                  && outcome.body == s[q.checked..q.checked + |outcome.body|] && NUL !in outcome.body
                  && (q.checked + |outcome.body| < (if n < 0 then |s| else BodyEnd(q)) ==>
                        s[q.checked + |outcome.body|] == NUL))
  {
    hide HeaderPhase;
    var q := HeaderPhase(g, s, p).parser;
    BodyText(s, q);
  }

  lemma BodyText(s: string, q: Parser)
    requires q.checked <= |s|
    ensures var outcome, n := BodyOutcome(s, q), q.fields.contentLength;
            outcome.Call? ==>
              && q.checked + |outcome.body| <= |s| && (0 <= n ==> |outcome.body| <= n)
              && outcome.body == s[q.checked..q.checked + |outcome.body|] && NUL !in outcome.body
              && (q.checked + |outcome.body| < (if n < 0 then |s| else BodyEnd(q)) ==>
                    s[q.checked + |outcome.body|] == NUL)
  {
    hide UpToNul;
    var outcome := BodyOutcome(s, q);
    if outcome.Call? {
      var bytes := s[q.checked..if BodyEnd(q) < q.checked then |s| else BodyEnd(q)];
      assert outcome.body == bytes[..|outcome.body|];
      assert bytes[..|outcome.body|] == s[q.checked..q.checked + |outcome.body|];
    }
  }

  // ---- cutting a request with a body ----

  /** The index of the read that completes the headers, or of the last one. */
  function DoneAt(g: Grammar, chunks: seq<string>, i: nat): (k: nat)
    requires i <= |chunks|
    ensures i <= k <= |chunks|
    ensures k < |chunks| ==> !HeaderPhase(g, Flatten(chunks[..k]), INITIAL).event.More?
    decreases |chunks| - i
  {
    if i == |chunks| || !HeaderPhase(g, Flatten(chunks[..i]), INITIAL).event.More? then i
    else DoneAt(g, chunks, i + 1)
  }

  /** The bytes received when the headers are complete: what the server decides on. */
  function Seen(g: Grammar, chunks: seq<string>): string { Flatten(chunks[..DoneAt(g, chunks, 0)]) }

  /** They are a prefix of the stream with the same header phase. */
  lemma SeenSuffices(g: Grammar, chunks: seq<string>)
    ensures Seen(g, chunks) <= Flatten(chunks)
    ensures HeaderPhase(g, Seen(g, chunks), INITIAL) == HeaderPhase(g, Flatten(chunks), INITIAL)
  {
    hide HeaderPhase;
    var k := DoneAt(g, chunks, 0);
    if k == |chunks| {
      assert chunks[..k] == chunks;
    } else {
      FlattenPrefix(chunks, k);
      HeaderPhaseResumes(g, Seen(g, chunks), Flatten(chunks), INITIAL);
    }
  }

  lemma FlattenPrefix(chunks: seq<string>, k: nat)
    requires k <= |chunks|
    ensures Flatten(chunks[..k]) <= Flatten(chunks)
  {
    if k > 0 {
      FlattenSnoc(chunks, k - 1);
    }
  }

  lemma FlattenGrows(chunks: seq<string>, i: nat, k: nat)
    requires i <= k <= |chunks|
    ensures |Flatten(chunks[..i])| <= |Flatten(chunks[..k])|
  {
    FlattenPrefix(chunks[..k], i);
    assert chunks[..k][..i] == chunks[..i];
  }

  /** Read by read: after a pause the deciding read is a later one, and a result decides. */
  lemma DoneNext(g: Grammar, chunks: seq<string>, i: nat)
    requires i <= |chunks|
    ensures DoneAt(g, chunks, i) ==
            if i < |chunks| && HeaderPhase(g, Flatten(chunks[..i]), INITIAL).event.More? then DoneAt(g, chunks, i + 1)
            else i
  {}

  /** When deciding on the prefix `s` instead of `whole` makes no difference to a request with a body:
      the end is no position of the buffer; both lack the end; or `s` reaches it - and for a negative
      length, which reads on to the first NUL, nothing more of the text was to come. */
  predicate CutHarmless(s: string, whole: string, q: Parser)
    requires q.checked <= |s| && s <= whole
  {
    || !Defined(q)
    || |whole| < BodyEnd(q)
    || (BodyEnd(q) <= |s| &&
        (|| 0 <= q.fields.contentLength
         || BodyHandler(q.fields.verb, q.fields.route).None?
         || |s| == |whole| || NUL in s[q.checked..] || whole[|s|] == NUL))
  }

  lemma UpToNulCut(a: string, b: string)
    requires a <= b
    ensures UpToNul(a) == UpToNul(b) <==> |a| == |b| || NUL in a || b[|a|] == NUL
  {
    var x := UpToNul(a);
    if NUL in a {
      assert x != a;
      UpToNulUnique(b, x);
    } else {
      assert x == a;
      if |a| == |b| || b[|a|] == NUL {
        UpToNulUnique(b, a);
      }
    }
  }

  /** Unlike the headers, a body must not be cut just anywhere: a request decided on the first bytes
      `s` gets the outcome of the whole stream if and only if the cut is harmless. */
  lemma BodySplitMatters(s: string, whole: string, r: Progress)
    requires r.event.Body? && s <= whole && r.parser.checked <= |s|
    ensures Finish(s, r) == Finish(whole, r) <==> CutHarmless(s, whole, r.parser)
  {
    hide UpToNul, NoBreaks;
    var q := r.parser;
    if BodyEnd(q) <= |s| {
      BodyTextCut(s, whole, q.checked, BodyEnd(q));
    }
  }

  /** The text a handler gets, on a prefix and on the whole stream. */
  lemma BodyTextCut(s: string, whole: string, from: nat, end: int)
    requires s <= whole && from <= |s| && end <= |s|
    ensures var a, b := s[from..if end < from then |s| else end], whole[from..if end < from then |whole| else end];
            UpToNul(a) == UpToNul(b) <==> from <= end || |s| == |whole| || NUL in s[from..] || whole[|s|] == NUL
  {
    hide UpToNul;
    if from <= end {
      assert s[from..end] == whole[from..end];
    } else {
      SuffixOfPrefix(s, whole, from);
      assert s[from..|s|] == s[from..] && whole[from..|whole|] == whole[from..];
      UpToNulCut(s[from..], whole[from..]);
    }
  }

  lemma SuffixOfPrefix(s: string, whole: string, from: nat)
    requires s <= whole && from <= |s|
    ensures s[from..] <= whole[from..]
    ensures |s| < |whole| ==> whole[from..][|s[from..]|] == whole[|s|]
  {}

  /** For any split: the outcome is that of the whole stream exactly when there is no body, or the
      read that completes the headers cuts it harmlessly. */
  lemma SplitOutcome(g: Grammar, chunks: seq<string>)
    ensures var s, whole := Seen(g, chunks), Flatten(chunks);
            var r := HeaderPhase(g, whole, INITIAL);
            && s <= whole && r.parser.checked <= |s|
            && (Finish(s, r) == Finish(whole, r) <==> r.event.Body? ==> CutHarmless(s, whole, r.parser))
  {
    hide HeaderPhase, BodyOutcome, CutHarmless;
    SeenSuffices(g, chunks);
    var r := HeaderPhase(g, Flatten(chunks), INITIAL);
    if r.event.Body? {
      BodySplitMatters(Seen(g, chunks), Flatten(chunks), r);
    }
  }

  // ---- line endings ----

  /** A pause at a malformed line ending is for ever: no later bytes lead to a result. */
  lemma BadLineIsFinal(g: Grammar, s: string, t: string, p: Parser)
    requires s <= t && Ready(s, p) && HeaderPhase(g, s, p).event.More?
    requires ScanLine(s, HeaderPhase(g, s, p).parser.checked).status.LineBad?
    ensures HeaderPhase(g, t, p) == HeaderPhase(g, s, p)
  {
    var q := HeaderPhase(g, s, p).parser;
    HeaderPhaseResumes(g, s, t, p);
    PausesWhereItIs(g, s, p);
    ScanLinePrefix(s, t, q.checked);
  }

  /** The cursor of a pause stands where the scan stops. */
  lemma {:induction false} PausesWhereItIs(g: Grammar, s: string, p: Parser)
    requires Ready(s, p) && HeaderPhase(g, s, p).event.More?
    ensures var q := HeaderPhase(g, s, p).parser;
            !ScanLine(s, q.checked).status.LineOk? && ScanLine(s, q.checked).next == q.checked
    decreases |s| - p.checked
  {
    hide LineText, LineEffect, NoBreaks;
    var scan := ScanLine(s, p.checked);
    if scan.status.LineOk? {
      var line := LineEffect(g, p.phase, p.fields, LineText(s, p.start, scan.next), scan.next);
      assert HeaderPhase(g, s, p) == HeaderPhase(g, s, line.parser);
      PausesWhereItIs(g, s, line.parser);
    } else {
      ScanLineStable(s, p.checked);
    }
  }

  const BLANK: string := [CR, LF, CR, LF]

  /** Bytes that end the open line and the headers. */
  function Completion(s: string, q: Parser): string
    requires q.checked <= |s|
  {
    if q.checked < |s| then BLANK[1..] else BLANK
  }

  /** An open line can be completed, and then a blank line decides the request. */
  lemma OpenLineCompletes(g: Grammar, s: string, p: Parser)
    requires Ready(s, p) && HeaderPhase(g, s, p).event.More? && forall f :: !g.done(f).More?
    requires ScanLine(s, HeaderPhase(g, s, p).parser.checked).status.LineOpen?
    ensures !HeaderPhase(g, s + Completion(s, HeaderPhase(g, s, p).parser), p).event.More?
  {
    hide HeaderPhase;
    var q := HeaderPhase(g, s, p).parser;
    var t := s + Completion(s, q);
    HeaderPhaseResumes(g, s, t, p);
    PausesWhereItIs(g, s, p);
    CompletionEnds(s, q);
    TwoLineEnds(g, t, q);
  }

  /** Two line ends at `k`: a line that ends there, and a blank one. */
  ghost predicate EndsAt(t: string, k: nat) { |t| == k + 4 && t[k..] == BLANK }

  lemma CompletionEnds(s: string, q: Parser)
    requires q.checked <= |s| && ScanLine(s, q.checked) == Scan(LineOpen, q.checked)
    ensures EndsAt(s + Completion(s, q), q.checked)
  {
    if q.checked < |s| {
      assert s[q.checked..] == [CR];
      assert (s + BLANK[1..])[q.checked..] == [CR] + BLANK[1..];
    }
  }

  lemma EndsScan(t: string, k: nat)
    requires EndsAt(t, k)
    ensures ScanLine(t, k) == Scan(LineOk, k + 2) && ScanLine(t, k + 2) == Scan(LineOk, k + 4)
    ensures LineText(t, k + 2, k + 4) == ""
  {
    var d := t[k..];
    assert t[k] == d[0] && t[k + 1] == d[1] && t[k + 2] == d[2] && t[k + 3] == d[3];
  }

  lemma TwoLineEnds(g: Grammar, t: string, q: Parser)
    requires Ready(t, q) && EndsAt(t, q.checked) && forall f :: !g.done(f).More?
    ensures !HeaderPhase(g, t, q).event.More?
  {
    hide NoBreaks, ScanLine, LineText;
    var k := q.checked;
    EndsScan(t, k);
    var line := LineEffect(g, q.phase, q.fields, LineText(t, q.start, k + 2), k + 2);
    if line.event.More? {
      assert HeaderPhase(g, t, q) == HeaderPhase(g, t, line.parser);
      assert line.parser.phase == Header;
    }
  }

  /** So a request that has paused is never answered, whatever else arrives, if and only if the pause
      is at a malformed line ending. */
  lemma NeverAnsweredIff(g: Grammar, s: string, p: Parser)
    requires Ready(s, p) && HeaderPhase(g, s, p).event.More? && forall f :: !g.done(f).More?
    ensures (forall t :: s <= t ==> HeaderPhase(g, t, p).event.More?)
            <==> ScanLine(s, HeaderPhase(g, s, p).parser.checked).status.LineBad?
  {
    hide ScanLine, HeaderPhase;
    PausesWhereItIs(g, s, p);
    if ScanLine(s, HeaderPhase(g, s, p).parser.checked).status.LineBad? {
      forall t | s <= t ensures HeaderPhase(g, t, p).event.More? {
        BadLineIsFinal(g, s, t, p);
      }
    } else {
      OpenLineCompletes(g, s, p);
      assert s <= s + Completion(s, HeaderPhase(g, s, p).parser);
    }
  }

  /** In particular for the server's own grammar, where the blank line always decides. */
  lemma ServerNeverAnswersIff(s: string, p: Parser)
    requires Ready(s, p) && HeaderPhase(HTTP, s, p).event.More?
    ensures (forall t :: s <= t ==> HeaderPhase(HTTP, t, p).event.More?)
            <==> ScanLine(s, HeaderPhase(HTTP, s, p).parser.checked).status.LineBad?
  {
    hide HeaderPhase, ScanLine;
    assert forall f :: !HTTP.done(f).More?;
    NeverAnsweredIff(HTTP, s, p);
  }
}
