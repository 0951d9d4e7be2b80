/** The responses process_write prints, and what a client reads back from them. */
module HttpResponse {
  import opened Runs
  import opened Text
  import HttpParser

  const WRITE_BUFFER_SIZE: nat := 1024
  const CRLF: string := "\r\n"

  datatype Code =
    | NO_REQUEST | BAD_REQUEST | NO_RESOURCE | FORBIDDEN_REQUEST | INTERNAL_ERROR | CLOSED_CONNECTION
    | GET_RESOURCE | ADD_RESOURCE | UPDATE_RESOURCE | DELETE_RESOURCE

  /** The result codes each request handler can return. */
  predicate CanReturn(h: HttpParser.Handler, code: Code) {
    match h
    case Health => code == GET_RESOURCE
    case Register => code in {BAD_REQUEST, INTERNAL_ERROR, ADD_RESOURCE}
    case Login => code in {BAD_REQUEST, INTERNAL_ERROR, GET_RESOURCE}
    case Logout => code in {FORBIDDEN_REQUEST, BAD_REQUEST, DELETE_RESOURCE}
    case GetResources => code in {FORBIDDEN_REQUEST, BAD_REQUEST, GET_RESOURCE}
    case DeleteResource => code in {FORBIDDEN_REQUEST, BAD_REQUEST, DELETE_RESOURCE}
    case PostResource => code in {FORBIDDEN_REQUEST, BAD_REQUEST, INTERNAL_ERROR, ADD_RESOURCE}
    case PutResource => code in {FORBIDDEN_REQUEST, BAD_REQUEST, INTERNAL_ERROR, UPDATE_RESOURCE}
    case UploadUrl => code in {FORBIDDEN_REQUEST, BAD_REQUEST, INTERNAL_ERROR, GET_RESOURCE}
    case DownloadUrl => code in {FORBIDDEN_REQUEST, BAD_REQUEST, GET_RESOURCE}
  }

  /** Each handler can succeed with its own code, and can refuse. */
  lemma HandlersCanSucceed()
    ensures CanReturn(HttpParser.Health, GET_RESOURCE) && CanReturn(HttpParser.Login, GET_RESOURCE)
    ensures CanReturn(HttpParser.GetResources, GET_RESOURCE) && CanReturn(HttpParser.UploadUrl, GET_RESOURCE)
    ensures CanReturn(HttpParser.DownloadUrl, GET_RESOURCE) && CanReturn(HttpParser.Register, ADD_RESOURCE)
    ensures CanReturn(HttpParser.PostResource, ADD_RESOURCE) && CanReturn(HttpParser.PutResource, UPDATE_RESOURCE)
    ensures CanReturn(HttpParser.DeleteResource, DELETE_RESOURCE) && CanReturn(HttpParser.Logout, DELETE_RESOURCE)
    ensures forall h: HttpParser.Handler :: h.Health? || CanReturn(h, BAD_REQUEST)
  {}

  predicate Printable(code: Code) { code != NO_REQUEST && code != CLOSED_CONNECTION }

  /** A response: status, title, media type and body. A `json` body travels in a second buffer,
      any other one is printed behind the headers. */
  datatype Reply = Reply(status: nat, title: string, mime: string, body: string, json: bool)

  function Success(json: string): Reply { Reply(200, "OK", "application/json", json, true) }

  /** The plain texts of the error replies. */
  function ErrorText(code: Code): string {
    match code
    case BAD_REQUEST => "Your request has bad syntax or is inherently impossible to satisfy.\n"
    case FORBIDDEN_REQUEST => "You do not have permission to access this resource.\n"
    case NO_RESOURCE => "The requested route was not found on this server.\n"
    case INTERNAL_ERROR => "There was an unusual problem serving the request.\n"
    case _ => ""
  }

  function ReplyFor(code: Code, json: string): Reply
    requires Printable(code)
  {
    match code
    case INTERNAL_ERROR => Reply(500, "Internal Error", "text", ErrorText(INTERNAL_ERROR), false)
    case BAD_REQUEST =>
      if json != "" then Reply(400, "Bad Request", "application/json", json, true)
      else Reply(400, "Bad Request", "text", ErrorText(BAD_REQUEST), false)
    case NO_RESOURCE => Reply(404, "Not Found", "text", ErrorText(NO_RESOURCE), false)
    case FORBIDDEN_REQUEST => Reply(403, "Forbidden", "text", ErrorText(FORBIDDEN_REQUEST), false)
    case GET_RESOURCE => Success(json)
    case ADD_RESOURCE => Success(json)
    case UPDATE_RESOURCE => Success(json)
    case DELETE_RESOURCE => Success(json)
  }

  /** The status of each code, and which codes answer with the handler's JSON text. */
  function StatusOf(code: Code): nat {
    if code == BAD_REQUEST then 400
    else if code == FORBIDDEN_REQUEST then 403
    else if code == NO_RESOURCE then 404
    else if code == INTERNAL_ERROR then 500
    else 200
  }

  predicate AnswersJson(code: Code, json: string) { StatusOf(code) == 200 || (code == BAD_REQUEST && json != "") }

  function StatusText(r: Reply): string { "HTTP/1.1 " + ToString(r.status) + " " + r.title }
  function LengthText(n: int): string { "Content-Length: " + ToString(n) }
  function TypeText(mime: string): string { "Content-Type: " + mime }
  function LingerText(linger: bool): string { "Connection: " + if linger then "keep-alive" else "close" }

  /** The printed header block; the body size is narrowed to an `int` on its way to %d. */
  function Head(r: Reply, linger: bool): string {
    StatusText(r) + CRLF
    + (LengthText(ToInt32(|r.body|)) + CRLF
       + (TypeText(r.mime) + CRLF
          + (LingerText(linger) + CRLF + CRLF)))
  }

  /** Everything that goes to the client. */
  function Wire(r: Reply, linger: bool): string { Head(r, linger) + r.body }

  /** What has to fit the write buffer. */
  function Buffered(r: Reply, linger: bool): string {
    Head(r, linger) + if r.json then "" else r.body
  }

  lemma IntTextLength(n: int)
    requires -INT_MAX - 1 <= n <= INT_MAX
    ensures |ToString(n)| <= 11
  {
    DecimalLength(if n < 0 then -n else n, 10);
  }

  lemma JsonBody(code: Code, json: string)
    requires Printable(code)
    ensures ReplyFor(code, json).json ==> ReplyFor(code, json).body == json
  {
    hide ErrorText;
  }

  lemma TextLength(code: Code)
    ensures |ErrorText(code)| <= 80
  {}

  /** Every printable response, whatever its body, ends at or before offset 1022 of the buffer. */
  lemma EveryReplyFits(code: Code, json: string, linger: bool)
    requires Printable(code)
    ensures |Buffered(ReplyFor(code, json), linger)| <= WRITE_BUFFER_SIZE - 2
  {
    hide Buffered, ErrorText;
    TextLength(code);
    var r := ReplyFor(code, json);
    assert |r.title| <= 14 && |r.mime| <= 16 && (!r.json ==> |r.body| <= 80) && r.status <= 500;
    HeadLength(r, linger);
  }

  lemma HeadLength(r: Reply, linger: bool)
    requires |r.title| <= 14 && |r.mime| <= 16 && (!r.json ==> |r.body| <= 80) && r.status <= 500
    ensures |Buffered(r, linger)| <= WRITE_BUFFER_SIZE - 2
  {
    hide ToString;
    IntTextLength(r.status);
    IntTextLength(ToInt32(|r.body|));
  }

  // ---- reading a response back ----

  predicate Clean(text: string) {
    forall i :: 0 <= i < |text| ==> text[i] != CR && text[i] != LF && text[i] != NUL
  }

  lemma {:induction false} ScanClean(s: string, i: nat, k: nat)
    requires i + k + 1 < |s| && s[i + k] == CR && s[i + k + 1] == LF && HttpParser.NoBreaks(s, i, i + k)
    ensures HttpParser.ScanLine(s, i) == HttpParser.Scan(HttpParser.LineOk, i + k + 2)
    decreases k
  {
    if k > 0 {
      ScanClean(s, i + 1, k - 1);
    }
  }

  /** The server's own line scanner splits off a printed line. */
  lemma FirstLine(line: string, rest: string)
    requires Clean(line)
    ensures var s := line + CRLF + rest;
            && HttpParser.ScanLine(s, 0) == HttpParser.Scan(HttpParser.LineOk, |line| + 2)
            && s[|line| + 2..] == rest
            && HttpParser.LineText(s, 0, |line| + 2) == line
  {
    var s := line + CRLF + rest;
    assert forall k :: 0 <= k < |line| ==> s[k] == line[k];
    ScanClean(s, 0, |line|);
    assert s[0..|line|] == line;
    UpToNulUnique(line, line);
  }

  datatype Tail = Tail(fields: HttpParser.Fields, rest: string)

  /** Header lines up to the blank line, read with the request parser's header rules. */
  function ReadHeaders(g: HttpParser.Grammar, s: string, f: HttpParser.Fields): Option<Tail>
    decreases |s|
  {
    var scan := HttpParser.ScanLine(s, 0);
    if !scan.status.LineOk? then None
    else
      var text := HttpParser.LineText(s, 0, scan.next);
      if text == "" then Some(Tail(f, s[scan.next..]))
      else ReadHeaders(g, s[scan.next..], g.header(text, f))
  }

  datatype Message = Message(status: int, linger: bool, body: string, rest: string)

  /** A message from its status line and what was read behind it: as many body bytes as
      Content-Length announces. */
  function Assemble(line: string, tail: Option<Tail>): Option<Message> {
    if tail.None? || !("HTTP/1.1 " <= line) then None
    else
      var n, rest := tail.value.fields.contentLength, tail.value.rest;
      if 0 <= n <= |rest| then Some(Message(Atol(line[9..]), tail.value.fields.linger, rest[..n], rest[n..]))
      else None
  }

  /** A client: status line, headers, body. */
  function ReadResponse(g: HttpParser.Grammar, s: string): Option<Message> {
    var scan := HttpParser.ScanLine(s, 0);
    if !scan.status.LineOk? then None
    else Assemble(HttpParser.LineText(s, 0, scan.next),
                  ReadHeaders(g, s[scan.next..], HttpParser.INITIAL.fields))
  }

  lemma ToStringClean(n: int)
    ensures Clean(ToString(n))
  {
    var s := ToString(n);
    assert forall i :: 0 <= i < |s| ==> IsDigit(s[i]) || s[i] == '-';
  }

  lemma LengthValue(value: string)
    requires value != "" && !IsBlank(value[0])
    ensures var text := "Content-Length: " + value;
            && !StartsIgnoringCase(text, "Connection:")
            && StartsIgnoringCase(text, "Content-Length:")
            && HttpParser.HeaderValue(text, 15) == value
  {
    var text := "Content-Length: " + value;
    assert Lower(text[..11][3]) != Lower("Connection:"[3]);
    assert text[..15] == "Content-Length:";
    var after := text[15..];
    assert after == " " + value;
    assert after[1..] == value;
    assert LeadingBlanks(after) == 1;
  }

  lemma LengthHeaderReadsBack(n: int, f: HttpParser.Fields)
    requires -INT_MAX - 1 <= n <= INT_MAX
    ensures Clean(LengthText(n))
    ensures HttpParser.ParseHeader(LengthText(n), f) == f.(contentLength := n)
  {
    LengthClean(n);
    hide Clean, ToString, Atol, StartsIgnoringCase, HttpParser.HeaderValue;
    LengthValue(ToString(n));
    AtolReadsToString(n);
  }

  lemma LengthClean(n: int)
    ensures Clean(LengthText(n)) && !IsBlank(ToString(n)[0])
  {
    ToStringClean(n);
  }

  lemma TypeHeaderIgnored(mime: string, f: HttpParser.Fields)
    requires Clean(mime)
    ensures Clean(TypeText(mime)) && HttpParser.ParseHeader(TypeText(mime), f) == f
  {
    var text := TypeText(mime);
    assert Lower(text[3]) != Lower("Connection:"[3]);
    assert Lower(text[8]) != Lower("Content-Length:"[8]);
    assert Lower(text[0]) != Lower("Host:"[0]);
    assert Lower(text[0]) != Lower("Authorization:"[0]);
  }

  lemma ConnectionValue(value: string)
    requires value != "" && !IsBlank(value[0])
    ensures var text := "Connection: " + value;
            StartsIgnoringCase(text, "Connection:") && HttpParser.HeaderValue(text, 11) == value
  {
    var text := "Connection: " + value;
    assert text[..11] == "Connection:";
    var after := text[11..];
    assert after == " " + value;
    assert after[1..] == value;
    assert LeadingBlanks(after) == 1;
  }

  lemma LingerHeaderReadsBack(linger: bool, f: HttpParser.Fields)
    ensures Clean(LingerText(linger))
    ensures HttpParser.ParseHeader(LingerText(linger), f) == f.(linger := linger)
  {
    LingerClean(linger);
    hide Clean, StartsIgnoringCase, HttpParser.HeaderValue;
    if linger {
      ConnectionValue("keep-alive");
    } else {
      ConnectionValue("close");
    }
  }

  lemma LingerClean(linger: bool)
    ensures Clean(LingerText(linger))
  {}

  lemma StatusReadsBack(status: nat, title: string)
    requires status <= INT_MAX
    ensures Atol(ToString(status) + " " + title) == status
  {
    var rest := " " + title;
    var s := ToString(status) + rest;
    assert s == ToString(status) + " " + title;
    DecimalReadsBack(status, rest);
    assert LeadingValue(rest, status) == status;
    assert IsDigit(s[0]);
  }

  lemma HeadersReadBack(r: Reply, linger: bool, rest: string)
    requires Clean(r.mime) && |r.body| <= INT_MAX
    ensures var f := HttpParser.INITIAL.fields.(contentLength := |r.body|, linger := linger);
            ReadHeaders(HttpParser.HTTP, LengthText(|r.body|) + CRLF
                        + (TypeText(r.mime) + CRLF + (LingerText(linger) + CRLF + (CRLF + rest))),
                        HttpParser.INITIAL.fields)
            == Some(Tail(f, rest))
  {
    hide ReadHeaders, HttpParser.ParseHeader, Clean;
    var g, f0 := HttpParser.HTTP, HttpParser.INITIAL.fields;
    var f1 := f0.(contentLength := |r.body|);
    var f2 := f1.(linger := linger);
    var s3 := CRLF + rest;
    var s2 := LingerText(linger) + CRLF + s3;
    var s1 := TypeText(r.mime) + CRLF + s2;
    LengthHeaderReadsBack(|r.body|, f0);
    OneHeader(g, LengthText(|r.body|), s1, f0);
    TypeHeaderIgnored(r.mime, f1);
    OneHeader(g, TypeText(r.mime), s2, f1);
    LingerHeaderReadsBack(linger, f1);
    OneHeader(g, LingerText(linger), s3, f1);
    BlankLine(g, rest, f2);
  }

  /** Reading a printed header line applies its rule and goes on behind it. */
  lemma OneHeader(g: HttpParser.Grammar, line: string, rest: string, f: HttpParser.Fields)
    requires Clean(line) && line != ""
    ensures ReadHeaders(g, line + CRLF + rest, f) == ReadHeaders(g, rest, g.header(line, f))
  {
    FirstLine(line, rest);
  }

  lemma BlankLine(g: HttpParser.Grammar, rest: string, f: HttpParser.Fields)
    ensures ReadHeaders(g, CRLF + rest, f) == Some(Tail(f, rest))
  {
    FirstLine("", rest);
    assert "" + CRLF + rest == CRLF + rest;
  }

  lemma StatusLineReadsBack(g: HttpParser.Grammar, line: string, headers: string)
    requires Clean(line)
    ensures ReadResponse(g, line + CRLF + headers)
            == Assemble(line, ReadHeaders(g, headers, HttpParser.INITIAL.fields))
  {
    FirstLine(line, headers);
  }

  lemma StatusTextReadsBack(r: Reply)
    requires Clean(r.title) && r.status <= INT_MAX
    ensures Clean(StatusText(r)) && "HTTP/1.1 " <= StatusText(r) && Atol(StatusText(r)[9..]) == r.status
  {
    ToStringClean(r.status);
    assert StatusText(r)[9..] == ToString(r.status) + " " + r.title;
    StatusReadsBack(r.status, r.title);
  }

  lemma WireSplits(r: Reply, linger: bool, rest: string)
    requires |r.body| <= INT_MAX
    ensures Wire(r, linger) + rest ==
            StatusText(r) + CRLF
            + (LengthText(|r.body|) + CRLF
               + (TypeText(r.mime) + CRLF + (LingerText(linger) + CRLF + (CRLF + (r.body + rest)))))
  {}

  lemma ReplyIsClean(code: Code, json: string)
    requires Printable(code)
    ensures Clean(ReplyFor(code, json).title) && Clean(ReplyFor(code, json).mime)
  {
    hide ErrorText;
    assert Clean("text") && Clean("application/json");
    assert Clean("OK") && Clean("Bad Request") && Clean("Not Found");
    assert Clean("Forbidden") && Clean("Internal Error");
  }

  lemma ReplyShape(code: Code, json: string)
    requires Printable(code) && |json| <= INT_MAX
    ensures var r := ReplyFor(code, json);
            && r.status == StatusOf(code) <= INT_MAX && |r.body| <= INT_MAX && (r.json <==> AnswersJson(code, json))
            && (AnswersJson(code, json) ==> r.body == json && r.mime == "application/json")
  {
    hide ErrorText;
    TextLength(code);
  }

  /** Round trip: whatever follows on the connection, a client that reads the announced number of
      bytes recovers exactly the status, the persistence flag and the body that were printed; the
      status is that of the code, and the body is the handler's JSON text whenever it answers one. */
  lemma ResponseReadsBack(code: Code, json: string, linger: bool, rest: string)
    requires Printable(code) && |json| <= INT_MAX
    ensures ReplyFor(code, json).status == StatusOf(code)
    ensures AnswersJson(code, json) ==> ReplyFor(code, json).body == json && ReplyFor(code, json).mime == "application/json"
    ensures var r := ReplyFor(code, json);
            ReadResponse(HttpParser.HTTP, Wire(r, linger) + rest)
            == Some(Message(r.status, linger, r.body, rest))
  {
    hide ReplyFor, Wire, ReadResponse, Clean, StatusOf;
    ReplyShape(code, json);
    ReplyIsClean(code, json);
    AnyReplyReadsBack(ReplyFor(code, json), linger, rest);
  }

  lemma AnyReplyReadsBack(r: Reply, linger: bool, rest: string)
    requires Clean(r.mime) && Clean(r.title) && |r.body| <= INT_MAX && r.status <= INT_MAX
    ensures ReadResponse(HttpParser.HTTP, Wire(r, linger) + rest)
            == Some(Message(r.status, linger, r.body, rest))
  {
    var tail := r.body + rest;
    HeadersReadBack(r, linger, tail);
    var f := HttpParser.INITIAL.fields.(contentLength := |r.body|, linger := linger);
    StatusTextReadsBack(r);
    StatusLineReadsBack(HttpParser.HTTP, StatusText(r),
      LengthText(|r.body|) + CRLF + (TypeText(r.mime) + CRLF + (LingerText(linger) + CRLF + (CRLF + tail))));
    WireSplits(r, linger, rest);
    assert tail[..|r.body|] == r.body && tail[|r.body|..] == rest;
  }

  // ---- what each response says ----

  /** The first `n` lines of a text, as the server's own scanner finds them. */
  function FirstLines(s: string, n: nat): seq<string>
    decreases n
  {
    if n == 0 then []
    else
      var scan := HttpParser.ScanLine(s, 0);
      if !scan.status.LineOk? then []
      else [HttpParser.LineText(s, 0, scan.next)] + FirstLines(s[scan.next..], n - 1)
  }

  lemma OneLine(line: string, rest: string, n: nat)
    requires Clean(line)
    ensures FirstLines(line + CRLF + rest, n + 1) == [line] + FirstLines(rest, n)
  {
    FirstLine(line, rest);
  }

  /** A printed response begins with its status line, its three headers and a blank line. */
  lemma HeadLines(r: Reply, linger: bool, rest: string)
    requires Clean(r.mime) && Clean(r.title) && |r.body| <= INT_MAX && r.status <= INT_MAX
    ensures FirstLines(Wire(r, linger) + rest, 5)
            == [StatusText(r), LengthText(|r.body|), TypeText(r.mime), LingerText(linger), ""]
  {
    hide FirstLines, Clean, Wire;
    var s4 := CRLF + (r.body + rest);
    var s3 := LingerText(linger) + CRLF + s4;
    var s2 := TypeText(r.mime) + CRLF + s3;
    var s1 := LengthText(|r.body|) + CRLF + s2;
    WireSplits(r, linger, rest);
    StatusTextReadsBack(r);
    LengthClean(|r.body|);
    TypeHeaderIgnored(r.mime, HttpParser.INITIAL.fields);
    LingerClean(linger);
    NothingIsClean();
    OneLine(StatusText(r), s1, 4);
    OneLine(LengthText(|r.body|), s2, 3);
    OneLine(TypeText(r.mime), s3, 2);
    OneLine(LingerText(linger), s4, 1);
    assert "" + CRLF + (r.body + rest) == s4;
    OneLine("", r.body + rest, 0);
    NoLines(r.body + rest);
  }

  lemma NothingIsClean()
    ensures Clean("")
  {}

  lemma NoLines(s: string)
    ensures FirstLines(s, 0) == []
  {}

  lemma StatusDigits()
    ensures ToString(200) == "200" && ToString(400) == "400" && ToString(403) == "403"
    ensures ToString(404) == "404" && ToString(500) == "500"
  {
    assert Decimal(2) == "2" && Decimal(4) == "4" && Decimal(5) == "5";
    assert Decimal(20) == "20" && Decimal(40) == "40" && Decimal(50) == "50";
    assert Decimal(200) == "200" && Decimal(400) == "400" && Decimal(403) == "403";
    assert Decimal(404) == "404" && Decimal(500) == "500";
  }

  /** What a client reads of each error: its status line, its status, its text and its media type. */
  ghost predicate Says(r: Reply, status: nat, line: string, mime: string, body: string) {
    r.status == status && StatusText(r) == line && r.mime == mime && r.body == body
  }

  lemma NotFoundSays(json: string)
    ensures Says(ReplyFor(NO_RESOURCE, json), 404, "HTTP/1.1 404 Not Found", "text",
                 "The requested route was not found on this server.\n")
  {
    StatusDigits();
    hide ToString;
  }

  lemma ForbiddenSays(json: string)
    ensures Says(ReplyFor(FORBIDDEN_REQUEST, json), 403, "HTTP/1.1 403 Forbidden", "text",
                 "You do not have permission to access this resource.\n")
  {
    StatusDigits();
    hide ToString;
  }

  lemma InternalErrorSays(json: string)
    ensures Says(ReplyFor(INTERNAL_ERROR, json), 500, "HTTP/1.1 500 Internal Error", "text",
                 "There was an unusual problem serving the request.\n")
  {
    StatusDigits();
    hide ToString;
  }

  lemma BadRequestSays(json: string)
    ensures json == "" ==> Says(ReplyFor(BAD_REQUEST, json), 400, "HTTP/1.1 400 Bad Request", "text",
                                "Your request has bad syntax or is inherently impossible to satisfy.\n")
    ensures json != "" ==> Says(ReplyFor(BAD_REQUEST, json), 400, "HTTP/1.1 400 Bad Request", "application/json", json)
  {
    StatusDigits();
    hide ToString;
  }

  lemma SuccessSays(code: Code, json: string)
    requires code in {GET_RESOURCE, ADD_RESOURCE, UPDATE_RESOURCE, DELETE_RESOURCE}
    ensures Says(ReplyFor(code, json), 200, "HTTP/1.1 200 OK", "application/json", json)
  {
    StatusDigits();
    hide ToString, ErrorText;
  }

  /** So it is on the wire, whatever follows: the lines of the head, and a message with that status and body. */
  lemma SaidOnTheWire(r: Reply, linger: bool, rest: string, status: nat, line: string, mime: string, body: string)
    requires Says(r, status, line, mime, body) && Clean(r.mime) && Clean(r.title) && |body| <= INT_MAX && status <= INT_MAX
    ensures FirstLines(Wire(r, linger) + rest, 5) == [line, LengthText(|body|), TypeText(mime), LingerText(linger), ""]
    ensures ReadResponse(HttpParser.HTTP, Wire(r, linger) + rest) == Some(Message(status, linger, body, rest))
  {
    hide FirstLines, ReadResponse, Wire, Clean, StatusText, LengthText, TypeText, LingerText;
    HeadLines(r, linger, rest);
    AnyReplyReadsBack(r, linger, rest);
  }
}
