/** Requests as a client writes them, and what the server makes of them: which handler gets which
    bytes, for every method word, every path, every header block and every body. */
module HttpRequest {
  import opened Runs
  import opened Text
  import opened HttpParser
  import HttpResponse

  const CRLF: string := HttpResponse.CRLF

  /** A request in origin form: the request line, any header lines, and what follows the blank line. */
  datatype Message = Message(word: string, path: string, version: string, lines: seq<string>, body: string)

  predicate NoBlanks(s: string) { forall i :: 0 <= i < |s| ==> s[i] != ' ' && s[i] != '\t' }

  predicate AllClean(lines: seq<string>) { forall i :: 0 <= i < |lines| ==> HttpResponse.Clean(lines[i]) }

  /** Lines without line ends and terminators, and words without blanks. */
  predicate Proper(m: Message) {
    && HttpResponse.Clean(m.word) && NoBlanks(m.word)
    && HttpResponse.Clean(m.path) && NoBlanks(m.path) && m.path != "" && m.path[0] == '/'
    && HttpResponse.Clean(m.version) && SameIgnoringCase(m.version, "HTTP/1.1")
    && AllClean(m.lines) && "" !in m.lines
  }

  function RequestText(m: Message): string { m.word + " " + (m.path + " " + m.version) }

  function Joined(lines: seq<string>, body: string): string {
    if lines == [] then body else lines[0] + CRLF + Joined(lines[1..], body)
  }

  function Printed(m: Message): string { RequestText(m) + CRLF + Joined(m.lines + [""], m.body) }

  /** The fields after the request line. */
  function Start(m: Message): Fields {
    INITIAL.fields.(verb := VerbOf(m.word, GET), url := Some(m.path), version := Some(m.version), route := RouteOf(m.path, 0))
  }

  // ---- one line at a time ----

  lemma BlankAt(word: string, rest: string)
    requires NoBlanks(word)
    ensures FirstBlank(word + " " + rest) == |word|
    ensures (word + " " + rest)[..|word|] == word && (word + " " + rest)[|word| + 1..] == rest
  {
    var text := word + " " + rest;
    assert text[|word|] == ' ';
    assert forall i :: 0 <= i < |word| ==> text[i] == word[i];
  }

  /** A request line in origin form is split into its three words. */
  lemma RequestLineReadsBack(m: Message)
    requires Proper(m)
    ensures ParseRequestLine(RequestText(m), INITIAL.fields) == Parsed(Start(m), true)
  {
    hide RouteOf, VerbOf, SameIgnoringCase, HttpResponse.Clean;
    BlankAt(m.word, m.path + " " + m.version);
    BlankAt(m.path, m.version);
    NotAbsolute(m.path);
  }

  lemma NotAbsolute(path: string)
    requires path != "" && path[0] == '/'
    ensures !StartsIgnoringCase(path, "http://")
  {
    assert Lower(path[0]) != Lower("http://"[0]);
  }

  // ---- which request lines are accepted ----

  /** A target the server takes: a path, or an http URL with a path. */
  predicate TargetOk(target: string) {
    || (target != "" && target[0] == '/')
    || (StartsIgnoringCase(target, "http://") && '/' in target[7..])
  }

  /** A request line: three words, each ended by one blank, the last one the protocol version. */
  ghost predicate ThreeWords(text: string, word: string, target: string, version: string) {
    && NoBlanks(word) && NoBlanks(target) && TargetOk(target) && SameIgnoringCase(version, "HTTP/1.1")
    && |text| == |word| + |target| + |version| + 2
    && text[..|word|] == word && text[|word|] in {' ', '\t'}
    && text[|word| + 1..|word| + 1 + |target|] == target && text[|word| + 1 + |target|] in {' ', '\t'}
    && text[|word| + |target| + 2..] == version
  }

  lemma FirstBlankIs(text: string, k: nat)
    requires k < |text| && NoBlanks(text[..k]) && IsBlank(text[k])
    ensures FirstBlank(text) == k
  {
    assert forall i :: 0 <= i < k ==> text[i] == text[..k][i];
  }

  lemma ThreeWordsAccepted(text: string, f: Fields, word: string, target: string, version: string)
    requires ThreeWords(text, word, target, version)
    ensures ParseRequestLine(text, f).ok
  {
    hide RouteOf, VerbOf, SameIgnoringCase, TargetOk, HttpParser.NormaliseTarget;
    var i := |word|;
    FirstBlankIs(text, i);
    var rest := text[i + 1..];
    assert rest[..|target|] == target && rest[|target|] == text[i + 1 + |target|] && rest[|target| + 1..] == version;
    FirstBlankIs(rest, |target|);
    var split := f.(verb := VerbOf(word, f.verb), url := Some(target), version := Some(version), route := RouteOf(target, f.route));
    TargetAccepted(target, split);
  }

  lemma NoBlanksBefore(text: string, k: nat)
    requires k <= |text| && forall i :: 0 <= i < k ==> !IsBlank(text[i])
    ensures NoBlanks(text[..k])
  {}

  lemma TwoCuts(text: string, i: nat, j: nat)
    requires i < |text| && j < |text[i + 1..]|
    ensures var rest := text[i + 1..];
            rest[..j] == text[i + 1..i + 1 + j] && rest[j] == text[i + 1 + j] && rest[j + 1..] == text[i + j + 2..]
  {}

  lemma AcceptedSplits(text: string, f: Fields) returns (word: string, target: string, version: string)
    requires ParseRequestLine(text, f).ok
    ensures ThreeWords(text, word, target, version)
  {
    hide RouteOf, VerbOf, SameIgnoringCase, TargetOk, HttpParser.NormaliseTarget, NoBlanks, FirstBlank;
    var i := FirstBlank(text);
    var rest := text[i + 1..];
    var j := FirstBlank(rest);
    word, target, version := text[..i], rest[..j], rest[j + 1..];
    NoBlanksBefore(text, i);
    NoBlanksBefore(rest, j);
    TwoCuts(text, i, j);
    var split := f.(verb := VerbOf(word, f.verb), url := Some(target), version := Some(version), route := RouteOf(target, f.route));
    TargetAccepted(target, split);
  }

  /** A request line is accepted if and only if it is such a line. */
  lemma RequestLineAcceptedIff(text: string, f: Fields)
    ensures ParseRequestLine(text, f).ok <==> exists word, target, version :: ThreeWords(text, word, target, version)
  {
    hide ParseRequestLine, ThreeWords;
    if ParseRequestLine(text, f).ok {
      var word, target, version := AcceptedSplits(text, f);
    }
    if word, target, version :| ThreeWords(text, word, target, version) {
      ThreeWordsAccepted(text, f, word, target, version);
    }
  }

  lemma TargetAccepted(target: string, f: Fields)
    ensures HttpParser.NormaliseTarget(target, f).ok <==> TargetOk(target)
  {
    if StartsIgnoringCase(target, "http://") {
      assert Lower(target[..7][0]) == Lower("http://"[0]) == 'h';
      assert target[0] != '/';
      var path := target[7..];
      var k := IndexOf(path, '/');
      assert k < |path| ==> path[k] in path;
      assert '/' in path ==> exists i :: 0 <= i < |path| && path[i] == '/';
    }
  }

  /** And the path that is then used is the target, or what follows the authority. */
  lemma PathOfTarget(target: string, f: Fields)
    requires TargetOk(target) && f.url == Some(target)
    ensures var url := HttpParser.NormaliseTarget(target, f).fields.url;
            && url.Some? && url.value != "" && url.value[0] == '/' && |url.value| <= |target|
            && url.value == target[|target| - |url.value|..]
            && (StartsIgnoringCase(target, "http://") ==> 7 + |url.value| <= |target| && '/' !in target[7..|target| - |url.value|])
            && (!StartsIgnoringCase(target, "http://") ==> url.value == target)
  {
    TargetAccepted(target, f);
    if StartsIgnoringCase(target, "http://") {
      var path := target[7..];
      var k := IndexOf(path, '/');
      assert path[k..] == target[7 + k..];
      assert target[7..7 + k] == path[..k];
      assert forall i :: 0 <= i < k ==> path[..k][i] != '/';
    }
  }

  lemma RequestTextClean(m: Message)
    requires Proper(m)
    ensures HttpResponse.Clean(RequestText(m))
  {}

  // ---- the whole request ----

  /** The state at the start of a line. */
  function At(phase: Phase, i: nat, f: Fields): Parser { Parser(phase, i, i, f) }

  lemma SliceAt(s: string, i: nat, line: string, rest: string)
    requires i <= |s| && s[i..] == line + CRLF + rest
    ensures i + |line| + 2 <= |s| && s[i..i + |line|] == line
    ensures s[i + |line|] == CR && s[i + |line| + 1] == LF && s[i + |line| + 2..] == rest
  {
    var d := s[i..];
    assert s[i..i + |line|] == d[..|line|];
    assert d[|line|] == CR && d[|line| + 1] == LF;
    assert s[i + |line| + 2..] == d[|line| + 2..];
  }

  lemma ScanAt(s: string, i: nat, line: string, rest: string)
    requires i <= |s| && s[i..] == line + CRLF + rest && HttpResponse.Clean(line)
    ensures ScanLine(s, i) == Scan(LineOk, i + |line| + 2) && i + |line| + 2 <= |s|
    ensures LineText(s, i, i + |line| + 2) == line && s[i + |line| + 2..] == rest
  {
    SliceAt(s, i, line, rest);
    assert forall k :: i <= k < i + |line| ==> s[k] == s[i..i + |line|][k - i];
    HttpResponse.ScanClean(s, i, |line|);
    UpToNulUnique(line, line);
  }

  /** A line that lies at the cursor is consumed and takes its effect. */
  lemma LineAt(g: Grammar, s: string, phase: Phase, i: nat, f: Fields, line: string, rest: string)
    requires phase != Content && i <= |s| && s[i..] == line + CRLF + rest && HttpResponse.Clean(line)
    ensures var next := i + |line| + 2;
            var r := LineEffect(g, phase, f, line, next);
            && next <= |s| && s[next..] == rest
            && HeaderPhase(g, s, At(phase, i, f)) == if r.event.More? then HeaderPhase(g, s, r.parser) else r
  {
    hide ScanLine, LineText, LineEffect, HttpResponse.Clean, NoBreaks;
    ScanAt(s, i, line, rest);
  }

  /** The fields after a block of header lines. */
  function Applied(g: Grammar, lines: seq<string>, f: Fields): Fields {
    if lines == [] then f else Applied(g, lines[1..], g.header(lines[0], f))
  }

  lemma EmptyIsClean()
    ensures HttpResponse.Clean("")
  {}

  lemma HeaderEffect(g: Grammar, f: Fields, line: string, next: nat)
    ensures LineEffect(g, Header, f, line, next) ==
            if line == "" then Progress(Parser(if g.done(f).Body? then Content else Header, next, next, f), g.done(f))
            else Progress(At(Header, next, g.header(line, f)), More)
  {}

  lemma JoinedBlock(lines: seq<string>, rest: string)
    ensures Joined(lines + [""], rest) ==
            if lines == [] then "" + CRLF + rest else lines[0] + CRLF + Joined(lines[1..] + [""], rest)
  {
    if lines == [] {
      assert lines + [""] == [""];
    } else {
      assert (lines + [""])[1..] == lines[1..] + [""];
    }
  }

  /** Non-empty header lines followed by a blank one take their effects in order. */
  lemma {:induction false} HeadersAt(g: Grammar, s: string, i: nat, f: Fields, lines: seq<string>, rest: string)
    requires i <= |s| && s[i..] == Joined(lines + [""], rest) && AllClean(lines) && "" !in lines
    requires !g.done(Applied(g, lines, f)).More?
    ensures |rest| <= |s|
    ensures var end, after := |s| - |rest|, Applied(g, lines, f);
            HeaderPhase(g, s, At(Header, i, f)) == LineEffect(g, Header, after, "", end)
            && s[end..] == rest
    decreases |lines|
  {
    hide HeaderPhase, Joined, HttpResponse.Clean, LineEffect;
    JoinedBlock(lines, rest);
    if lines == [] {
      EmptyIsClean();
      HeaderEffect(g, f, "", i + 2);
      LineAt(g, s, Header, i, f, "", rest);
    } else {
      var line := lines[0];
      assert line in lines;
      HeaderEffect(g, f, line, i + |line| + 2);
      LineAt(g, s, Header, i, f, line, Joined(lines[1..] + [""], rest));
      HeadersAt(g, s, i + |line| + 2, g.header(line, f), lines[1..], rest);
    }
  }

  lemma BodyFits(m: Message)
    ensures |m.body| <= |Printed(m)|
  {
    JoinedLength(m.lines + [""], m.body);
  }

  lemma {:induction false} JoinedLength(lines: seq<string>, body: string)
    ensures |body| <= |Joined(lines, body)|
    decreases |lines|
  {
    if lines != [] {
      JoinedLength(lines[1..], body);
    }
  }

  /** Where the body starts. */
  function BodyStart(m: Message): nat {
    BodyFits(m);
    |Printed(m)| - |m.body|
  }

  // ---- the headers of a request ----

  /** Parsing a request takes its lines one after the other, and stops at the body. */
  lemma RequestReadsBack(m: Message)
    requires Proper(m)
    ensures HeaderPhase(HTTP, Printed(m), INITIAL) == LineEffect(HTTP, Header, Applied(HTTP, m.lines, Start(m)), "", BodyStart(m))
    ensures Printed(m)[BodyStart(m)..] == m.body
  {
    hide HeaderPhase, Joined, ParseRequestLine, ParseHeader, HttpResponse.Clean, Start;
    var s, rest := Printed(m), Joined(m.lines + [""], m.body);
    var line := RequestText(m);
    RequestTextClean(m);
    RequestLineReadsBack(m);
    assert s[0..] == line + CRLF + rest;
    LineAt(HTTP, s, RequestLine, 0, INITIAL.fields, line, rest);
    HeadersAt(HTTP, s, |line| + 2, Start(m), m.lines, m.body);
  }

  /** The blank line always decides, and leaves the cursor behind it. */
  lemma BlankLineDecides(f: Fields, next: nat)
    ensures var r := LineEffect(HTTP, Header, f, "", next);
            !r.event.More? && r.parser.checked == next
  {}

  /** Headers never touch what the request line set. */
  lemma {:induction false} HeadersKeep(lines: seq<string>, f: Fields)
    ensures var h := Applied(HTTP, lines, f);
            h.verb == f.verb && h.url == f.url && h.version == f.version && h.route == f.route
    decreases |lines|
  {
    if lines != [] {
      HeaderKeeps(lines[0], f);
      hide ParseHeader;
      HeadersKeep(lines[1..], HTTP.header(lines[0], f));
    }
  }

  lemma HeaderKeeps(line: string, f: Fields)
    ensures var h := ParseHeader(line, f);
            h.verb == f.verb && h.url == f.url && h.version == f.version && h.route == f.route
  {}

  /** The declared length: that of the last Content-Length line, or `n` without one. */
  function LengthOf(lines: seq<string>, n: int): int
    decreases |lines|
  {
    if lines == [] then n
    else
      var last := lines[|lines| - 1];
      if StartsIgnoringCase(last, "Content-Length:") then ToInt32(Atol(HeaderValue(last, 15)))
      else LengthOf(lines[..|lines| - 1], n)
  }

  lemma {:induction false} AppliedSnoc(g: Grammar, lines: seq<string>, line: string, f: Fields)
    ensures Applied(g, lines + [line], f) == g.header(line, Applied(g, lines, f))
    decreases |lines|
  {
    if lines == [] {
      assert lines + [line] == [line];
    } else {
      assert (lines + [line])[1..] == lines[1..] + [line];
      AppliedSnoc(g, lines[1..], line, g.header(lines[0], f));
    }
  }

  /** Whatever else the headers are and in whatever order they come, the length that counts is that of
      the last Content-Length line. */
  lemma {:induction false} LastLengthCounts(lines: seq<string>, f: Fields)
    ensures Applied(HTTP, lines, f).contentLength == LengthOf(lines, f.contentLength)
    decreases |lines|
  {
    if lines != [] {
      var init, last := lines[..|lines| - 1], lines[|lines| - 1];
      assert init + [last] == lines;
      AppliedSnoc(HTTP, init, last, f);
      LengthHeader(last, Applied(HTTP, init, f));
      LastLengthCounts(init, f);
    }
  }

  lemma LengthHeader(line: string, f: Fields)
    ensures ParseHeader(line, f).contentLength ==
            if StartsIgnoringCase(line, "Content-Length:") then ToInt32(Atol(HeaderValue(line, 15))) else f.contentLength
  {
    hide Atol, ToInt32, LeadingBlanks;
    if StartsIgnoringCase(line, "Content-Length:") {
      assert Lower(line[..15][3]) == 't' && Lower("Connection:"[3]) == 'n';
      assert line[..11][3] == line[..15][3];
    }
  }

  /** The value of a header is what follows its name without leading spaces and tabs. */
  lemma ValueTrimmed(name: string, blanks: string, value: string)
    requires (forall i :: 0 <= i < |blanks| ==> blanks[i] == ' ' || blanks[i] == '\t')
    requires value != "" ==> value[0] != ' ' && value[0] != '\t'
    ensures HeaderValue(name + blanks + value, |name|) == value
  {
    var after := blanks + value;
    assert (name + blanks + value)[|name|..] == after;
    assert forall i :: 0 <= i < |blanks| ==> after[i] == blanks[i];
    LeadingBlanksAre(after, |blanks|);
    assert after[|blanks|..] == value;
  }

  lemma LeadingBlanksAre(text: string, k: nat)
    requires k <= |text| && (forall i :: 0 <= i < k ==> IsBlank(text[i])) && (k < |text| ==> !IsBlank(text[k]))
    ensures LeadingBlanks(text) == k
  {}

  /** Only `keep-alive` and `close`, in any case, change the persistence of a connection; only a Bearer
      authorization gives a token, which is all that follows. */
  lemma HeaderMeanings(line: string, f: Fields)
    ensures StartsIgnoringCase(line, "Connection:") ==>
              var value := HeaderValue(line, 11);
              ParseHeader(line, f) == f.(linger := if SameIgnoringCase(value, "keep-alive") then true
                                                   else if SameIgnoringCase(value, "close") then false
                                                   else f.linger)
    ensures StartsIgnoringCase(line, "Authorization:") ==>
              var value := HeaderValue(line, 14);
              ParseHeader(line, f) == f.(token := if "Bearer " <= value then value[7..] else f.token)
  {
    if StartsIgnoringCase(line, "Authorization:") {
      assert Lower(line[..14][0]) == 'a' && line[..14][0] == line[0];
      assert |line| >= 11 ==> line[..11][0] == line[0] && Lower("Connection:"[0]) == 'c';
      assert |line| >= 15 ==> line[..15][0] == line[0] && Lower("Content-Length:"[0]) == 'c';
      assert line[..5][0] == line[0] && Lower("Host:"[0]) == 'h';
    }
    hide HeaderValue, SameIgnoringCase;
  }

  /** Header names are read in any case: a line whose first `k` characters, up to the colon, are put in
      capitals has the same effect. */
  lemma NameInCapitals(line: string, k: nat, f: Fields)
    requires k <= |line| && forall i :: 0 <= i < k ==> line[i] != ':'
    requires k == |line| || line[k] == ':'
    ensures ParseHeader(Capitals(line[..k]) + line[k..], f) == ParseHeader(line, f)
  {
    hide StartsIgnoringCase, SameIgnoringCase, Capitals, Atol, LeadingBlanks, ToInt32;
    CapitalName(line, k, "Connection:");
    CapitalName(line, k, "Content-Length:");
    CapitalName(line, k, "Host:");
    CapitalName(line, k, "Authorization:");
  }

  lemma CapitalName(line: string, k: nat, name: string)
    requires k <= |line| && (forall i :: 0 <= i < k ==> line[i] != ':') && (k == |line| || line[k] == ':')
    requires |name| > 0 && name[|name| - 1] == ':' && forall i :: 0 <= i < |name| - 1 ==> name[i] != ':'
    ensures var loud := Capitals(line[..k]) + line[k..];
            && |loud| == |line|
            && (StartsIgnoringCase(loud, name) <==> StartsIgnoringCase(line, name))
            && (StartsIgnoringCase(line, name) ==> loud[|name|..] == line[|name|..])
  {
    var loud := Capitals(line[..k]) + line[k..];
    assert forall i :: 0 <= i < |line| ==> Lower(loud[i]) == Lower(line[i]) && (i >= k ==> loud[i] == line[i]);
    if |name| <= |line| {
      assert forall i :: 0 <= i < |name| ==> loud[..|name|][i] == loud[i] && line[..|name|][i] == line[i];
      if StartsIgnoringCase(line, name) {
        assert Lower(line[..|name|][|name| - 1]) == Lower(':') == ':';
        assert line[|name| - 1] == ':';
        assert k <= |name| - 1;
        assert loud[|name|..] == line[|name|..];
      }
    }
  }

  // ---- the endpoint table ----

  /** The documented endpoints: which handler a method and a path belong to. */
  function Endpoint(verb: Method, path: string): Option<Handler> {
    match verb
    case GET =>
      if "/api/resources" <= path then Some(GetResources)
      else if "/api/files/download-url" <= path then Some(DownloadUrl)
      else if path == "/health" then Some(Health)
      else None
    case POST =>
      if "/api/register" <= path then Some(Register)
      else if "/api/login" <= path then Some(Login)
      else if "/api/logout" <= path then Some(Logout)
      else if "/api/resources" <= path then Some(PostResource)
      else if "/api/files/upload-url" <= path then Some(UploadUrl)
      else None
    case PUT => if "/api/resources" <= path then Some(PutResource) else None
    case DELETE => if "/api/resources" <= path then Some(DeleteResource) else None
    case HEAD => None
  }

  predicate TakesBody(h: Handler) {
    h.Register? || h.Login? || h.Logout? || h.PostResource? || h.PutResource? || h.UploadUrl?
  }

  /** No registered path is a prefix of another, so the order of the tests does not matter: each
      marker is set exactly for its own path. */
  lemma RouteExact(path: string)
    ensures RouteOf(path, 0) == 1 <==> "/api/resources" <= path
    ensures RouteOf(path, 0) == 2 <==> "/api/login" <= path
    ensures RouteOf(path, 0) == 3 <==> "/api/logout" <= path
    ensures RouteOf(path, 0) == 4 <==> "/api/register" <= path
    ensures RouteOf(path, 0) == 5 <==> "/api/files/upload-url" <= path
    ensures RouteOf(path, 0) == 6 <==> "/api/files/download-url" <= path
    ensures RouteOf(path, 0) == 7 <==> path == "/health"
    ensures 0 <= RouteOf(path, 0) <= 7
  {
    assert "/api/resources" <= path ==> path[5] == 'r' && path[7] == 's';
    assert "/api/register" <= path ==> path[5] == 'r' && path[7] == 'g';
    assert "/api/login" <= path ==> path[5] == 'l' && path[8] == 'i';
    assert "/api/logout" <= path ==> path[5] == 'l' && path[8] == 'o';
    assert "/api/files/upload-url" <= path ==> path[5] == 'f' && path[11] == 'u';
    assert "/api/files/download-url" <= path ==> path[5] == 'f' && path[11] == 'd';
    assert path == "/health" ==> path[1] == 'h';
  }

  /** Whether a request for endpoint `h` with declared length `n` gets to its body. */
  predicate ReachesBody(h: Option<Handler>, n: int) {
    && (h.Some? ==> TakesBody(h.value))
    && (n == 0 ==> h.Some? && !h.value.PostResource? && !h.value.PutResource?)
  }

  /** What becomes of a request for endpoint `h` with declared length `n`, whose body starts at `start`.
      Requests without an endpoint, and empty creates and updates, are not found; a length whose end is
      no position of the buffer has no specified outcome; an incomplete body is a bad request; and the
      handler gets the declared bytes up to their first NUL. */
  function Verdict(h: Option<Handler>, n: int, start: nat, body: string): Outcome {
    if h.Some? && !TakesBody(h.value) then Call(h.value, "")
    else if n == 0 && (h.None? || h.value.PostResource? || h.value.PutResource?) then NoResource
    else if start + n < 0 || start + n > INT_MAX then Unspecified
    else if |body| < n then BadRequest
    else if h.None? then NoResource
    else Call(h.value, UpToNul(if n < 0 then body else body[..n]))
  }

  /** What the blank line leads to, once the fields are known. */
  lemma Routed(s: string, f: Fields, path: string, start: nat, body: string)
    requires start + |body| == |s| && s[start..] == body && f.route == RouteOf(path, 0) && f.verb != HEAD
    ensures Finish(s, LineEffect(HTTP, Header, f, "", start)) == Verdict(Endpoint(f.verb, path), f.contentLength, start, body)
  {
    hide RouteOf, UpToNul;
    RouteExact(path);
    var n := f.contentLength;
    if 0 <= n <= |body| {
      assert s[start..start + n] == s[start..][..n];
    } else {
      assert s[start..|s|] == s[start..];
    }
  }

  lemma VerbKnown(word: string)
    ensures VerbOf(word, GET) != HEAD
  {}

  /** From request to handler: every request in origin form - any method word, any path, any header
      lines in any order, any declared length and any bytes behind the blank line - meets exactly the
      fate the endpoint table and its declared length give it. */
  lemma RequestRouted(m: Message)
    requires Proper(m)
    ensures HttpParser.ProcessRead(HTTP, Printed(m), INITIAL)
            == Verdict(Endpoint(VerbOf(m.word, GET), m.path), LengthOf(m.lines, 0), BodyStart(m), m.body)
  {
    hide HeaderPhase, RouteOf, VerbOf, Printed, LineEffect, Endpoint, Finish, Verdict, Proper, Applied, LengthOf;
    RequestReadsBack(m);
    HeadersKeep(m.lines, Start(m));
    LastLengthCounts(m.lines, Start(m));
    VerbKnown(m.word);
    BodyFits(m);
    Routed(Printed(m), Applied(HTTP, m.lines, Start(m)), m.path, BodyStart(m), m.body);
  }

  // ---- particular requests ----

  /** A complete request with a text body reaches its endpoint with exactly that body, and 404 without
      one; empty creates and updates are the only exception. */
  lemma CompleteRequestServed(m: Message)
    requires Proper(m) && LengthOf(m.lines, 0) == |m.body| && NUL !in m.body && |Printed(m)| <= INT_MAX
    ensures HttpParser.ProcessRead(HTTP, Printed(m), INITIAL) ==
            match Endpoint(VerbOf(m.word, GET), m.path)
            case None => NoResource
            case Some(h) =>
              if (h.PostResource? || h.PutResource?) && m.body == "" then NoResource
              else Call(h, if TakesBody(h) then m.body else "")
  {
    hide HeaderPhase, HttpParser.ProcessRead, RouteOf, VerbOf, Printed, Endpoint, LengthOf, Proper;
    RequestRouted(m);
    BodyFits(m);
    assert m.body[..|m.body|] == m.body;
  }

  /** Each of the four method words, in any case, selects its own method. */
  lemma MethodWordsExact(m: Message)
    requires Proper(m)
    ensures var outcome, n, start := HttpParser.ProcessRead(HTTP, Printed(m), INITIAL), LengthOf(m.lines, 0), BodyStart(m);
            && (SameIgnoringCase(m.word, "GET") ==> outcome == Verdict(Endpoint(GET, m.path), n, start, m.body))
            && (SameIgnoringCase(m.word, "POST") ==> outcome == Verdict(Endpoint(POST, m.path), n, start, m.body))
            && (SameIgnoringCase(m.word, "PUT") ==> outcome == Verdict(Endpoint(PUT, m.path), n, start, m.body))
            && (SameIgnoringCase(m.word, "DELETE") ==> outcome == Verdict(Endpoint(DELETE, m.path), n, start, m.body))
  {
    hide HeaderPhase, HttpParser.ProcessRead, Printed, LengthOf, Proper, Verdict, Endpoint, RouteOf;
    RequestRouted(m);
    assert SameIgnoringCase(m.word, "GET") ==> |m.word| == 3 && Lower(m.word[0]) == 'g';
    assert SameIgnoringCase(m.word, "PUT") ==> |m.word| == 3 && Lower(m.word[0]) == 'p';
    assert SameIgnoringCase(m.word, "POST") ==> |m.word| == 4;
    assert SameIgnoringCase(m.word, "DELETE") ==> |m.word| == 6;
  }

  /** For instance, a delete of a resource reaches the delete handler and nothing else does without a body,
      and an update with its whole body reaches the update handler. */
  lemma UpdateAndDelete(m: Message)
    requires Proper(m) && "/api/resources" <= m.path
    ensures SameIgnoringCase(m.word, "DELETE") ==> HttpParser.ProcessRead(HTTP, Printed(m), INITIAL) == Call(DeleteResource, "")
    ensures SameIgnoringCase(m.word, "PUT") && 0 < LengthOf(m.lines, 0) == |m.body| && NUL !in m.body && |Printed(m)| <= INT_MAX ==>
              HttpParser.ProcessRead(HTTP, Printed(m), INITIAL) == Call(PutResource, m.body)
  {
    hide HeaderPhase, HttpParser.ProcessRead, Printed, LengthOf, Proper, SameIgnoringCase;
    MethodWordsExact(m);
    BodyFits(m);
    assert m.body[..|m.body|] == m.body;
  }

  /** A method word the server does not know is treated as GET. */
  lemma UnknownMethodRunsAsGet(m: Message)
    requires Proper(m)
    requires forall w :: w in {"GET", "POST", "PUT", "DELETE"} ==> !SameIgnoringCase(m.word, w)
    ensures HttpParser.ProcessRead(HTTP, Printed(m), INITIAL)
            == Verdict(Endpoint(GET, m.path), LengthOf(m.lines, 0), BodyStart(m), m.body)
    ensures "/api/resources" <= m.path ==> HttpParser.ProcessRead(HTTP, Printed(m), INITIAL) == Call(GetResources, "")
  {
    hide HeaderPhase, HttpParser.ProcessRead, Printed, LengthOf, Proper, SameIgnoringCase;
    RequestRouted(m);
  }

  /** The declared length takes the terminator out of the buffer's range, so that C++ says nothing about
      the request any more, if and only if the request reaches the body phase and its declared end is
      negative or above INT_MAX. */
  lemma UnspecifiedIff(m: Message)
    requires Proper(m)
    ensures var h, n := Endpoint(VerbOf(m.word, GET), m.path), LengthOf(m.lines, 0);
            HttpParser.ProcessRead(HTTP, Printed(m), INITIAL).Unspecified? <==>
              && ReachesBody(h, n)
              && (BodyStart(m) + n < 0 || BodyStart(m) + n > INT_MAX)
  {
    hide HeaderPhase, HttpParser.ProcessRead, RouteOf, VerbOf, Printed, Endpoint, LengthOf, Proper, UpToNul;
    RequestRouted(m);
  }

  /** A login request that declares length `n` and ends with its headers. */
  function EmptyLogin(n: int): Message {
    Message("POST", "/api/login", "HTTP/1.1", [HttpResponse.LengthText(n)], "")
  }

  lemma LoginWords()
    ensures HttpResponse.Clean("POST") && NoBlanks("POST") && HttpResponse.Clean("/api/login") && NoBlanks("/api/login")
    ensures HttpResponse.Clean("HTTP/1.1") && SameIgnoringCase("HTTP/1.1", "HTTP/1.1")
  {}

  lemma LoginProper(n: int)
    requires -INT_MAX - 1 <= n <= INT_MAX
    ensures Proper(EmptyLogin(n)) && LengthOf(EmptyLogin(n).lines, 0) == n
  {
    hide HttpResponse.LengthText, ParseHeader, HttpResponse.Clean, NoBlanks, SameIgnoringCase, LengthOf;
    var line := HttpResponse.LengthText(n);
    LoginWords();
    HttpResponse.LengthHeaderReadsBack(n, INITIAL.fields);
    LengthTextNotEmpty(n);
    LastLengthCounts([line], INITIAL.fields);
    assert [line][1..] == [];
    assert Applied(HTTP, [line], INITIAL.fields) == Applied(HTTP, [], ParseHeader(line, INITIAL.fields));
  }

  lemma LengthTextNotEmpty(n: int)
    ensures HttpResponse.LengthText(n) != ""
  {}

  /** For instance, POST /api/login with Content-Length: -100 and no other header. */
  lemma NegativeLengthUnspecified()
    ensures Proper(EmptyLogin(-100))
    ensures HttpParser.ProcessRead(HTTP, Printed(EmptyLogin(-100)), INITIAL).Unspecified?
  {
    hide HeaderPhase, HttpParser.ProcessRead, Proper, LengthOf;
    LoginProper(-100);
    UnspecifiedIff(EmptyLogin(-100));
    LoginStart(-100);
    assert Endpoint(VerbOf("POST", GET), "/api/login") == Some(Login);
  }

  lemma LoginStart(n: int)
    requires -INT_MAX - 1 <= n <= INT_MAX
    ensures BodyStart(EmptyLogin(n)) <= 70
  {
    var m := EmptyLogin(n);
    HttpResponse.IntTextLength(n);
    assert m.lines + [""] == [HttpResponse.LengthText(n), ""];
    assert [HttpResponse.LengthText(n), ""][1..] == [""] && [""][1..] == [];
    assert Joined([""], "") == "" + CRLF + "";
  }

  /** A line that ends in a bare LF is never answered, whatever comes before its end and after it. */
  lemma BareLineFeedNeverAnswered(line: string, rest: string)
    requires HttpResponse.Clean(line)
    ensures HeaderPhase(HTTP, line + [LF] + rest, INITIAL) == Progress(INITIAL.(checked := |line|), More)
    ensures HttpParser.ProcessRead(HTTP, line + [LF] + rest, INITIAL) == NeedMore
  {
    var s := line + [LF] + rest;
    assert forall k :: 0 <= k < |line| ==> s[k] == line[k];
    ScanBad(s, 0, |line|);
  }

  lemma {:induction false} ScanBad(s: string, i: nat, k: nat)
    requires i + k < |s| && s[i + k] == LF && NoBreaks(s, i, i + k)
    ensures ScanLine(s, i) == Scan(LineBad, i + k)
    decreases k
  {
    if k > 0 {
      ScanBad(s, i + 1, k - 1);
    }
  }

  /** For instance, a health check with Unix line endings. */
  lemma UnixLineEndings()
    ensures HttpParser.ProcessRead(HTTP, "GET /health HTTP/1.1\n\n", INITIAL) == NeedMore
  {
    assert "GET /health HTTP/1.1\n\n" == "GET /health HTTP/1.1" + [LF] + "\n";
    BareLineFeedNeverAnswered("GET /health HTTP/1.1", "\n");
  }

  // ---- a typical client ----

  /** The header lines of a client that sends its host, persistence, token and body length. */
  function TypicalLines(host: string, linger: bool, token: string, n: int): seq<string> {
    ["Host: " + host, HttpResponse.LingerText(linger), "Authorization: " + ("Bearer " + token), HttpResponse.LengthText(n)]
  }

  lemma HostReadsBack(host: string, f: Fields)
    requires host != "" ==> !IsBlank(host[0])
    ensures ParseHeader("Host: " + host, f) == f.(host := Some(host))
  {
    var text := "Host: " + host;
    assert |text| >= 11 ==> Lower(text[..11][0]) != Lower("Connection:"[0]);
    assert |text| >= 15 ==> Lower(text[..15][0]) != Lower("Content-Length:"[0]);
    assert text[..5] == "Host:";
    var after := text[5..];
    assert after == " " + host;
    assert after[1..] == host;
    assert LeadingBlanks(after) == 1;
  }

  lemma TokenReadsBack(token: string, f: Fields)
    ensures ParseHeader("Authorization: " + ("Bearer " + token), f) == f.(token := token)
  {
    var value := "Bearer " + token;
    var text := "Authorization: " + value;
    assert Lower(text[..11][0]) != Lower("Connection:"[0]);
    assert Lower(text[..15][0]) != Lower("Content-Length:"[0]);
    assert Lower(text[..5][0]) != Lower("Host:"[0]);
    assert text[..14] == "Authorization:";
    var after := text[14..];
    assert after == " " + value;
    assert after[1..] == value;
    assert LeadingBlanks(after) == 1;
    assert value[7..] == token;
  }

  /** Each of its lines is read back into the field it is about. */
  lemma TypicalFields(host: string, linger: bool, token: string, n: int, f: Fields)
    requires (host != "" ==> !IsBlank(host[0])) && -INT_MAX - 1 <= n <= INT_MAX
    ensures Applied(HTTP, TypicalLines(host, linger, token, n), f)
            == f.(host := Some(host), linger := linger, token := token, contentLength := n)
  {
    hide ParseHeader, HttpResponse.LingerText, HttpResponse.LengthText;
    var lines := TypicalLines(host, linger, token, n);
    var b, c, d := lines[1], lines[2], lines[3];
    var f1 := f.(host := Some(host));
    var f2 := f1.(linger := linger);
    var f3 := f2.(token := token);
    HostReadsBack(host, f);
    HttpResponse.LingerHeaderReadsBack(linger, f1);
    TokenReadsBack(token, f2);
    HttpResponse.LengthHeaderReadsBack(n, f3);
    assert lines[1..] == [b, c, d] && [b, c, d][1..] == [c, d] && [c, d][1..] == [d] && [d][1..] == [];
    assert Applied(HTTP, [d], f3) == f3.(contentLength := n);
    assert Applied(HTTP, [c, d], f2) == Applied(HTTP, [d], f3);
    assert Applied(HTTP, [b, c, d], f1) == Applied(HTTP, [c, d], f2);
  }

  /** Round trip for such a client: after the header phase every field is the one it wrote. */
  lemma TypicalRequestReadsBack(m: Message, host: string, linger: bool, token: string)
    requires Proper(m) && m.lines == TypicalLines(host, linger, token, |m.body|) && |m.body| <= INT_MAX
    requires host != "" ==> !IsBlank(host[0])
    ensures HeaderPhase(HTTP, Printed(m), INITIAL).parser.fields ==
            Fields(VerbOf(m.word, GET), Some(m.path), Some(m.version), Some(host), |m.body|, linger, token, RouteOf(m.path, 0))
  {
    hide HeaderPhase, RouteOf, VerbOf, Printed, Proper, Applied, TypicalLines;
    RequestReadsBack(m);
    TypicalFields(host, linger, token, |m.body|, Start(m));
  }
}
