/** The receiving half of the connection object in src/network/http_conn.*: a fixed read buffer
    parsed in place, with cursors that survive from one read to the next. */
module RequestReader {
  import opened Runs
  import opened Text
  import opened HttpParser

  /** How the kernel ends a read() call once no more bytes arrive. */
  datatype Ending = WouldBlock | Failed | PeerClosed

  /** The parsed request as the object stores it: `url`, `version` and `host` are offsets into the
      read buffer, with -1 for the null pointer. */
  datatype Request = Request(
    verb: Method, url: int, version: int, host: int,
    contentLength: int, linger: bool, token: string, route: int)

  const NO_REQUEST: Request := Request(GET, -1, -1, -1, 0, true, "", 0)

  // ---- facts about a snapshot `b` of the read buffer ----

  /** Offset `p` (or null, -1) denotes C string `t`, which ends before offset `limit`. */
  ghost predicate Denotes(b: string, p: int, t: Option<string>, limit: nat) {
    match t
    case None => p == -1
    case Some(x) =>
      && 0 <= p && p + |x| < limit <= |b|
      && b[p..p + |x|] == x && b[p + |x|] == NUL && NUL !in x
  }

  /** From `start` on the buffer shows the stream, then zeros; the byte before `start` is a terminator. */
  ghost predicate Shows(b: string, s: string, start: nat) {
    && |b| == READ_BUFFER_SIZE && start <= |s| <= READ_BUFFER_SIZE
    && (forall k :: start <= k < |s| ==> b[k] == s[k])
    && (forall k :: |s| <= k < |b| ==> b[k] == NUL)
    && (start > 0 ==> b[start - 1] == NUL)
  }

  ghost predicate SameOutside(b: string, c: string, from: int, to: int) {
    |b| == |c| && forall k :: 0 <= k < |b| && !(from <= k < to) ==> b[k] == c[k]
  }

  /** Strings below `from` survive writes at or above it. */
  lemma DenotesFrame(b: string, c: string, p: int, t: Option<string>, limit: nat, limit': nat, from: int, to: int)
    requires Denotes(b, p, t, limit) && limit <= from && limit <= limit' <= |b| && SameOutside(b, c, from, to)
    ensures Denotes(c, p, t, limit')
  {
    if t.Some? {
      assert c[p..p + |t.value|] == b[p..p + |t.value|];
    }
  }

  lemma DenotesInside(b: string, p: int, x: string, limit: nat)
    requires Denotes(b, p, Some(x), limit)
    ensures 0 <= p && p + |x| < limit <= |b|
  {}

  lemma DenotesText(b: string, p: nat, x: string, limit: nat)
    requires p + |x| < limit <= |b| && b[p..p + |x|] == x && b[p + |x|] == NUL && NUL !in x
    ensures Denotes(b, p, Some(x), limit)
  {}

  lemma DenotesNull(b: string, limit: nat)
    ensures Denotes(b, -1, None, limit)
  {}

  /** A suffix of a C string is the C string further on. */
  lemma DenotesSuffix(b: string, p: int, x: string, k: nat, limit: nat)
    requires Denotes(b, p, Some(x), limit) && k <= |x|
    ensures Denotes(b, p + k, Some(x[k..]), limit)
  {
    assert b[p + k..p + |x|] == b[p..p + |x|][k..];
    assert forall c :: c in x[k..] ==> c in x;
  }

  /** A terminator stored at offset `k` of a C string splits it in two. */
  lemma DenotesCut(b: string, p: int, x: string, k: nat, limit: nat)
    requires Denotes(b, p, Some(x), limit) && k < |x|
    ensures var c := b[p + k := NUL];
            Denotes(c, p, Some(x[..k]), limit) && Denotes(c, p + k + 1, Some(x[k + 1..]), limit) &&
            SameOutside(b, c, p, p + |x|)
  {
    var c := b[p + k := NUL];
    assert c[p..p + k] == b[p..p + |x|][..k];
    assert c[p + k + 1..p + |x|] == b[p..p + |x|][k + 1..];
    assert forall d :: d in x[..k] ==> d in x;
    assert forall d :: d in x[k + 1..] ==> d in x;
  }

  lemma SlicePrefix(c: string, bytes: string, start: nat, t: string)
    requires start + |bytes| <= |c| && c[start..start + |bytes|] == bytes && t <= bytes
    ensures c[start..start + |t|] == t
    ensures |t| < |bytes| ==> c[start + |t|] == bytes[|t|]
  {
    var d := c[start..];
    assert d[..|bytes|] == c[start..start + |bytes|];
    assert d[..|t|] == c[start..start + |t|];
    assert t == bytes[..|t|];
  }

  /** Bytes shown at `start` and followed by a terminator are read up to their first one. */
  lemma PrefixDenotes(c: string, bytes: string, start: nat, limit: nat)
    requires start + |bytes| < limit <= |c|
    requires c[start..start + |bytes|] == bytes && c[start + |bytes|] == NUL
    ensures Denotes(c, start, Some(UpToNul(bytes)), limit)
  {
    hide UpToNul, Denotes;
    var t := UpToNul(bytes);
    SlicePrefix(c, bytes, start, t);
    assert c[start + |t|] == NUL;
    DenotesText(c, start, t, limit);
  }

  lemma DenotesEmpty(b: string, p: nat, x: string, limit: nat)
    requires Denotes(b, p, Some(x), limit)
    ensures p < |b| && (b[p] == NUL <==> x == "")
  {
    assert x != "" ==> b[p] == b[p..p + |x|][0] == x[0] && x[0] in x;
  }

  lemma ShowsSize(b: string, s: string, start: nat)
    requires Shows(b, s, start)
    ensures start <= |s| <= |b| == READ_BUFFER_SIZE
  {}

  /** Overwriting the CRLF that ends at `next` turns the line at `start` into a C string. */
  lemma LineTerminated(b: string, s: string, start: nat, next: nat)
    requires Shows(b, s, start) && start + 2 <= next <= |s|
    ensures var c := b[next - 2 := NUL][next - 1 := NUL];
            Shows(c, s, next) && SameOutside(b, c, start, next) &&
            Denotes(c, start, Some(LineText(s, start, next)), next)
  {
    var c := b[next - 2 := NUL][next - 1 := NUL];
    assert c[start..next - 2] == s[start..next - 2];
    PrefixDenotes(c, s[start..next - 2], start, next);
  }

  /** What parse_line leaves behind: the next line as a C string, or the buffer as it was. */
  lemma LineScanned(b: string, s: string, start: nat, checked: nat, raw: RawScan)
    requires Shows(b, s, start) && start <= checked <= |s| && NoBreaks(s, start, checked)
    requires RawParseLine(b, checked, |s|) == raw
    ensures Scan(raw.status, raw.next) == ScanLine(s, checked)
    ensures !raw.status.LineOk? ==> raw.buffer == b && NoBreaks(s, start, raw.next)
    ensures raw.status.LineOk? ==>
              && start + 2 <= raw.next && Shows(raw.buffer, s, raw.next) && SameOutside(b, raw.buffer, start, raw.next)
              && Denotes(raw.buffer, start, Some(LineText(s, start, raw.next)), raw.next)
  {
    hide Denotes, SameOutside, RawParseLine, LineText;
    RawParseLineIsScan(b, s, start, checked);
    if raw.status.LineOk? {
      LineTerminated(b, s, start, raw.next);
    }
  }

  /** A terminator at `end` turns the buffered body into a C string; one before `text` changes nothing. */
  lemma BodyTerminated(b: string, s: string, text: nat, end: nat)
    requires Shows(b, s, text) && end <= |s| < READ_BUFFER_SIZE
    ensures var bytes := s[text..if end < text then |s| else end];
            Denotes(b[end := NUL], text, Some(UpToNul(bytes)), READ_BUFFER_SIZE)
  {
    var bytes := s[text..if end < text then |s| else end];
    assert b[end := NUL][text..text + |bytes|] == bytes;
    PrefixDenotes(b[end := NUL], bytes, text, READ_BUFFER_SIZE);
  }

  /** Request `r` over buffer `b` stands for fields `f`, all its strings ending before `limit`. */
  ghost predicate Represents(b: string, r: Request, f: Fields, limit: nat) {
    && Denotes(b, r.url, f.url, limit) && Denotes(b, r.version, f.version, limit)
    && Denotes(b, r.host, f.host, limit)
    && f.verb == r.verb && f.contentLength == r.contentLength && f.linger == r.linger
    && f.token == r.token && f.route == r.route
  }

  /** Parsed fields survive every write above them. */
  lemma RepresentsFrame(b: string, c: string, r: Request, f: Fields, limit: nat, limit': nat, from: int, to: int)
    requires Represents(b, r, f, limit) && limit <= from && limit <= limit' <= |b| && SameOutside(b, c, from, to)
    ensures Represents(c, r, f, limit')
  {
    DenotesFrame(b, c, r.url, f.url, limit, limit', from, to);
    DenotesFrame(b, c, r.version, f.version, limit, limit', from, to);
    DenotesFrame(b, c, r.host, f.host, limit, limit', from, to);
  }

  lemma SameOutsideTrans(b: string, c: string, d: string, from: int, mid: int, to: int)
    requires SameOutside(b, c, from, to) && SameOutside(c, d, mid, to) && from <= mid
    ensures SameOutside(b, d, from, to)
  {}

  /** Bytes stored behind the stream extend it. */
  lemma ShowsAppend(b: string, c: string, s: string, bytes: string, start: nat)
    requires Shows(b, s, start) && |s| + |bytes| <= READ_BUFFER_SIZE
    requires SameOutside(b, c, |s|, |s| + |bytes|) && c[|s|..|s| + |bytes|] == bytes
    ensures Shows(c, s + bytes, start)
  {
    assert forall k :: |s| <= k < |s| + |bytes| ==> c[k] == c[|s|..|s| + |bytes|][k - |s|];
  }

  lemma ShowsFrame(b: string, c: string, s: string, start: nat, from: int, to: int)
    requires Shows(b, s, start) && SameOutside(b, c, from, to) && to < start
    ensures Shows(c, s, start)
  {}

  class Reader {
    const readBuf: array<char>
    var readIndex: nat
    var checkedIndex: nat
    var startLine: nat
    var checkState: Phase
    var request: Request
    ghost var stream: string  // every byte received since the last reset
    ghost var fields: Fields  // the request with its pointers replaced by the strings they denote

    /** The cursors are in order and the buffer shows what has not been consumed. */
    ghost predicate BufferOk()
      reads this, readBuf
    {
      && startLine <= checkedIndex <= readIndex == |stream|
      && Shows(readBuf[..], stream, startLine)
      && NoBreaks(stream, startLine, checkedIndex)
    }

    /** Between requests and while one is being received. */
    ghost predicate Valid()
      reads this, readBuf
    {
      BufferOk() && Represents(readBuf[..], request, fields, startLine) && checkState != Content
    }

    ghost function Abs(): Parser
      reads this
    {
      Parser(checkState, checkedIndex, startLine, fields)
    }

    constructor ()
      ensures Valid() && stream == "" && Abs() == INITIAL && fresh(readBuf)
    {
      readBuf := new char[READ_BUFFER_SIZE](_ => NUL);
      readIndex, checkedIndex, startLine, checkState := 0, 0, 0, RequestLine;
      request, stream, fields := NO_REQUEST, "", INITIAL.fields;
    }

    /** init(): forget the request, including any bytes received behind it. */
    method Reset()
      requires readBuf.Length == READ_BUFFER_SIZE
      modifies this, readBuf
      ensures Valid() && stream == "" && Abs() == INITIAL
    {
      readIndex, checkedIndex, startLine, checkState := 0, 0, 0, RequestLine;
      request, stream, fields := NO_REQUEST, "", INITIAL.fields;
      forall k | 0 <= k < readBuf.Length { readBuf[k] := NUL; }
    }

    /** One successful recv. */
    method Receive(bytes: string)
      requires Valid() && readIndex + |bytes| <= READ_BUFFER_SIZE
      modifies this, readBuf
      ensures Valid() && stream == old(stream) + bytes && Abs() == old(Abs())
    {
      hide Denotes;
      ghost var b := readBuf[..];
      forall k | 0 <= k < |bytes| { readBuf[readIndex + k] := bytes[k]; }
      assert SameOutside(b, readBuf[..], readIndex, readIndex + |bytes|);
      assert readBuf[..][readIndex..readIndex + |bytes|] == bytes;
      RepresentsFrame(b, readBuf[..], request, fields, startLine, startLine, readIndex, readIndex + |bytes|);
      ShowsAppend(b, readBuf[..], stream, bytes, startLine);
      readIndex := readIndex + |bytes|;
      stream := stream + bytes;
    }

    /** read(): drain the socket. However the kernel slices `pending` into recv results, the call
        succeeds exactly when the socket runs dry with room left, and then has taken all of it. */
    method Read(pending: string, ending: Ending) returns (ok: bool)
      requires Valid()
      modifies this, readBuf
      ensures ok <==> ending.WouldBlock? && old(readIndex) + |pending| < READ_BUFFER_SIZE
      ensures ok ==> Valid() && stream == old(stream) + pending && Abs() == old(Abs()) && readIndex < READ_BUFFER_SIZE
    {
      if readIndex >= READ_BUFFER_SIZE {
        return false;
      }
      var rest := pending;
      while true
        invariant Valid() && stream + rest == old(stream) + pending && Abs() == old(Abs())
        decreases |rest|
      {
        var want := READ_BUFFER_SIZE - readIndex;
        if want == 0 {
          return false;  // recv of length zero returns 0
        }
        if rest == "" {
          return ending.WouldBlock?;
        }
        var n :| 1 <= n <= want && n <= |rest|;
        assert stream + rest == stream + rest[..n] + rest[n..];
        Receive(rest[..n]);
        rest := rest[n..];
      }
    }

    /** parse_line(), for any buffer contents. */
    method ParseLine() returns (status: LineStatus)
      requires checkedIndex <= readIndex <= readBuf.Length
      modifies this`checkedIndex, readBuf
      ensures RawParseLine(old(readBuf[..]), old(checkedIndex), readIndex) == RawScan(status, checkedIndex, readBuf[..])
    {
      while checkedIndex < readIndex
        invariant checkedIndex <= readIndex && readBuf[..] == old(readBuf[..])
        invariant RawParseLine(readBuf[..], checkedIndex, readIndex)
               == RawParseLine(old(readBuf[..]), old(checkedIndex), readIndex)
      {
        var temp := readBuf[checkedIndex];
        if temp == CR {
          if checkedIndex + 1 == readIndex {
            return LineOpen;
          } else if readBuf[checkedIndex + 1] == LF {
            readBuf[checkedIndex], readBuf[checkedIndex + 1] := NUL, NUL;
            checkedIndex := checkedIndex + 2;
            return LineOk;
          }
          return LineBad;
        } else if temp == LF {
          if checkedIndex > 1 && readBuf[checkedIndex - 1] == CR {
            readBuf[checkedIndex - 1], readBuf[checkedIndex] := NUL, NUL;
            checkedIndex := checkedIndex + 1;
            return LineOk;
          }
          return LineBad;
        }
        checkedIndex := checkedIndex + 1;
      }
      return LineOpen;
    }

    /** One turn of the loop head in process_read: scan, and step over a complete line. */
    method NextLine() returns (status: LineStatus)
      requires Valid()
      modifies this`checkedIndex, this`startLine, readBuf
      ensures BufferOk() && Represents(readBuf[..], request, fields, old(startLine))
      ensures Scan(status, checkedIndex) == ScanLine(stream, old(checkedIndex))
      ensures !status.LineOk? ==> startLine == old(startLine)
      ensures status.LineOk? ==>
                startLine == checkedIndex &&
                Denotes(readBuf[..], old(startLine),
                        Some(LineText(stream, old(startLine), checkedIndex)), startLine)
    {
      hide Denotes, Represents, Shows, SameOutside, RawParseLine, LineText;
      ghost var b, from := readBuf[..], checkedIndex;
      ShowsSize(b, stream, startLine);
      status := ParseLine();
      LineScanned(b, stream, startLine, from, RawScan(status, checkedIndex, readBuf[..]));
      if status == LineOk {
        RepresentsFrame(b, readBuf[..], request, fields, startLine, startLine, startLine, checkedIndex);
        startLine := checkedIndex;
      }
    }

    /** The C string at `p`. */
    method Load(p: nat, ghost x: string, ghost limit: nat) returns (s: string)
      requires Denotes(readBuf[..], p, Some(x), limit)
      ensures s == x
    {
      assert forall k :: 0 <= k < |x| ==> readBuf[..][p + k] == readBuf[..][p..p + |x|][k] == x[k];
      var n := p;
      while readBuf[n] != NUL
        invariant p <= n <= p + |x|
        decreases p + |x| - n
      {
        n := n + 1;
      }
      s := readBuf[p..n];
      assert s == x[..n - p];
      assert forall k :: 0 <= k < |x| ==> x[k] in x;
    }

    /** Terminates the word at `p` at its first blank, if it has one: strpbrk and a store. */
    method CutWord(p: nat, ghost x: string, ghost limit: nat) returns (found: bool, i: nat, word: string)
      requires Denotes(readBuf[..], p, Some(x), limit)
      modifies readBuf
      ensures i == FirstBlank(x) && word == x[..i] && (found <==> i < |x|)
      ensures SameOutside(old(readBuf[..]), readBuf[..], p, p + |x|)
      ensures found ==> Denotes(readBuf[..], p, Some(x[..i]), limit) &&
                        Denotes(readBuf[..], p + i + 1, Some(x[i + 1..]), limit)
      ensures !found ==> readBuf[..] == old(readBuf[..])
    {
      word := Load(p, x, limit);
      i := FirstBlank(word);
      found := i < |word|;
      if found {
        DenotesCut(readBuf[..], p, x, i, limit);
        readBuf[p + i] := NUL;
        assert readBuf[..] == old(readBuf[..])[p + i := NUL];
      }
      word := word[..i];
    }

    /** parse_request_line() on the line at `text`, writing terminators between its words. */
    method ParseRequestLine(text: nat, ghost t: string) returns (ok: bool)
      requires readBuf.Length == READ_BUFFER_SIZE && Represents(readBuf[..], request, fields, text)
      requires text <= startLine && Denotes(readBuf[..], text, Some(t), startLine)
      modifies this`request, this`fields, this`checkState, readBuf
      ensures Represents(readBuf[..], request, fields, startLine)
      ensures HttpParser.ParseRequestLine(t, old(fields)) == Parsed(fields, ok)
      ensures checkState == if ok then Header else old(checkState)
      ensures SameOutside(old(readBuf[..]), readBuf[..], text, text + |t|)
    {
      hide VerbOf, HttpParser.ParseTarget, Denotes, SameOutside;
      ghost var b := readBuf[..];
      var found, i, word := CutWord(text, t, startLine);
      DenotesInside(b, text, t, startLine);
      if !found {
        RepresentsFrame(b, readBuf[..], request, fields, text, startLine, text, text + |t|);
        DenotesNull(readBuf[..], startLine);
        request, fields := request.(url := -1), fields.(url := None);
        return false;
      }
      RepresentsFrame(b, readBuf[..], request, fields, text, text, text, text + |t|);
      ghost var c := readBuf[..];
      var verb := VerbOf(word, request.verb);
      request, fields := request.(verb := verb), fields.(verb := verb);
      ok := ParseTarget(text, text + i + 1, t[i + 1..]);
      SameOutsideTrans(b, c, readBuf[..], text, text + i + 1, text + |t|);
    }

    /** parse_request_line() behind the method: the words from `p` on. */
    method ParseTarget(ghost text: nat, p: nat, ghost rest: string) returns (ok: bool)
      requires readBuf.Length == READ_BUFFER_SIZE && Represents(readBuf[..], request, fields, text)
      requires text <= p <= startLine && Denotes(readBuf[..], p, Some(rest), startLine)
      modifies this`request, this`fields, this`checkState, readBuf
      ensures Represents(readBuf[..], request, fields, startLine)
      ensures HttpParser.ParseTarget(rest, old(fields)) == Parsed(fields, ok)
      ensures checkState == if ok then Header else old(checkState)
      ensures SameOutside(old(readBuf[..]), readBuf[..], p, p + |rest|)
    {
      hide SameIgnoringCase, RouteOf, HttpParser.NormaliseTarget, Denotes, SameOutside;
      ghost var b := readBuf[..];
      var found, j, target := CutWord(p, rest, startLine);
      DenotesInside(b, p, rest, startLine);
      RepresentsFrame(b, readBuf[..], request, fields, text, startLine, p, p + |rest|);
      if !found {
        DenotesNull(readBuf[..], startLine);
        request, fields := request.(url := p, version := -1), fields.(url := Some(rest), version := None);
        return false;
      }
      request := request.(url := p, version := p + j + 1);
      fields := fields.(url := Some(target), version := Some(rest[j + 1..]));
      var protocol := Load(request.version, rest[j + 1..], startLine);
      if !SameIgnoringCase(protocol, "HTTP/1.1") {
        return false;
      }
      var route := RouteOf(target, request.route);
      request, fields := request.(route := route), fields.(route := route);
      ok := NormaliseTarget(target);
    }

    /** The end of parse_request_line(): absolute-form targets, and the leading slash. */
    method NormaliseTarget(target: string) returns (ok: bool)
      requires Represents(readBuf[..], request, fields, startLine) && fields.url == Some(target)
      modifies this`request, this`fields, this`checkState
      ensures Represents(readBuf[..], request, fields, startLine)
      ensures HttpParser.NormaliseTarget(target, old(fields)) == Parsed(fields, ok)
      ensures checkState == if ok then Header else old(checkState)
    {
      hide Denotes;
      if StartsIgnoringCase(target, "http://") {
        var path := target[7..];
        var slash := IndexOf(path, '/');
        if slash == |path| {
          DenotesNull(readBuf[..], startLine);
          request, fields := request.(url := -1), fields.(url := None);
          return false;
        }
        DenotesSuffix(readBuf[..], request.url, target, 7 + slash, startLine);
        assert path[slash..] == target[7 + slash..];
        request, fields := request.(url := request.url + 7 + slash), fields.(url := Some(path[slash..]));
      } else if target == "" || target[0] != '/' {
        return false;
      }
      checkState := Header;
      return true;
    }

    /** parse_headers() on a header line. */
    method ParseHeader(text: nat, ghost t: string)
      requires Represents(readBuf[..], request, fields, text)
      requires text <= startLine <= readBuf.Length && Denotes(readBuf[..], text, Some(t), startLine)
      modifies this`request, this`fields
      ensures Represents(readBuf[..], request, fields, startLine)
      ensures fields == HttpParser.ParseHeader(t, old(fields))
    {
      hide SameIgnoringCase, Denotes, Atol;
      RepresentsFrame(readBuf[..], readBuf[..], request, fields, text, startLine, startLine, startLine);
      var line := Load(text, t, startLine);
      if StartsIgnoringCase(line, "Connection:") {
        var value := HeaderValue(line, 11);
        var linger := if SameIgnoringCase(value, "keep-alive") then true
                      else if SameIgnoringCase(value, "close") then false else request.linger;
        request, fields := request.(linger := linger), fields.(linger := linger);
      } else if StartsIgnoringCase(line, "Content-Length:") {
        var n := ToInt32(Atol(HeaderValue(line, 15)));
        request, fields := request.(contentLength := n), fields.(contentLength := n);
      } else if StartsIgnoringCase(line, "Host:") {
        var skip := 5 + LeadingBlanks(line[5..]);
        DenotesSuffix(readBuf[..], text, t, skip, startLine);
        assert line[skip..] == HeaderValue(line, 5);
        request, fields := request.(host := text + skip), fields.(host := Some(line[skip..]));
      } else if StartsIgnoringCase(line, "Authorization:") {
        var value := HeaderValue(line, 14);
        if "Bearer " <= value {
          request, fields := request.(token := value[7..]), fields.(token := value[7..]);
        }
      }
    }

    /** One complete line in the request-line or header phase. */
    method ConsumeLine(text: nat, ghost t: string) returns (event: Event)
      requires BufferOk() && Represents(readBuf[..], request, fields, text) && checkState != Content
      requires text <= startLine == checkedIndex && Denotes(readBuf[..], text, Some(t), startLine)
      modifies this`request, this`fields, this`checkState, readBuf
      ensures BufferOk() && Represents(readBuf[..], request, fields, startLine)
      ensures Progress(Abs(), event) == LineEffect(HTTP, old(checkState), old(fields), t, startLine)
    {
      hide HttpParser.ParseRequestLine, HttpParser.ParseHeader, SameOutside, Denotes, Shows;
      ghost var b := readBuf[..];
      ShowsSize(b, stream, startLine);
      if checkState == RequestLine {
        var ok := ParseRequestLine(text, t);
        DenotesInside(b, text, t, startLine);
        ShowsFrame(b, readBuf[..], stream, startLine, text, text + |t|);
        return if ok then More else Rejected;
      }
      DenotesEmpty(b, text, t, startLine);
      if readBuf[text] != NUL {
        ParseHeader(text, t);
        return More;
      }
      RepresentsFrame(b, b, request, fields, text, startLine, startLine, startLine);
      event := Dispatcher(request.verb, request.route, request.contentLength);
      if event.Body? {
        checkState := Content;
      }
    }

    /** parse_content(): terminate the body in place and hand it to its handler. */
    method ParseContent() returns (outcome: Outcome)
      requires BufferOk() && Represents(readBuf[..], request, fields, startLine)
      requires startLine == checkedIndex && readIndex < READ_BUFFER_SIZE
      modifies readBuf
      ensures outcome == BodyOutcome(stream, Abs()) && !outcome.NeedMore?
    {
      hide Denotes, Shows, NoBreaks, UpToNul;
      ShowsSize(readBuf[..], stream, startLine);
      var end := request.contentLength + checkedIndex;
      if end > INT_MAX || end < 0 {
        return Unspecified;
      }
      if readIndex < end {
        return BadRequest;
      }
      BodyTerminated(readBuf[..], stream, startLine, end);
      readBuf[end] := NUL;
      assert readBuf[..] == old(readBuf[..])[end := NUL];
      var handler := BodyHandler(request.verb, request.route);
      if handler.None? {
        return NoResource;
      }
      var body := Load(startLine, UpToNul(stream[startLine..if end < startLine then |stream| else end]), READ_BUFFER_SIZE);
      return Call(handler.value, body);
    }

    /** process_read(): the parse loop. Handlers are not run here; the outcome names the one to call. */
    method ProcessRead() returns (outcome: Outcome)
      requires Valid() && readIndex < READ_BUFFER_SIZE
      modifies this`checkedIndex, this`startLine, this`request, this`fields, this`checkState, readBuf
      ensures Abs() == HeaderPhase(HTTP, stream, old(Abs())).parser
      ensures outcome == HttpParser.ProcessRead(HTTP, stream, old(Abs()))
      ensures outcome.NeedMore? ==> Valid()
      ensures fields.linger == request.linger
    {
      hide LineEffect, BodyOutcome, Denotes, Shows, NoBreaks, LineText, ScanLine;
      while true
        invariant Valid()
        invariant HeaderPhase(HTTP, stream, Abs()) == HeaderPhase(HTTP, stream, old(Abs()))
        decreases readIndex - checkedIndex
      {
        var text := startLine;
        ghost var before := Abs();
        var status := NextLine();
        if status != LineOk {
          return NeedMore;
        }
        ghost var t := LineText(stream, text, checkedIndex);
        var event := ConsumeLine(text, t);
        assert Progress(Abs(), event) == LineEffect(HTTP, before.phase, before.fields, t, startLine);
        match event {
          case More =>
          case Rejected => return BadRequest;
          case NotFound => return NoResource;
          case Dispatch(h) => return Call(h, "");
          case Body =>
            outcome := ParseContent();
            return;
        }
      }
    }

    /** read() and process_read() in turn, for any split of the bytes into reads: the parser ends
        where one read of everything would, with the same fields, and the outcome is decided on the
        bytes received when the headers are complete. SplitOutcome says exactly when that is the
        outcome of the whole stream; it always is unless a body follows. */
    method ServeInPieces(chunks: seq<string>) returns (outcome: Outcome)
      requires Valid() && stream == "" && Abs() == INITIAL && |Seen(HTTP, chunks)| < READ_BUFFER_SIZE
      modifies this, readBuf
      ensures Abs() == HeaderPhase(HTTP, Flatten(chunks), INITIAL).parser
      ensures Abs().checked <= |Seen(HTTP, chunks)|
      ensures outcome == Finish(Seen(HTTP, chunks), HeaderPhase(HTTP, Flatten(chunks), INITIAL))
    {
      hide HeaderPhase, BodyOutcome, Represents, DoneAt;
      SeenSuffices(HTTP, chunks);
      outcome := NeedMore;
      NothingReceived(HTTP);
      var i := 0;
      while i < |chunks|
        invariant i <= |chunks| && Valid() && stream == Flatten(chunks[..i]) <= Flatten(chunks)
        invariant Ready(stream, INITIAL) && HeaderPhase(HTTP, stream, INITIAL) == Progress(Abs(), More)
        invariant outcome == NeedMore && DoneAt(HTTP, chunks, i) == DoneAt(HTTP, chunks, 0)
      {
        NextChunk(HTTP, chunks, i, Abs());
        DoneNext(HTTP, chunks, i);
        DoneNext(HTTP, chunks, i + 1);
        FlattenGrows(chunks, i + 1, DoneAt(HTTP, chunks, 0));
        var ok := Read(chunks[i], WouldBlock);
        outcome := ProcessRead();
        BodyPhaseNeverPauses(HTTP, stream, INITIAL);
        if outcome != NeedMore {
          return;
        }
        i := i + 1;
      }
      DoneNext(HTTP, chunks, i);
      assert chunks[..i] == chunks;
    }
  }
}
