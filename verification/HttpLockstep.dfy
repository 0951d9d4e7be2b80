/** When the requests of a client and the requests the server finds are the same.

    The server takes the reads of a connection request by request, each up to the read that completes
    its headers. A client that waits for each answer sends its requests in groups of reads; the two
    views agree exactly when every group is decided by its last read. */
module HttpLockstep {
  import opened Runs
  import opened Text
  import opened HttpParser
  import opened HttpConn
  import HttpRequest
  import HttpResponse
  import opened HttpSession

  function Concat(groups: seq<seq<string>>): seq<string> {
    if groups == [] then [] else groups[0] + Concat(groups[1..])
  }

  /** How many reads the first `j` groups have. */
  function EndOf(groups: seq<seq<string>>, j: nat): nat
    requires j <= |groups|
  {
    if j == 0 then 0 else EndOf(groups, j - 1) + |groups[j - 1]|
  }

  /** The group is decided, and by its last read. */
  ghost predicate Whole(g: Grammar, group: seq<string>) {
    DoneAt(g, group, 0) == |group| && !HeaderPhase(g, Flatten(group), INITIAL).event.More?
  }

  /** Request `j` of the connection is exactly group `j`. */
  ghost predicate InStepAt(g: Grammar, groups: seq<seq<string>>, j: nat)
    requires j < |groups|
  {
    var input := Concat(groups);
    var i := Starts(g, input, j);
    && i == EndOf(groups, j) && Starts(g, input, j + 1) == EndOf(groups, j + 1)
    && !HeaderPhase(g, Seen(g, input[i..]), INITIAL).event.More?
  }

  ghost predicate InStep(g: Grammar, groups: seq<seq<string>>) {
    forall j :: 0 <= j < |groups| ==> InStepAt(g, groups, j)
  }

  /** Behind the first `j` groups come group `j` and the others. */
  lemma {:induction false} SplitAt(groups: seq<seq<string>>, j: nat)
    requires j < |groups|
    ensures EndOf(groups, j) <= |Concat(groups)|
    ensures Concat(groups)[EndOf(groups, j)..] == groups[j] + Concat(groups[j + 1..])
    decreases j
  {
    if j > 0 {
      SplitAt(groups, j - 1);
      var e, g := EndOf(groups, j - 1), groups[j - 1];
      var tail := Concat(groups)[e..];
      assert tail == g + Concat(groups[j..]);
      assert Concat(groups)[e + |g|..] == tail[|g|..] == Concat(groups[j..]);
      assert groups[j..][1..] == groups[j + 1..];
    }
  }

  /** Reads behind a decided group do not change where it is decided. */
  lemma {:induction false} DonePrefix(g: Grammar, group: seq<string>, rest: seq<string>, i: nat)
    requires i <= |group| && !HeaderPhase(g, Flatten(group), INITIAL).event.More?
    ensures DoneAt(g, group + rest, i) == DoneAt(g, group, i)
    decreases |group| - i
  {
    hide HeaderPhase;
    assert (group + rest)[..i] == group[..i];
    if i == |group| {
      assert group[..i] == group;
    } else {
      DonePrefix(g, group, rest, i + 1);
    }
  }

  lemma SeenGroup(g: Grammar, group: seq<string>, rest: seq<string>)
    requires DoneAt(g, group + rest, 0) == |group|
    ensures Seen(g, group + rest) == Flatten(group)
  {
    assert (group + rest)[..|group|] == group;
  }

  /** A group decided by its last read is exactly the next request. */
  lemma WholeStep(g: Grammar, groups: seq<seq<string>>, j: nat)
    requires j < |groups| && Whole(g, groups[j]) && Starts(g, Concat(groups), j) == EndOf(groups, j)
    ensures InStepAt(g, groups, j)
    ensures Seen(g, Concat(groups)[Starts(g, Concat(groups), j)..]) == Flatten(groups[j])
  {
    hide HeaderPhase, DoneAt, Concat;
    var rest := Concat(groups[j + 1..]);
    SplitAt(groups, j);
    DonePrefix(g, groups[j], rest, 0);
    SeenGroup(g, groups[j], rest);
  }

  lemma {:induction false} StartsInStep(g: Grammar, groups: seq<seq<string>>, j: nat)
    requires j <= |groups| && forall k :: 0 <= k < j ==> Whole(g, groups[k])
    ensures Starts(g, Concat(groups), j) == EndOf(groups, j)
    decreases j
  {
    hide Whole, HeaderPhase, DoneAt, Concat, Seen;
    if j > 0 {
      StartsInStep(g, groups, j - 1);
      WholeStep(g, groups, j - 1);
    }
  }

  lemma InStepMeansWhole(g: Grammar, groups: seq<seq<string>>, j: nat)
    requires j < |groups| && InStepAt(g, groups, j)
    ensures Whole(g, groups[j])
  {
    hide HeaderPhase, DoneAt, Concat;
    var input, rest := Concat(groups), Concat(groups[j + 1..]);
    SplitAt(groups, j);
    assert Starts(g, input, j + 1) == Starts(g, input, j) + DoneAt(g, input[Starts(g, input, j)..], 0);
    SeenGroup(g, groups[j], rest);
    DonePrefix(g, groups[j], rest, 0);
  }

  /** The exact condition: the server finds exactly the client's requests if and only if each of them is
      decided by its last read. */
  lemma InStepIff(g: Grammar, groups: seq<seq<string>>)
    ensures InStep(g, groups) <==> forall j :: 0 <= j < |groups| ==> Whole(g, groups[j])
  {
    hide Whole, InStepAt;
    if forall j :: 0 <= j < |groups| ==> Whole(g, groups[j]) {
      forall j | 0 <= j < |groups| ensures InStepAt(g, groups, j) {
        StartsInStep(g, groups, j);
        WholeStep(g, groups, j);
      }
    }
    if InStep(g, groups) {
      forall j | 0 <= j < |groups| ensures Whole(g, groups[j]) {
        InStepMeansWhole(g, groups, j);
      }
    }
  }

  /** Then every request gets its own answer: the outcome of its own bytes. */
  lemma OwnAnswer(groups: seq<seq<string>>, j: nat)
    requires j < |groups| && InStep(HTTP, groups)
    ensures OutcomeOf(Concat(groups)[Starts(HTTP, Concat(groups), j)..])
            == HttpParser.ProcessRead(HTTP, Flatten(groups[j]), INITIAL)
  {
    hide HeaderPhase, HttpParser.ProcessRead, Concat, Seen, Starts, Whole;
    InStepMeansWhole(HTTP, groups, j);
    WholeStep(HTTP, groups, j);
  }

  // ---- in terms of what the client sends ----

  /** A prefix of a request is undecided exactly while its headers are not complete. */
  lemma UndecidedIff(m: HttpRequest.Message, s: string)
    requires HttpRequest.Proper(m) && s <= HttpRequest.Printed(m)
    ensures HeaderPhase(HTTP, s, INITIAL).event.More? <==> |s| < HttpRequest.BodyStart(m)
  {
    hide HeaderPhase, HttpRequest.Printed, HttpRequest.Proper;
    var t := HttpRequest.Printed(m);
    HttpRequest.RequestReadsBack(m);
    HttpRequest.BlankLineDecides(HttpRequest.Applied(HTTP, m.lines, HttpRequest.Start(m)), HttpRequest.BodyStart(m));
    if |s| < HttpRequest.BodyStart(m) {
      HeaderPhaseResumes(HTTP, s, t, INITIAL);
    } else {
      HeaderPhaseCut(HTTP, s, t, INITIAL);
    }
  }

  /** All but the last read of a group. */
  function Before(group: seq<string>): string
    requires group != []
  {
    Flatten(group[..|group| - 1])
  }

  /** A request is decided by its last read if and only if its headers are not complete before it: the
      read that completes them must bring the whole body with it. */
  lemma WholeIff(m: HttpRequest.Message, group: seq<string>)
    requires HttpRequest.Proper(m) && group != [] && Flatten(group) == HttpRequest.Printed(m)
    ensures Whole(HTTP, group) <==> |Before(group)| < HttpRequest.BodyStart(m)
  {
    hide HeaderPhase, HttpRequest.Printed, HttpRequest.Proper, HttpRequest.BodyStart, Flatten;
    var n := |group|;
    HttpRequest.BodyFits(m);
    UndecidedIff(m, Flatten(group));
    BodyStartFits(m);
    FlattenPrefix(group, n - 1);
    UndecidedIff(m, Before(group));
    if |Before(group)| < HttpRequest.BodyStart(m) {
      forall i | 0 <= i < n ensures HeaderPhase(HTTP, Flatten(group[..i]), INITIAL).event.More? {
        FlattenPrefix(group, i);
        FlattenGrows(group, i, n - 1);
        UndecidedIff(m, Flatten(group[..i]));
      }
      AllUndecided(HTTP, group, 0);
    } else {
      EarlyDecision(HTTP, group, n - 1, 0);
    }
  }

  lemma BodyStartFits(m: HttpRequest.Message)
    ensures HttpRequest.BodyStart(m) <= |HttpRequest.Printed(m)|
  {}

  lemma {:induction false} AllUndecided(g: Grammar, chunks: seq<string>, i: nat)
    requires i <= |chunks|
    requires forall k :: i <= k < |chunks| ==> HeaderPhase(g, Flatten(chunks[..k]), INITIAL).event.More?
    ensures DoneAt(g, chunks, i) == |chunks|
    decreases |chunks| - i
  {
    hide HeaderPhase;
    if i < |chunks| {
      AllUndecided(g, chunks, i + 1);
    }
  }

  lemma {:induction false} EarlyDecision(g: Grammar, chunks: seq<string>, k: nat, i: nat)
    requires i <= k < |chunks| && !HeaderPhase(g, Flatten(chunks[..k]), INITIAL).event.More?
    ensures DoneAt(g, chunks, i) <= k
    decreases k - i
  {
    hide HeaderPhase;
    if i < k {
      EarlyDecision(g, chunks, k, i + 1);
    }
  }

  /** A client sends request `ms[j]` in the reads of group `j`. */
  ghost predicate Sends(ms: seq<HttpRequest.Message>, groups: seq<seq<string>>) {
    |ms| == |groups| && forall j :: 0 <= j < |ms| ==> SendsOne(ms[j], groups[j])
  }

  ghost predicate SendsOne(m: HttpRequest.Message, group: seq<string>) {
    HttpRequest.Proper(m) && group != [] && Flatten(group) == HttpRequest.Printed(m)
  }

  /** The headers are not complete before the last read. */
  ghost predicate BodyNotLate(m: HttpRequest.Message, group: seq<string>) {
    group != [] && |Before(group)| < HttpRequest.BodyStart(m)
  }

  /** What a request deserves by the endpoint table and its declared length. */
  ghost function VerdictOn(m: HttpRequest.Message): Outcome {
    HttpRequest.Verdict(HttpRequest.Endpoint(VerbOf(m.word, GET), m.path), HttpRequest.LengthOf(m.lines, 0),
                        HttpRequest.BodyStart(m), m.body)
  }

  /** The server finds exactly the client's requests if and only if no body comes in a later read than the
      end of its headers; and then every request meets the fate the endpoint table gives it. */
  lemma ClientServedIff(ms: seq<HttpRequest.Message>, groups: seq<seq<string>>)
    requires Sends(ms, groups)
    ensures InStep(HTTP, groups) <==> forall j :: 0 <= j < |ms| ==> BodyNotLate(ms[j], groups[j])
    ensures InStep(HTTP, groups) ==>
              forall j :: 0 <= j < |ms| ==> OutcomeOf(Concat(groups)[Starts(HTTP, Concat(groups), j)..]) == VerdictOn(ms[j])
  {
    hide Whole, InStep, OutcomeOf, Starts, Concat, HttpRequest.Proper, HttpRequest.Printed, VerdictOn;
    InStepIff(HTTP, groups);
    forall j | 0 <= j < |ms| ensures Whole(HTTP, groups[j]) <==> BodyNotLate(ms[j], groups[j]) {
      assert SendsOne(ms[j], groups[j]);
      WholeIff(ms[j], groups[j]);
    }
    if InStep(HTTP, groups) {
      forall j | 0 <= j < |ms|
        ensures OutcomeOf(Concat(groups)[Starts(HTTP, Concat(groups), j)..]) == VerdictOn(ms[j])
      {
        assert SendsOne(ms[j], groups[j]);
        OwnAnswer(groups, j);
        RoutedVerdict(ms[j]);
      }
    }
  }

  lemma RoutedVerdict(m: HttpRequest.Message)
    requires HttpRequest.Proper(m)
    ensures HttpParser.ProcessRead(HTTP, HttpRequest.Printed(m), INITIAL) == VerdictOn(m)
  {
    HttpRequest.RequestRouted(m);
  }

  // ---- unknown routes ----

  /** A path that is none of the API's. */
  predicate Unregistered(path: string) {
    && !("/api/resources" <= path) && !("/api/login" <= path) && !("/api/logout" <= path) && !("/api/register" <= path)
    && !("/api/files/upload-url" <= path) && !("/api/files/download-url" <= path) && path != "/health"
  }

  /** Whatever its method, its headers and the reads it comes in, a request for such a path without a body
      is answered: the client reads status 404. */
  lemma UnknownRouteReads404(m: HttpRequest.Message, x: Exchange)
    requires HttpRequest.Proper(m) && Unregistered(m.path) && HttpRequest.LengthOf(m.lines, 0) == 0
    requires Ordinary(x) && Fits(x) && Seen(HTTP, x.chunks) == HttpRequest.Printed(m)
    ensures OutcomeOf(x.chunks) == NoResource && Decided(x)
    ensures Sendable(DueFor(x)) && HttpSession.Content(DueFor(x)).status == 404
  {
    hide HeaderPhase, HttpParser.ProcessRead, HttpRequest.Printed, HttpRequest.Proper, HttpRequest.LengthOf, Ordinary, Fits, Sees, HttpSession.Content;
    RoutedVerdict(m);
    ClientSees(x);
    SeenStatus(HttpSession.Content(DueFor(x)), OutcomeOf(x.chunks), x.handled);
  }

  /** A malformed request line is answered too: the client reads status 400. */
  lemma MalformedLineReads400(line: string, rest: string, x: Exchange)
    requires HttpResponse.Clean(line) && (forall w, t, v :: !HttpRequest.ThreeWords(line, w, t, v))
    requires Ordinary(x) && Fits(x) && Seen(HTTP, x.chunks) == line + HttpResponse.CRLF + rest
    ensures OutcomeOf(x.chunks) == BadRequest && Decided(x)
    ensures Sendable(DueFor(x)) && HttpSession.Content(DueFor(x)).status == 400
  {
    hide HeaderPhase, HttpRequest.ThreeWords, HttpResponse.Clean, ParseRequestLine, Ordinary, Fits, Sees, HttpSession.Content;
    var s := line + HttpResponse.CRLF + rest;
    HttpRequest.RequestLineAcceptedIff(line, INITIAL.fields);
    assert s[0..] == s;
    HttpRequest.LineAt(HTTP, s, RequestLine, 0, INITIAL.fields, line, rest);
    assert OutcomeOf(x.chunks) == BadRequest;
    ClientSees(x);
    SeenStatus(HttpSession.Content(DueFor(x)), OutcomeOf(x.chunks), x.handled);
  }

  // ---- out of step ----

  /** Bytes left over in front of a request become the start of its method word. */
  lemma LeftoverJoins(rest: string, m: HttpRequest.Message)
    ensures rest + HttpRequest.Printed(m) == HttpRequest.Printed(m.(word := rest + m.word))
  {
    var n := m.(word := rest + m.word);
    assert HttpRequest.RequestText(n) == rest + HttpRequest.RequestText(m);
  }

  /** A login with a body of one byte. */
  function LoginWith(body: string): HttpRequest.Message { HttpRequest.EmptyLogin(1).(body := body) }

  lemma LoginParts(body: string)
    ensures HttpRequest.Printed(LoginWith(body)) == HttpRequest.Printed(HttpRequest.EmptyLogin(1)) + body
    ensures HttpRequest.BodyStart(LoginWith(body)) == |HttpRequest.Printed(HttpRequest.EmptyLogin(1))|
  {
    JoinedBody(HttpRequest.EmptyLogin(1).lines + [""], body);
  }

  lemma {:induction false} JoinedBody(lines: seq<string>, body: string)
    ensures HttpRequest.Joined(lines, body) == HttpRequest.Joined(lines, "") + body
    decreases |lines|
  {
    if lines != [] {
      JoinedBody(lines[1..], body);
    }
  }

  /** The reads of a client that sends the body of its first login late. */
  function LateBody(): seq<seq<string>> {
    var headers := HttpRequest.Printed(HttpRequest.EmptyLogin(1));
    [[headers, "x"], [headers + "y"]]
  }

  lemma LoginFine(body: string)
    ensures HttpRequest.Proper(LoginWith(body)) && HttpRequest.LengthOf(LoginWith(body).lines, 0) == 1
    ensures 1 < HttpRequest.BodyStart(LoginWith(body)) <= 70
  {
    HttpRequest.LoginProper(1);
    HttpRequest.LoginStart(1);
    LoginParts(body);
    LoginParts("");
    assert |HttpRequest.RequestText(HttpRequest.EmptyLogin(1))| > 1;
  }

  lemma LoginVerdict(body: string)
    ensures VerdictOn(LoginWith(body)) ==
            if body == "" then BadRequest else Call(Login, UpToNul(body[..1]))
  {
    hide HttpRequest.Proper, HttpRequest.LengthOf, HttpRequest.BodyStart, UpToNul;
    LoginFine(body);
    assert HttpRequest.Endpoint(VerbOf("POST", GET), "/api/login") == Some(Login);
  }

  /** The next login, with a byte left over in front of it. */
  function Shifted(): HttpRequest.Message { LoginWith("y").(word := "xPOST") }

  lemma ShiftedFine()
    ensures HttpRequest.Proper(Shifted())
    ensures "x" + HttpRequest.Printed(LoginWith("y")) == HttpRequest.Printed(Shifted())
    ensures 1 < HttpRequest.BodyStart(Shifted()) <= 71
    ensures VerdictOn(Shifted()) == NoResource
  {
    LoginFine("y");
    LeftoverJoins("x", LoginWith("y"));
    assert "x" + "POST" == "xPOST";
    assert HttpResponse.Clean("xPOST") && HttpRequest.NoBlanks("xPOST");
    hide HttpRequest.Proper, HttpRequest.LengthOf, HttpRequest.Printed;
    assert HttpRequest.Endpoint(VerbOf("xPOST", GET), "/api/login") == None;
  }

  /** Two reads of which only both together complete the headers of `m`. */
  lemma TakesBoth(m: HttpRequest.Message, a: string, b: string)
    requires HttpRequest.Proper(m) && a + b == HttpRequest.Printed(m) && |a| < HttpRequest.BodyStart(m)
    ensures DoneAt(HTTP, [a, b], 0) == 2 && Seen(HTTP, [a, b]) == HttpRequest.Printed(m)
  {
    hide HeaderPhase, HttpRequest.Printed, HttpRequest.Proper, HttpRequest.BodyStart;
    var chunks := [a, b];
    assert chunks[..0] == [] && chunks[..1] == [a] && chunks[..2] == chunks && chunks[1..] == [b] && [b][1..] == [];
    assert Flatten([a]) == a && Flatten(chunks) == a + b;
    UndecidedIff(m, a);
    UndecidedIff(m, "");
  }

  /** One read that completes the headers of `m`, and more. */
  lemma TakesFirst(m: HttpRequest.Message, a: string, rest: seq<string>)
    requires HttpRequest.Proper(m) && a <= HttpRequest.Printed(m) && 0 < HttpRequest.BodyStart(m) <= |a|
    ensures DoneAt(HTTP, [a] + rest, 0) == 1 && Seen(HTTP, [a] + rest) == a
  {
    hide HeaderPhase, HttpRequest.Printed, HttpRequest.Proper, HttpRequest.BodyStart;
    var chunks := [a] + rest;
    assert chunks[..0] == [] && chunks[..1] == [a];
    assert Flatten([a]) == a;
    UndecidedIff(m, a);
    UndecidedIff(m, "");
    assert DoneAt(HTTP, chunks, 1) == 1;
  }

  /** Out of step: the first login is refused on its headers alone, its body becomes the start of the next
      method word, and the second login, complete as it is, is not found. */
  lemma OutOfStep()
    ensures Sends([LoginWith("x"), LoginWith("y")], LateBody()) && !InStep(HTTP, LateBody())
    ensures VerdictOn(LoginWith("x")) == Call(Login, "x") && VerdictOn(LoginWith("y")) == Call(Login, "y")
    ensures var input := Concat(LateBody());
            && OutcomeOf(input) == BadRequest && Starts(HTTP, input, 1) == 1
            && OutcomeOf(input[1..]) == NoResource
  {
    hide HeaderPhase, HttpParser.ProcessRead, HttpRequest.Printed, HttpRequest.Proper, HttpRequest.BodyStart, InStep, VerdictOn;
    var headers := HttpRequest.Printed(HttpRequest.EmptyLogin(1));
    var input := Concat(LateBody());
    LateBodyReads();
    LateBodySent();
    ClientServedIff([LoginWith("x"), LoginWith("y")], LateBody());
    LoginVerdict("x");
    LoginVerdict("y");
    LoginVerdict("");
    assert "x"[..1] == "x" && "y"[..1] == "y";
    LoginParts("x");
    LoginParts("y");
    LoginParts("");
    LoginFine("x");
    LoginFine("");
    assert headers + "" == headers;
    TakesFirst(LoginWith("x"), headers, ["x", headers + "y"]);
    RoutedVerdict(LoginWith(""));
    ShiftedFine();
    TakesBoth(Shifted(), "x", headers + "y");
    RoutedVerdict(Shifted());
  }

  lemma LateBodyReads()
    ensures var headers := HttpRequest.Printed(HttpRequest.EmptyLogin(1));
            && Concat(LateBody()) == [headers] + ["x", headers + "y"]
            && Concat(LateBody())[1..] == ["x", headers + "y"]
            && Before(LateBody()[0]) == headers
            && Flatten(LateBody()[0]) == headers + "x" && Flatten(LateBody()[1]) == headers + "y"
  {
    hide HttpRequest.Printed;
    var groups, headers := LateBody(), HttpRequest.Printed(HttpRequest.EmptyLogin(1));
    assert groups[1..] == [[headers + "y"]] && groups[1..][1..] == [];
    assert groups[0][..1] == [headers] && groups[0][1..] == ["x"] && ["x"][1..] == [] && [headers][1..] == [];
    assert Flatten([headers]) == headers && Flatten(["x"]) == "x";
    assert groups[1][1..] == [];
  }

  lemma LateBodySent()
    ensures Sends([LoginWith("x"), LoginWith("y")], LateBody())
    ensures !BodyNotLate(LoginWith("x"), LateBody()[0])
  {
    hide HttpRequest.Printed, HttpRequest.Proper, HttpRequest.BodyStart;
    LateBodyReads();
    LoginFine("x");
    LoginFine("y");
    LoginParts("x");
    LoginParts("y");
  }
}
