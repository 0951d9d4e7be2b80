/** The sending half of the connection object in src/network/http_conn.*: the bounded response
    printer and the scatter/gather loop that survives short writes. */
module ResponseWriter {
  import opened Text
  import opened HttpResponse

  /** An iovec: `len` bytes from offset `base` of its buffer. */
  datatype Iov = Iov(base: nat, len: nat)

  /** How one write() call ends: everything sent, socket full, or a socket error. */
  datatype Flushed = Finished | Paused | Broken

  /** The most one writev transfers. */
  const MAX_RW_COUNT: nat := 0x7fff_f000

  ghost function Total(counts: seq<nat>): nat {
    if counts == [] then 0 else Min(counts[0], MAX_RW_COUNT) + Total(counts[1..])
  }

  /** How far a write() call gets, and whether it declares the response finished. */
  datatype Push = Push(sent: nat, finished: bool)

  /** What is left to send: bytes of the first iovec, and of the second. */
  datatype Parts = Parts(head: nat, body: nat) {
    function All(): nat { head + body }

    /** After `n` more bytes. */
    function Without(n: nat): Parts
      requires n <= All()
    {
      if n < head then Parts(head - n, body) else Parts(0, body - (n - head))
    }
  }

  lemma WithoutMore(p: Parts, n: nat, k: nat)
    requires n + k <= p.All()
    ensures k <= p.Without(n).All() && p.Without(n).Without(k) == p.Without(n + k)
  {}

  lemma WithoutSize(p: Parts, n: nat)
    requires n <= p.All()
    ensures p.Without(n).All() == p.All() - n
  {}

  lemma WithoutNone(p: Parts)
    ensures p.Without(0) == p
  {}

  /** What one writev takes of `left` bytes. */
  ghost function Taken(count: nat, left: nat): (k: nat)
    ensures k <= left
  {
    Min(Min(count, MAX_RW_COUNT), left)
  }

  /** The loop of write(). A write that ends inside the first iovec goes straight on; behind it, what is
      still to be sent is computed as an `int` and tested. */
  ghost function Pushed(counts: seq<nat>, left: Parts): (p: Push)
    ensures p.sent <= left.All()
  {
    if counts == [] then Push(0, false)
    else
      var k := Taken(counts[0], left.All());
      if k >= left.head && ToInt32(left.Without(k).body) <= 0 then Push(k, true)
      else
        var r := Pushed(counts[1..], left.Without(k));
        Push(k + r.sent, r.finished)
  }

  /** With its test for nothing to send. */
  ghost function Written(counts: seq<nat>, left: Parts): (p: Push)
    ensures p.sent <= left.All()
  {
    if ToInt32(left.All()) == 0 then Push(0, true) else Pushed(counts, left)
  }

  /** One turn of the loop. */
  lemma PushedStep(counts: seq<nat>, i: nat, left: Parts)
    requires i <= |counts|
    ensures Pushed(counts[i..], left) ==
            if i == |counts| then Push(0, false)
            else
              var k := Taken(counts[i], left.All());
              if k >= left.head && ToInt32(left.Without(k).body) <= 0 then Push(k, true)
              else
                var r := Pushed(counts[i + 1..], left.Without(k));
                Push(k + r.sent, r.finished)
  {
    hide ToInt32, Taken;
    if i < |counts| {
      assert counts[i..][0] == counts[i] && counts[i..][1..] == counts[i + 1..];
    }
  }

  /** A response whose second part an `int` can count; the first part is what the write buffer holds. */
  predicate Countable(left: Parts) { left.head <= WRITE_BUFFER_SIZE && left.body <= INT_MAX }

  /** For such a response the bytes sent are those the socket took, and the response is finished exactly
      when they are all of it. */
  lemma {:induction false} PushedExact(counts: seq<nat>, left: Parts)
    requires Countable(left) && 0 < left.All()
    ensures Pushed(counts, left) == Push(Min(Total(counts), left.All()), left.All() <= Total(counts))
    ensures ToInt32(left.All()) != 0 && Written(counts, left) == Pushed(counts, left)
    decreases |counts|
  {
    if counts != [] {
      var k := Taken(counts[0], left.All());
      if k < left.All() {
        PushedExact(counts[1..], left.Without(k));
      }
    }
  }

  ghost predicate NeverCutShort(left: Parts) {
    forall counts :: Written(counts, left).finished ==> Written(counts, left).sent == left.All()
  }

  /** And only then: a response with a longer second part can be declared finished while part of it is
      still to be sent. */
  lemma CountersSufficeIff(left: Parts)
    requires 0 < left.head <= WRITE_BUFFER_SIZE
    ensures NeverCutShort(left) <==> left.body <= INT_MAX
  {
    if left.body <= INT_MAX {
      forall counts ensures Written(counts, left).finished ==> Written(counts, left).sent == left.All() {
        PushedExact(counts, left);
      }
    } else {
      var counts := CutShort(left);
      assert Written(counts, left).finished && Written(counts, left).sent < left.All();
    }
  }

  /** A write that takes the head, and then some more. */
  lemma HeadThen(left: Parts, tail: seq<nat>)
    requires left.head <= WRITE_BUFFER_SIZE
    ensures Pushed([left.head] + tail, left) ==
            if ToInt32(left.body) <= 0 then Push(left.head, true)
            else Push(left.head + Pushed(tail, Parts(0, left.body)).sent, Pushed(tail, Parts(0, left.body)).finished)
  {
    hide ToInt32;
    assert ([left.head] + tail)[1..] == tail;
    assert left.Without(left.head) == Parts(0, left.body);
  }

  /** One write that takes the head, and if need be one or two that make what is left look finished. */
  lemma CutShort(left: Parts) returns (counts: seq<nat>)
    requires 0 < left.head <= WRITE_BUFFER_SIZE && left.body > INT_MAX
    ensures Written(counts, left).finished && Written(counts, left).sent < left.All()
  {
    hide Pushed;
    var r := left.body % 0x1_0000_0000;
    if r == 0 || r > INT_MAX {
      assert ToInt32(left.body) <= 0;
      HeadThen(left, []);
      counts := [left.head] + [];
    } else {
      var tail := ModuloShort(Parts(0, left.body));
      HeadThen(left, tail);
      counts := [left.head] + tail;
    }
  }

  lemma ModuloShort(left: Parts) returns (counts: seq<nat>)
    requires left.head == 0 && left.body > INT_MAX && 0 < left.body % 0x1_0000_0000 <= INT_MAX
    ensures Pushed(counts, left).finished && Pushed(counts, left).sent < left.All()
  {
    var r := left.body % 0x1_0000_0000;
    assert ToInt32(left.body - r) == 0;
    if r <= MAX_RW_COUNT {
      counts := [r];
    } else {
      counts := [MAX_RW_COUNT, r - MAX_RW_COUNT];
      var rest := left.Without(MAX_RW_COUNT);
      assert ToInt32(rest.body) == r - MAX_RW_COUNT;
      assert counts[1..] == [r - MAX_RW_COUNT];
      assert rest.Without(r - MAX_RW_COUNT).body == left.body - r;
      assert Pushed(counts[1..], rest) == Push(r - MAX_RW_COUNT, true);
    }
  }

  /** What is left of `s` behind its first `n` bytes. */
  ghost function Rest(s: string, n: nat): string
    requires n <= |s|
  {
    s[n..]
  }

  /** Since the wire showed `before`, exactly the first `n` bytes of `todo` went out; `rest` is left. */
  ghost predicate Sent(before: string, wire: string, todo: string, n: nat, rest: string) {
    n <= |todo| && wire == before + todo[..n] && rest == Rest(todo, n)
  }

  lemma NothingSent(wire: string, todo: string)
    ensures Sent(wire, wire, todo, 0, todo)
  {}

  lemma WhatIsLeft(before: string, wire: string, todo: string, n: nat, rest: string)
    requires Sent(before, wire, todo, n, rest)
    ensures n <= |todo| && rest == Rest(todo, n) && |rest| == |todo| - n
  {}

  lemma SentMore(before: string, mid: string, todo: string, n: nat, rest: string, wire: string, k: nat, rest': string)
    requires Sent(before, mid, todo, n, rest) && Sent(mid, wire, rest, k, rest')
    ensures Sent(before, wire, todo, n + k, rest') && |rest| == |todo| - n
  {
    assert todo[..n] + todo[n..][..k] == todo[..n + k];
  }

  /** The bytes one or two iovecs select from their buffers. */
  ghost function Gather(first: string, second: string, u: Iov, v: Iov, count: nat): string
    requires u.base + u.len <= |first| && v.base + v.len <= |second|
  {
    first[u.base..u.base + u.len] + if count == 2 then second[v.base..v.base + v.len] else ""
  }

  lemma GatherLength(first: string, second: string, u: Iov, v: Iov, count: nat)
    requires u.base + u.len <= |first| && v.base + v.len <= |second|
    ensures |Gather(first, second, u, v, count)| == u.len + if count == 2 then v.len else 0
  {}

  lemma DropInFirst(first: string, second: string, u: Iov, v: Iov, count: nat, n: nat)
    requires u.base + u.len <= |first| && v.base + v.len <= |second| && n <= u.len
    ensures Gather(first, second, Iov(u.base + n, u.len - n), v, count) == Gather(first, second, u, v, count)[n..]
  {}

  lemma DropPastFirst(first: string, second: string, u: Iov, v: Iov, count: nat, n: nat, empty: Iov)
    requires empty.base <= |first| && empty.len == 0
    requires u.base + u.len <= |first| && v.base + v.len <= |second| && n <= v.len && (count != 2 ==> n == 0)
    ensures Gather(first, second, empty, Iov(v.base + n, v.len - n), count)
            == Gather(first, second, u, v, count)[u.len + n..]
  {}

  /** Sending the next bytes moves them from what remains to what was sent. */
  lemma MoveAcross(sent: string, todo: string, n: nat, mark: nat)
    requires n <= |todo| && mark <= |sent|
    ensures (sent + todo[..n])[mark..] + todo[n..] == sent[mark..] + todo
  {}

  ghost function Min(a: nat, b: nat): nat { if a < b then a else b }

  /** How a response is split over the two iovecs. */
  ghost function PartsOf(r: Reply, linger: bool): Parts {
    Parts(|Buffered(r, linger)|, if r.json then |r.body| else 0)
  }

  class Writer {
    const writeBuf: array<char>
    var writeIndex: nat
    var json: string
    var iov0: Iov
    var iov1: Iov
    var iovCount: nat
    ghost var wire: string      // every byte ever sent
    ghost var mark: nat         // length of `wire` when the current response was prepared
    ghost var response: string  // the current response

    ghost predicate Idle()
      reads this
    {
      writeBuf.Length == WRITE_BUFFER_SIZE && writeIndex == 0 && iov0 == iov1 == Iov(0, 0) && iovCount == 0
    }

    ghost predicate InRange()
      reads this
    {
      && writeBuf.Length == WRITE_BUFFER_SIZE && iov0.base + iov0.len <= writeBuf.Length
      && iov1.base + iov1.len <= |json| && 1 <= iovCount <= 2
    }

    /** The bytes the iovecs still have to send. */
    ghost function Remaining(): string
      reads this, writeBuf
      requires InRange()
    {
      Gather(writeBuf[..], json, iov0, iov1, iovCount)
    }

    /** What the iovec lengths say is left to send. */
    function Left(): Parts
      reads this
    {
      Parts(iov0.len, if iovCount == 2 then iov1.len else 0)
    }

    /** A response in flight: what was sent since `mark` and what remains make up the response. */
    ghost predicate Sending()
      reads this, writeBuf
    {
      InRange() && mark <= |wire| && wire[mark..] + Remaining() == response
    }

    constructor ()
      ensures Idle() && json == "" && wire == "" && fresh(writeBuf)
    {
      writeBuf := new char[WRITE_BUFFER_SIZE](_ => NUL);
      writeIndex, json, iov0, iov1, iovCount := 0, "", Iov(0, 0), Iov(0, 0), 0;
      wire, mark, response := "", 0, "";
    }

    /** init() */
    method Reset()
      requires writeBuf.Length == WRITE_BUFFER_SIZE
      modifies this, writeBuf
      ensures Idle() && json == "" && wire == old(wire)
    {
      writeIndex, json, iov0, iov1, iovCount := 0, "", Iov(0, 0), Iov(0, 0), 0;
      forall k | 0 <= k < writeBuf.Length { writeBuf[k] := NUL; }
    }

    /** add_response(): vsnprintf stores what fits, with a terminator, and reports the full length;
        only text that fits entirely is kept. */
    method AddResponse(text: string) returns (ok: bool)
      requires writeBuf.Length == WRITE_BUFFER_SIZE
      modifies this`writeIndex, writeBuf
      ensures ok <==> old(writeIndex) + |text| <= WRITE_BUFFER_SIZE - 2
      ensures writeIndex == old(writeIndex) + if ok then |text| else 0
      ensures old(writeIndex) <= WRITE_BUFFER_SIZE - 2 ==>
                writeIndex <= WRITE_BUFFER_SIZE - 2 &&
                writeBuf[..writeIndex] == old(writeBuf[..writeIndex]) + if ok then text else ""
    {
      if writeIndex >= WRITE_BUFFER_SIZE {
        return false;
      }
      var size := WRITE_BUFFER_SIZE - 1 - writeIndex;
      if size > 0 {
        var stored := if |text| < size then |text| else size - 1;
        forall k | 0 <= k < stored { writeBuf[writeIndex + k] := text[k]; }
        writeBuf[writeIndex + stored] := NUL;
      }
      if |text| >= size {
        return false;
      }
      assert writeBuf[writeIndex..writeIndex + |text|] == text;
      writeIndex := writeIndex + |text|;
      return true;
    }

    /** add_headers() */
    method AddHeaders(contentLen: int, mime: string, linger: bool) returns (ok: bool)
      requires writeBuf.Length == WRITE_BUFFER_SIZE && writeIndex <= WRITE_BUFFER_SIZE - 2
      modifies this`writeIndex, writeBuf
      ensures writeIndex <= WRITE_BUFFER_SIZE - 2
      ensures var text := LengthText(contentLen) + CRLF + (TypeText(mime) + CRLF + (LingerText(linger) + CRLF + CRLF));
              (ok <==> old(writeIndex) + |text| <= WRITE_BUFFER_SIZE - 2) &&
              (ok ==> writeBuf[..writeIndex] == old(writeBuf[..writeIndex]) + text)
    {
      hide LengthText, TypeText, LingerText;
      ghost var start := writeBuf[..writeIndex];
      ok := AddResponse(LengthText(contentLen) + CRLF);
      if !ok { return; }
      ok := AddResponse(TypeText(mime) + CRLF);
      if !ok { return; }
      ok := AddResponse(LingerText(linger) + CRLF);
      if !ok { return; }
      ok := AddResponse(CRLF);
      if !ok { return; }
      assert writeBuf[..writeIndex] == start + (LengthText(contentLen) + CRLF) + (TypeText(mime) + CRLF)
                                       + (LingerText(linger) + CRLF) + CRLF;
    }

    /** add_json_response(): headers in the buffer, the JSON text as second iovec. */
    method SendJson(r: Reply, linger: bool) returns (ok: bool)
      requires Idle() && r.json && r.body == json
      modifies this, writeBuf
      ensures ok <==> |Buffered(r, linger)| <= WRITE_BUFFER_SIZE - 2
      ensures ok ==> Sending() && response == Wire(r, linger) && mark == |wire| && Left() == PartsOf(r, linger)
      ensures wire == old(wire) && json == old(json)
    {
      hide StatusText, LengthText, TypeText, LingerText;
      ok := AddResponse(StatusText(r) + CRLF);
      if !ok { return; }
      assert writeBuf[..writeIndex] == StatusText(r) + CRLF;
      ok := AddHeaders(ToInt32(|json|), r.mime, linger);
      if !ok { return; }
      assert writeBuf[..writeIndex] == Head(r, linger);
      iov0, iov1, iovCount := Iov(0, writeIndex), Iov(0, |json|), 2;
      mark, response := |wire|, Wire(r, linger);
      assert json[0..|json|] == json && writeBuf[..][0..writeIndex] == writeBuf[..writeIndex];
    }

    /** The other replies: headers and body together in the buffer. The results of the first two
        calls are ignored, so the answer is meaningful only for text that fits. */
    method SendPlain(r: Reply, linger: bool) returns (ok: bool)
      requires Idle() && !r.json
      modifies this, writeBuf
      ensures |Buffered(r, linger)| <= WRITE_BUFFER_SIZE - 2 ==>
                ok && Sending() && response == Wire(r, linger) && mark == |wire| && Left() == PartsOf(r, linger)
      ensures wire == old(wire) && json == old(json)
    {
      hide StatusText, LengthText, TypeText, LingerText;
      var status := AddResponse(StatusText(r) + CRLF);
      assert status ==> writeBuf[..writeIndex] == StatusText(r) + CRLF;
      var headers := AddHeaders(ToInt32(|r.body|), r.mime, linger);
      assert status && headers ==> writeBuf[..writeIndex] == Head(r, linger);
      ok := AddResponse(r.body);
      if !ok { return; }
      iov0, iovCount := Iov(0, writeIndex), 1;
      mark, response := |wire|, Wire(r, linger);
      assert writeBuf[..][0..writeIndex] == writeBuf[..writeIndex];
    }

    /** process_write(): it fails only for the two codes that are no response. */
    method ProcessWrite(code: Code, linger: bool) returns (ok: bool)
      requires Idle()
      modifies this, writeBuf
      ensures ok <==> Printable(code)
      ensures ok ==> Sending() && response == Wire(ReplyFor(code, json), linger) && mark == |wire|
                     && Left() == PartsOf(ReplyFor(code, json), linger)
      ensures wire == old(wire) && json == old(json)
    {
      hide Buffered, Wire, ReplyFor, PartsOf;
      if code == NO_REQUEST || code == CLOSED_CONNECTION {
        return false;
      }
      var r := ReplyFor(code, json);
      EveryReplyFits(code, json, linger);
      JsonBody(code, json);
      if r.json {
        ok := SendJson(r, linger);
      } else {
        ok := SendPlain(r, linger);
      }
    }

    /** The iovec update after `n` bytes went out. */
    method Advance(n: nat)
      requires InRange() && n <= |Remaining()|
      modifies this`iov0, this`iov1
      ensures InRange() && Remaining() == old(Remaining())[n..]
      ensures old(Left()).All() == |old(Remaining())| && Left() == old(Left()).Without(n)
    {
      hide Gather;
      GatherLength(writeBuf[..], json, iov0, iov1, iovCount);
      var left := n;
      if iov0.len > 0 {
        if left < iov0.len {
          DropInFirst(writeBuf[..], json, iov0, iov1, iovCount, left);
          iov0 := Iov(iov0.base + left, iov0.len - left);
          return;
        }
        left := left - iov0.len;
        DropPastFirst(writeBuf[..], json, iov0, iov1, iovCount, left, Iov(0, 0));
        iov0 := Iov(0, 0);
      } else {
        DropPastFirst(writeBuf[..], json, iov0, iov1, iovCount, left, iov0);
      }
      if iovCount == 2 && left > 0 {
        iov1 := Iov(iov1.base + left, iov1.len - left);
      }
    }

    /** One writev call that takes `count` bytes, or all that is offered if that is less. `done` is the
        verdict of write(): it goes on inside the first iovec, and tests what is left behind it. */
    method SendSome(count: nat) returns (sent: nat, done: bool)
      requires InRange() && Sending()
      modifies this`iov0, this`iov1, this`wire
      ensures sent == Taken(count, old(Left()).All()) && Left() == old(Left()).Without(sent)
      ensures done <==> sent >= old(Left()).head && ToInt32(Left().body) <= 0
      ensures InRange() && Sending() && Sent(old(wire), wire, old(Remaining()), sent, Remaining())
    {
      var offered := iov0.len + if iovCount == 2 then iov1.len else 0;
      var most := if count < MAX_RW_COUNT then count else MAX_RW_COUNT;
      sent := if most < offered then most else offered;
      ghost var todo := Remaining();
      hide Gather, ToInt32;
      GatherLength(writeBuf[..], json, iov0, iov1, iovCount);
      MoveAcross(wire, todo, sent, mark);
      wire := wire + todo[..sent];
      var inside := sent < iov0.len;
      Advance(sent);
      done := !inside && ToInt32(iov0.len + if iovCount == 2 then iov1.len else 0) <= 0;
    }

    /** The loop of write(): `counts` are the results of the writev calls, each at most what is
        offered, and `full` tells how the socket then refuses. Whatever the short writes, exactly
        the next bytes of the response go out, as many as Pushed says. */
    method Flush(counts: seq<nat>, full: bool) returns (r: Flushed)
      requires InRange() && Sending()
      modifies this`iov0, this`iov1, this`wire
      ensures InRange() && Sending()
      ensures var todo, p := old(Remaining()), Pushed(counts, old(Left()));
              && Sent(old(wire), wire, todo, p.sent, Remaining()) && Left() == old(Left()).Without(p.sent)
              && (r == Finished <==> p.finished)
              && (r == Paused <==> !p.finished && full)
    {
      hide Sending, InRange, Remaining, Sent, Rest, ToInt32, Pushed, Taken, Parts.Without;
      ghost var todo := Remaining();
      ghost var n: nat := 0;
      var i := 0;
      assert counts[0..] == counts;
      NothingSent(wire, todo);
      WithoutNone(Left());
      while true
        invariant i <= |counts| && InRange() && Sending() && n <= old(Left()).All()
        invariant Sent(old(wire), wire, todo, n, Remaining()) && Left() == old(Left()).Without(n)
        invariant var p := Pushed(counts[i..], Left());
                  Pushed(counts, old(Left())) == Push(n + p.sent, p.finished)
        decreases |counts| - i
      {
        PushedStep(counts, i, Left());
        if i == |counts| {
          return if full then Paused else Broken;
        }
        ghost var mid, rest := wire, Remaining();
        WithoutSize(old(Left()), n);
        var sent, done := SendSome(counts[i]);
        SentMore(old(wire), mid, todo, n, rest, wire, sent, Remaining());
        WithoutMore(old(Left()), n, sent);
        n := n + sent;
        if done {
          return Finished;
        }
        i := i + 1;
      }
    }
  }
}
