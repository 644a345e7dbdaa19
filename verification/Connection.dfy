/**
 One connection of the server (HttpServer.h, HttpServer.cpp): read, parse, respond, with short
 writes completed on later EPOLLOUT events.  The callbacks as functions on the connection's state,
 and what they guarantee; the object whose methods compute them is in HttpServerConnectionObject.
 */
module HttpServerConnection {
  import opened Octets
  import opened HttpRequestSpec
  import HttpRequestGrammar
  import opened HttpResponsePrinter
  import opened Reactor

  // ---------------------------------------------------------------- the environment

  /** What `read` delivers: some octets, end of stream, or an error (EAGAIN among them). */
  datatype ReadResult = Data(bytes: string) | EndOfStream | ReadError

  /** What `write` answers: it took so many octets, EAGAIN, or another error. */
  datatype WriteResult = Accepted(n: nat) | WouldBlock | Failed

  /** What the installed callback made of the response, or that no callback is installed. */
  datatype Answer = NotInstalled | Answered(resp: Response)

  datatype Call = Call(request: Request, response: Response, text: string)

  /** What a channel is registered for. */
  datatype Interest = Interest(reading: bool, writing: bool)

  const NO_INTEREST: Interest := Interest(false, false)

  function InterestOf(events: bv32): Interest {
    Interest(events & EPOLLIN != 0, events & EPOLLOUT != 0)
  }

  datatype Conn = Conn(
    request: Request,
    writeBuf: string,
    writeSent: nat,
    closing: bool,
    interest: Interest,     // of the channel
    // history
    sent: string,           // every octet the kernel has taken
    calls: seq<Call>)       // every request answered, with the response and its text

  const OPENED: Conn := Conn(FRESH, "", 0, false, Interest(true, false), "", [])

  const BAD_REQUEST: Response :=
    EMPTY_RESPONSE.(statusCode := 400, statusMessage := "Bad Request", body := "Bad Request\n")

  function Taken(w: WriteResult, offered: nat): nat {
    if w.Accepted? then (if w.n < offered then w.n else offered) else 0
  }

  function Unsent(c: Conn): string {
    if c.writeSent <= |c.writeBuf| then c.writeBuf[c.writeSent..] else ""
  }

  // ---------------------------------------------------------------- the callbacks

  function Removed(c: Conn): Conn {
    if c.closing then c else c.(closing := true, interest := NO_INTEREST)
  }

  function AfterSend(c: Conn, keepAlive: bool, text: string, w: WriteResult): Conn {
    if w.Failed? then Removed(c)
    else
      var n := Taken(w, |text|);
      var c1 := c.(sent := c.sent + text[..n]);
      if n < |text| then c1.(writeBuf := text[n..], writeSent := 0, interest := c1.interest.(writing := true))
      else if keepAlive then c1.(request := FRESH)
      else Removed(c1)
  }

  /** The response `onRead` sends, if it sends one. */
  function ResponseTo(o: Outcome, answer: Answer): Response {
    if !o.ok then BAD_REQUEST
    else
      var resp := if answer.Answered? then answer.resp else EMPTY_RESPONSE.(body := "OK\n");
      resp.(keepAlive := KeepAlive(o.req))
  }

  function Recorded(c: Conn, call: Call): Conn {
    c.(calls := c.calls + [call])
  }

  /** Sending and recording do not touch each other. */
  lemma {:induction false} RecordBeforeSend(c: Conn, call: Call, keepAlive: bool, text: string, w: WriteResult)
    ensures AfterSend(Recorded(c, call), keepAlive, text, w) == Recorded(AfterSend(c, keepAlive, text, w), call)
  {
  }

  function AfterReadable(c: Conn, input: ReadResult, answer: Answer, text: string, w: WriteResult): Conn {
    match input
    case EndOfStream => Removed(c)
    case ReadError => c
    case Data(bytes) =>
      var o := Feed(c.request, bytes);
      var c1 := c.(request := o.req);
      if o.ok && o.req.phase != GotAll then c1
      else
        var resp := ResponseTo(o, answer);
        var d := AfterSend(c1, resp.keepAlive, text, w);
        if o.ok then Recorded(d, Call(o.req, resp, text)) else d
  }

  datatype FlushEnd = Flushed | Blocked | Broken

  function Advanced(c: Conn, n: nat): Conn
    requires c.writeSent + n <= |c.writeBuf|
  {
    c.(writeSent := c.writeSent + n, sent := c.sent + c.writeBuf[c.writeSent..c.writeSent + n])
  }

  /** The write loop; past the last result given, `write` would block. */
  function Flush(c: Conn, ws: seq<WriteResult>): (r: (Conn, FlushEnd))
    requires c.writeSent <= |c.writeBuf|
    ensures r.0.writeSent <= |r.0.writeBuf|
    decreases |ws|
  {
    var remaining := |c.writeBuf| - c.writeSent;
    if remaining == 0 then (c, Flushed)
    else if ws == [] || ws[0].WouldBlock? then (c, Blocked)
    else
      var n := Taken(ws[0], remaining);
      if ws[0].Failed? || n == 0 then (c, Broken)
      else Flush(Advanced(c, n), ws[1..])
  }

  /** The end of `onWrite`: the buffer is out, go on with the next request or close. */
  function AllSent(c: Conn): Conn {
    var c2 := c.(writeBuf := "", writeSent := 0, interest := c.interest.(writing := false));
    if KeepAlive(c2.request) then c2.(request := FRESH) else Removed(c2)
  }

  function AfterWritable(c: Conn, ws: seq<WriteResult>): (r: Conn)
    requires c.writeSent <= |c.writeBuf|
    ensures r.writeSent <= |r.writeBuf|
  {
    var (c1, end) := Flush(c, ws);
    match end
    case Blocked => c1
    case Broken => Removed(c1)
    case Flushed => AllSent(c1)
  }

  // ---------------------------------------------------------------- events and runs

  datatype Event =
    | Readable(input: ReadResult, answer: Answer, text: string, w: WriteResult)
    | Writable(ws: seq<WriteResult>)
    | Hangup
    | ErrorReport   // and nothing else: no callback is installed for it

  /** The most that one call of `read` delivers. */
  const READ_SIZE: nat := 4096

  /** epoll reports registered descriptors only: what they are registered for, a hang-up or an error. */
  ghost predicate CanOccur(c: Conn, e: Event) {
    match e
    case Readable(input, answer, text, _) =>
      && c.interest.reading
      && (input.Data? ==>
            && 0 < |input.bytes| <= READ_SIZE
            && PrintsAs(ResponseTo(Feed(c.request, input.bytes), answer), text))
    case Writable(_) => c.interest.writing
    case Hangup => c.interest != NO_INTEREST
    case ErrorReport => c.interest != NO_INTEREST
  }

  function AfterEvent(c: Conn, e: Event): Conn
    requires c.writeSent <= |c.writeBuf|
  {
    match e
    case Readable(input, answer, text, w) => AfterReadable(c, input, answer, text, w)
    case Writable(ws) => AfterWritable(c, ws)
    case Hangup => Removed(c)
    case ErrorReport => c
  }

  ghost predicate IsRun(c: Conn, evs: seq<Event>)
    decreases |evs|
  {
    evs == [] ||
    (c.writeSent <= |c.writeBuf| && CanOccur(c, evs[0]) && IsRun(AfterEvent(c, evs[0]), evs[1..]))
  }

  ghost function AfterRun(c: Conn, evs: seq<Event>): Conn
    requires IsRun(c, evs)
    decreases |evs|
  {
    if evs == [] then c else AfterRun(AfterEvent(c, evs[0]), evs[1..])
  }

  // ---------------------------------------------------------------- interest

  /**
   Between callbacks: an open connection always reads, and is registered for writing exactly while
   part of a response is unsent; a closing one has no interest at all.
   */
  ghost predicate InterestExact(c: Conn) {
    && c.writeSent <= |c.writeBuf|
    && (!c.closing && c.writeSent == |c.writeBuf| ==> c.writeBuf == "")
    && c.interest == Interest(!c.closing, !c.closing && c.writeSent < |c.writeBuf|)
  }

  lemma {:induction false} SendKeepsInterest(c: Conn, keepAlive: bool, text: string, w: WriteResult)
    requires InterestExact(c) && !c.closing
    ensures InterestExact(AfterSend(c, keepAlive, text, w))
  {
  }

  lemma {:induction false} AdvanceMovesOctets(c: Conn, n: nat)
    requires c.writeSent + n <= |c.writeBuf|
    ensures Advanced(c, n).sent + Unsent(Advanced(c, n)) == c.sent + Unsent(c)
  {
    var part := c.writeBuf[c.writeSent..c.writeSent + n];
    assert Unsent(c) == part + Unsent(Advanced(c, n));
  }

  /** Flushing moves octets from the unsent part to the sent part, in order, and nothing else. */
  lemma {:induction false} FlushMovesOctets(c: Conn, ws: seq<WriteResult>)
    requires c.writeSent <= |c.writeBuf|
    ensures var (d, end) := Flush(c, ws);
            && c.writeSent <= d.writeSent <= |c.writeBuf|
            && d == c.(writeSent := d.writeSent, sent := d.sent)
            && d.sent + Unsent(d) == c.sent + Unsent(c)
            && (end == Flushed <==> d.writeSent == |d.writeBuf|)
    decreases |ws|
  {
    var remaining := |c.writeBuf| - c.writeSent;
    if remaining != 0 && ws != [] && ws[0].Accepted? && Taken(ws[0], remaining) != 0 {
      AdvanceMovesOctets(c, Taken(ws[0], remaining));
      FlushMovesOctets(Advanced(c, Taken(ws[0], remaining)), ws[1..]);
    }
  }

  lemma {:induction false} EventKeepsInterest(c: Conn, e: Event)
    requires InterestExact(c) && CanOccur(c, e)
    ensures InterestExact(AfterEvent(c, e))
  {
    match e
    case Readable(input, answer, text, w) =>
      if input.Data? {
        var o := Feed(c.request, input.bytes);
        var c1 := c.(request := o.req);
        var resp := ResponseTo(o, answer);
        SendKeepsInterest(c1, resp.keepAlive, text, w);
      }
    case Writable(ws) => FlushMovesOctets(c, ws);
    case Hangup =>
    case ErrorReport =>
  }

  /** Over every run of events, whatever the peer and the kernel do. */
  lemma {:induction false} InterestOverRun(c: Conn, evs: seq<Event>)
    requires InterestExact(c) && IsRun(c, evs)
    ensures InterestExact(AfterRun(c, evs))
    decreases |evs|
  {
    if evs != [] {
      EventKeepsInterest(c, evs[0]);
      InterestOverRun(AfterEvent(c, evs[0]), evs[1..]);
    }
  }

  /** A closing connection is final: nothing occurs on it any more, and it has no interest. */
  lemma {:induction false} ClosingIsFinal(evs: seq<Event>, n: nat)
    requires IsRun(OPENED, evs) && n <= |evs|
    requires IsRun(OPENED, evs[..n]) && AfterRun(OPENED, evs[..n]).closing
    ensures n == |evs| && AfterRun(OPENED, evs).interest == NO_INTEREST
  {
    RunSplit(OPENED, evs, n);
    InterestOverRun(OPENED, evs[..n]);
    assert evs[..|evs|] == evs;
  }

  lemma {:induction false} RunSplit(c: Conn, evs: seq<Event>, n: nat)
    requires IsRun(c, evs) && n <= |evs|
    ensures IsRun(c, evs[..n]) && IsRun(AfterRun(c, evs[..n]), evs[n..])
    ensures AfterRun(c, evs) == AfterRun(AfterRun(c, evs[..n]), evs[n..])
    decreases n
  {
    if n == 0 {
      assert evs[..0] == [] && evs[0..] == evs;
    } else {
      RunSplit(AfterEvent(c, evs[0]), evs[1..], n - 1);
      assert evs[..n][0] == evs[0] && evs[..n][1..] == evs[1..][..n - 1];
      assert evs[n..] == evs[1..][n - 1..];
    }
  }

  // ---------------------------------------------------------------- buffered and direct sending

  /** Results without an error; in the write loop, taking nothing is one. */
  ghost predicate NoError(ws: seq<WriteResult>) {
    forall i :: 0 <= i < |ws| ==> ws[i].WouldBlock? || (ws[i].Accepted? && ws[i].n > 0)
  }

  lemma {:induction false} FlushWithoutError(c: Conn, ws: seq<WriteResult>)
    requires c.writeSent <= |c.writeBuf| && NoError(ws)
    ensures Flush(c, ws).1 != Broken
    decreases |ws|
  {
    var remaining := |c.writeBuf| - c.writeSent;
    if remaining != 0 && ws != [] && ws[0].Accepted? {
      FlushWithoutError(Advanced(c, Taken(ws[0], remaining)), ws[1..]);
    }
  }

  /** EPOLLOUT rounds while something is unsent. */
  function Rounds(c: Conn, rounds: seq<seq<WriteResult>>): Conn
    requires c.writeSent <= |c.writeBuf|
    decreases |rounds|
  {
    if rounds == [] || Unsent(c) == "" then c
    else Rounds(AfterWritable(c, rounds[0]), rounds[1..])
  }

  /** A response under way: what is sent and what is not make up the text. */
  ghost predicate UnderWay(c: Conn, start: Conn, text: string) {
    && InterestExact(c) && !c.closing
    && c.request == start.request && c.calls == start.calls
    && Unsent(c) != ""
    && c.sent + Unsent(c) == start.sent + text
  }

  /** How the connection must look once the whole text is out and the buffer is empty again. */
  function Completed(start: Conn, keepAlive: bool, text: string): Conn {
    var c := start.(sent := start.sent + text);
    if keepAlive then c.(request := FRESH) else Removed(c)
  }

  lemma {:induction false} OneRound(c: Conn, start: Conn, text: string, ws: seq<WriteResult>)
    requires UnderWay(c, start, text) && NoError(ws)
    requires InterestExact(start) && !start.closing && Unsent(start) == ""
    ensures var d := AfterWritable(c, ws);
            if Unsent(d) == "" then d == Completed(start, KeepAlive(start.request), text) else UnderWay(d, start, text)
  {
    FlushMovesOctets(c, ws);
    FlushWithoutError(c, ws);
    var (d, end) := Flush(c, ws);
    if end == Flushed {
      assert d.sent == d.sent + Unsent(d) == start.sent + text;
    }
  }

  lemma {:induction false} AllRounds(c: Conn, start: Conn, text: string, rounds: seq<seq<WriteResult>>)
    requires UnderWay(c, start, text)
    requires forall i :: 0 <= i < |rounds| ==> NoError(rounds[i])
    requires InterestExact(start) && !start.closing && Unsent(start) == ""
    ensures var d := Rounds(c, rounds);
            if Unsent(d) == "" then d == Completed(start, KeepAlive(start.request), text) else UnderWay(d, start, text)
    decreases |rounds|
  {
    if rounds != [] {
      OneRound(c, start, text, rounds[0]);
      var d := AfterWritable(c, rounds[0]);
      FlushMovesOctets(c, rounds[0]);
      if Unsent(d) != "" {
        AllRounds(d, start, text, rounds[1..]);
      } else {
        assert Rounds(d, rounds[1..]) == d;
      }
    }
  }

  lemma {:induction false} FirstWrite(c: Conn, keepAlive: bool, text: string, w: WriteResult)
    requires InterestExact(c) && !c.closing && Unsent(c) == "" && !w.Failed?
    ensures var d := AfterSend(c, keepAlive, text, w);
            if Taken(w, |text|) == |text| then d == Completed(c, keepAlive, text) && Unsent(d) == ""
            else UnderWay(d, c, text)
  {
    var n := Taken(w, |text|);
    assert c.sent + text[..n] + text[n..] == c.sent + text;
    assert n == |text| ==> text[..n] == text;
  }

  /**
   Buffered sending refines direct sending.  However short the first write, and over any number of
   EPOLLOUT rounds without write errors: at every moment the octets sent and the unsent ones make up
   the text; and once all is sent the connection is in the very state that one full write leads to,
   if and only if the response's keep-alive flag is the request's, or the first write was full.
   */
  lemma {:induction false} BufferedRefinesDirect(c: Conn, keepAlive: bool, text: string, w: WriteResult,
                                                 rounds: seq<seq<WriteResult>>)
    requires InterestExact(c) && !c.closing && Unsent(c) == "" && !w.Failed?
    requires forall i :: 0 <= i < |rounds| ==> NoError(rounds[i])
    ensures AfterSend(c, keepAlive, text, w).writeSent <= |AfterSend(c, keepAlive, text, w).writeBuf|
    ensures var direct := AfterSend(c, keepAlive, text, Accepted(|text|));
            var d := Rounds(AfterSend(c, keepAlive, text, w), rounds);
            && d.sent + Unsent(d) == c.sent + text
            && (Unsent(d) != "" ==> !d.closing && d.request == c.request)
            && (Unsent(d) == "" ==>
                  (d == direct <==> Taken(w, |text|) == |text| || keepAlive == KeepAlive(c.request)))
  {
    FirstWrite(c, keepAlive, text, w);
    FirstWrite(c, keepAlive, text, Accepted(|text|));
    var b := AfterSend(c, keepAlive, text, w);
    if Taken(w, |text|) == |text| {
      assert Rounds(b, rounds) == b;
    } else {
      AllRounds(b, c, text, rounds);
    }
  }

  /** For a request that was parsed the two flags are the same, so the two ways always agree. */
  lemma {:induction false} AnswersAgree(c: Conn, bytes: string, answer: Answer, text: string, w: WriteResult,
                                        rounds: seq<seq<WriteResult>>)
    requires InterestExact(c) && !c.closing && Unsent(c) == "" && !w.Failed?
    requires forall i :: 0 <= i < |rounds| ==> NoError(rounds[i])
    requires Feed(c.request, bytes).ok && Feed(c.request, bytes).req.phase == GotAll
    ensures var b := AfterReadable(c, Data(bytes), answer, text, w);
            && b.writeSent <= |b.writeBuf|
            && (Unsent(Rounds(b, rounds)) == "" ==>
                  Rounds(b, rounds) == AfterReadable(c, Data(bytes), answer, text, Accepted(|text|)))
  {
    var o := Feed(c.request, bytes);
    var resp := ResponseTo(o, answer);
    var c1 := c.(request := o.req);
    RecordBeforeSend(c1, Call(o.req, resp, text), resp.keepAlive, text, w);
    RecordBeforeSend(c1, Call(o.req, resp, text), resp.keepAlive, text, Accepted(|text|));
    BufferedRefinesDirect(Recorded(c1, Call(o.req, resp, text)), resp.keepAlive, text, w, rounds);
  }

  /** For a failed parse they agree exactly when what was parsed before the error says close. */
  lemma {:induction false} BadRequestsAgreeIff(c: Conn, bytes: string, answer: Answer, text: string, w: WriteResult,
                                               rounds: seq<seq<WriteResult>>)
    requires InterestExact(c) && !c.closing && Unsent(c) == "" && !w.Failed?
    requires forall i :: 0 <= i < |rounds| ==> NoError(rounds[i])
    requires !Feed(c.request, bytes).ok
    requires Taken(w, |text|) < |text|
    ensures var b := AfterReadable(c, Data(bytes), answer, text, w);
            && b.writeSent <= |b.writeBuf|
            && (Unsent(Rounds(b, rounds)) == "" ==>
                 (Rounds(b, rounds) == AfterReadable(c, Data(bytes), answer, text, Accepted(|text|))
                  <==> !KeepAlive(Feed(c.request, bytes).req)))
  {
    var c1 := c.(request := Feed(c.request, bytes).req);
    BufferedRefinesDirect(c1, false, text, w, rounds);
  }

  // ---------------------------------------------------------------- witnesses

  function BadHeaderText(h: HttpRequestGrammar.Head, line: string): string {
    HttpRequestGrammar.HeadLine(h) + CRLF + (line + CRLF + "")
  }

  /** A first header line without a colon fails, with the request line already taken over. */
  lemma {:induction false} BadHeaderFails(h: HttpRequestGrammar.Head, line: string)
    requires HttpRequestGrammar.WellFormedHead(h) && NoCrlf(line) && line != "" && ':' !in line
    ensures var o := Drain(WithMore(FRESH, BadHeaderText(h, line)));
            !o.ok && (KeepAlive(o.req) <==> h.version == "HTTP/1.1")
  {
    var rest := line + CRLF + "";
    HttpRequestGrammar.TakeHead(h, rest);
    FindCrlfAfterLine(line, "");
    var r := HttpRequestGrammar.InHeader(h, [], "");
    assert HttpRequestGrammar.InHeader(h, [], rest).(buf := "") == r;
    assert LineStep(r, line) == Outcome(false, r);
  }

  /**
   The two ways of sending do differ on some bad requests: when the request line said HTTP/1.1 and
   the first header line has no colon, a full first write closes the connection, while after a short
   one it is never closed, however the rest is flushed.
   */
  lemma {:induction false} BadRequestKeptOpen(h: HttpRequestGrammar.Head, line: string, text: string,
                                              rounds: seq<seq<WriteResult>>)
    requires HttpRequestGrammar.WellFormedHead(h) && h.version == "HTTP/1.1"
    requires NoCrlf(line) && line != "" && ':' !in line
    requires |BadHeaderText(h, line)| <= MAX_REQUEST_SIZE
    requires text != ""
    requires forall i :: 0 <= i < |rounds| ==> NoError(rounds[i])
    ensures var direct := AfterReadable(OPENED, Data(BadHeaderText(h, line)), NotInstalled, text, Accepted(|text|));
            var b := AfterReadable(OPENED, Data(BadHeaderText(h, line)), NotInstalled, text, WouldBlock);
            && direct.closing
            && b.writeSent <= |b.writeBuf|
            && !Rounds(b, rounds).closing
  {
    BadHeaderFails(h, line);
    var o := Feed(FRESH, BadHeaderText(h, line));
    var c1 := OPENED.(request := o.req);
    FirstWrite(c1, false, text, WouldBlock);
    AllRounds(AfterSend(c1, false, text, WouldBlock), c1, text, rounds);
  }

  // ---------------------------------------------------------------- reading before all is sent

  /** What the peer can still expect: nothing once the connection is closed. */
  function Owed(c: Conn): string {
    if c.closing then "" else Unsent(c)
  }

  /** The read ends in a response, because a request is complete or broken. */
  predicate IsAnswered(c: Conn, bytes: string) {
    !Feed(c.request, bytes).ok || Feed(c.request, bytes).req.phase == GotAll
  }

  /**
   An answered read while part of an earlier response may be unsent.  The earlier octets still reach
   the peer, all of them and before the new response, if and only if none was unsent; or the kernel
   takes the new response at once, it keeps the connection open, and its text may as well stand before
   the unsent octets as behind them.
   */
  lemma {:induction false} InterveningReadKeepsIff(c: Conn, bytes: string, answer: Answer, text: string, w: WriteResult)
    requires InterestExact(c) && CanOccur(c, Readable(Data(bytes), answer, text, w)) && !w.Failed?
    requires IsAnswered(c, bytes)
    ensures var d := AfterReadable(c, Data(bytes), answer, text, w);
            d.sent + Owed(d) == c.sent + Unsent(c) + text <==>
              || Unsent(c) == ""
              || (&& Taken(w, |text|) == |text|
                  && ResponseTo(Feed(c.request, bytes), answer).keepAlive
                  && text + Unsent(c) == Unsent(c) + text)
  {
    var o := Feed(c.request, bytes);
    var resp := ResponseTo(o, answer);
    var c1 := c.(request := o.req);
    if Taken(w, |text|) < |text| {
      ShortSendOwes(c1, resp.keepAlive, text, w);
    } else {
      FullSendOwes(c1, resp.keepAlive, text, w);
    }
    InBetween(c.sent, Unsent(c), text);
  }

  lemma {:induction false} ShortSendOwes(c: Conn, keepAlive: bool, text: string, w: WriteResult)
    requires !c.closing && !w.Failed? && Taken(w, |text|) < |text|
    ensures var d := AfterSend(c, keepAlive, text, w); d.sent + Owed(d) == c.sent + text
  {
    var n := Taken(w, |text|);
    SplitAt(text, n);
    Assoc(c.sent, text[..n], text[n..]);
  }

  lemma {:induction false} FullSendOwes(c: Conn, keepAlive: bool, text: string, w: WriteResult)
    requires !c.closing && !w.Failed? && Taken(w, |text|) == |text|
    ensures var d := AfterSend(c, keepAlive, text, w);
            d.sent + Owed(d) == c.sent + (text + if keepAlive then Unsent(c) else "")
  {
    assert text[..|text|] == text;
    Assoc(c.sent, text, if keepAlive then Unsent(c) else "");
  }

  lemma {:induction false} InBetween(start: string, middle: string, end: string)
    ensures start + middle + end == start + end <==> middle == ""
    ensures start + middle + end == start + (end + "") <==> middle == ""
    ensures start + middle + end == start + (end + middle) <==> end + middle == middle + end
  {
    Assoc(start, middle, end);
    SameBehind(start, middle + end, end + middle);
    assert end + "" == end;
    if middle == "" {
      assert start + middle == start;
    } else {
      assert |start + middle + end| > |start + end|;
    }
  }

  lemma {:induction false} SplitAt(s: string, n: nat)
    requires n <= |s|
    ensures s[..n] + s[n..] == s
  {
  }

  lemma {:induction false} SameBehind(start: string, a: string, b: string)
    ensures start + a == start + b <==> a == b
  {
    assert (start + a)[|start|..] == a && (start + b)[|start|..] == b;
  }

  /**
   After a short write the unsent octets are gone, and never sent; a request that was complete already
   is answered a second time.
   */
  lemma {:induction false} InterveningReadDropsUnsent(c: Conn, bytes: string, answer: Answer, text: string,
                                                      w: WriteResult, rounds: seq<seq<WriteResult>>)
    requires InterestExact(c) && CanOccur(c, Readable(Data(bytes), answer, text, w)) && !w.Failed?
    requires IsAnswered(c, bytes) && Taken(w, |text|) < |text|
    requires forall i :: 0 <= i < |rounds| ==> NoError(rounds[i])
    ensures var d := AfterReadable(c, Data(bytes), answer, text, w);
            && d.writeSent <= |d.writeBuf|
            && Rounds(d, rounds).sent + Unsent(Rounds(d, rounds)) == c.sent + text
            && |d.calls| == |c.calls| + if Feed(c.request, bytes).ok then 1 else 0
  {
    var o := Feed(c.request, bytes);
    var resp := ResponseTo(o, answer);
    var start := c.(request := o.req, writeBuf := "", writeSent := 0, interest := Interest(true, false));
    var d := AfterReadable(c, Data(bytes), answer, text, w);
    var calls := start.(calls := d.calls);
    assert d == AfterSend(calls, resp.keepAlive, text, w);
    BufferedRefinesDirect(calls, resp.keepAlive, text, w, rounds);
  }

  /**
   After a full write of a response that keeps the connection open, the unsent octets of the earlier
   response come behind it; and because the request is gone by then, the connection is closed once
   they are out, whatever both requests asked for.
   */
  lemma {:induction false} FullWriteReorders(c: Conn, bytes: string, answer: Answer, text: string,
                                             rounds: seq<seq<WriteResult>>)
    requires InterestExact(c) && CanOccur(c, Readable(Data(bytes), answer, text, Accepted(|text|)))
    requires IsAnswered(c, bytes) && Unsent(c) != ""
    requires ResponseTo(Feed(c.request, bytes), answer).keepAlive
    requires forall i :: 0 <= i < |rounds| ==> NoError(rounds[i])
    ensures var d := AfterReadable(c, Data(bytes), answer, text, Accepted(|text|));
            && d.sent == c.sent + text && Unsent(d) == Unsent(c) && !d.closing
            && d.writeSent <= |d.writeBuf|
            && (Unsent(Rounds(d, rounds)) == "" ==>
                  Rounds(d, rounds).closing && Rounds(d, rounds).sent == c.sent + text + Unsent(c))
  {
    var d := AfterReadable(c, Data(bytes), answer, text, Accepted(|text|));
    assert text[..|text|] == text;
    var start := d.(writeBuf := "", writeSent := 0, interest := Interest(true, false));
    AllRounds(d, start, Unsent(c), rounds);
  }

  /**
   It does happen: a client that sends one octet more than a request, while the kernel takes nothing,
   gets the answer to the request a second time and never the first one.
   */
  lemma {:induction false} PipelinedReadLosesResponse(m: HttpRequestGrammar.Message, more: string,
                                                      first: string, second: string)
    requires HttpRequestGrammar.WellFormed(m) && |HttpRequestGrammar.Render(m)| <= READ_SIZE && 0 < |more| <= READ_SIZE
    requires PrintsAs(ResponseTo(Outcome(true, HttpRequestGrammar.Meaning(m)), NotInstalled), first)
    requires PrintsAs(ResponseTo(Outcome(true, HttpRequestGrammar.Meaning(m)), NotInstalled), second)
    ensures var evs := [Readable(Data(HttpRequestGrammar.Render(m)), NotInstalled, first, WouldBlock),
                        Readable(Data(more), NotInstalled, second, WouldBlock)];
            && IsRun(OPENED, evs)
            && |AfterRun(OPENED, evs).calls| == 2
            && AfterRun(OPENED, evs).sent + Owed(AfterRun(OPENED, evs)) == second
  {
    var r := HttpRequestGrammar.Meaning(m);
    var e1 := Readable(Data(HttpRequestGrammar.Render(m)), NotInstalled, first, WouldBlock);
    var e2 := Readable(Data(more), NotInstalled, second, WouldBlock);
    FirstReadBlocked(m, first);
    SecondReadBlocked(AfterEvent(OPENED, e1), more, second);
    TwoEvents(OPENED, e1, e2);
  }

  lemma {:induction false} FirstReadBlocked(m: HttpRequestGrammar.Message, text: string)
    requires HttpRequestGrammar.WellFormed(m) && |HttpRequestGrammar.Render(m)| <= READ_SIZE
    requires PrintsAs(ResponseTo(Outcome(true, HttpRequestGrammar.Meaning(m)), NotInstalled), text)
    ensures var e := Readable(Data(HttpRequestGrammar.Render(m)), NotInstalled, text, WouldBlock);
            var c := AfterEvent(OPENED, e);
            && CanOccur(OPENED, e) && InterestExact(c) && !c.closing
            && c.request == HttpRequestGrammar.Meaning(m) && c.sent == "" && |c.calls| == 1
  {
    var message := HttpRequestGrammar.Render(m);
    HttpRequestGrammar.MessageIsRecognised(m, "");
    assert message + "" == message;
    assert Feed(FRESH, message) == Outcome(true, HttpRequestGrammar.Meaning(m));
    assert |message| >= |CRLF|;
    var e := Readable(Data(message), NotInstalled, text, WouldBlock);
    assert InterestExact(OPENED);
    EventKeepsInterest(OPENED, e);
    assert text[..0] == "";
  }

  lemma {:induction false} SecondReadBlocked(c: Conn, more: string, text: string)
    requires InterestExact(c) && !c.closing && c.sent == ""
    requires c.request.phase == GotAll && c.request.buf == "" && 0 < |more| <= READ_SIZE
    requires PrintsAs(ResponseTo(Outcome(true, c.request), NotInstalled), text)
    ensures var e := Readable(Data(more), NotInstalled, text, WouldBlock);
            var d := AfterEvent(c, e);
            && CanOccur(c, e) && |d.calls| == |c.calls| + 1 && d.sent + Owed(d) == text
  {
    assert Feed(c.request, more) == Outcome(true, WithMore(c.request, more));
    assert text[..0] == "" && text[0..] == text;
    NothingBefore(text);
  }

  lemma {:induction false} NothingBefore(s: string)
    ensures "" + s == s
  {
  }

  lemma {:induction false} TwoEvents(c: Conn, e1: Event, e2: Event)
    requires c.writeSent <= |c.writeBuf| && CanOccur(c, e1)
    requires AfterEvent(c, e1).writeSent <= |AfterEvent(c, e1).writeBuf| && CanOccur(AfterEvent(c, e1), e2)
    ensures IsRun(c, [e1, e2]) && AfterRun(c, [e1, e2]) == AfterEvent(AfterEvent(c, e1), e2)
  {
    var mid := AfterEvent(c, e1);
    RunFirst(mid, e2, []);
    RunFirst(c, e1, [e2]);
    assert [e1] + [e2] == [e1, e2] && [e2] + [] == [e2];
  }

  lemma {:induction false} RunFirst(c: Conn, e: Event, rest: seq<Event>)
    requires c.writeSent <= |c.writeBuf| && CanOccur(c, e) && IsRun(AfterEvent(c, e), rest)
    ensures IsRun(c, [e] + rest) && AfterRun(c, [e] + rest) == AfterRun(AfterEvent(c, e), rest)
  {
    assert ([e] + rest)[1..] == rest;
  }
}
