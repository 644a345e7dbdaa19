/**
 End to end: over any fragmentation of the requests and any pattern of short writes, a connection
 behaves like a sequential server that takes one whole request after the other and answers it.
 */
module EndToEnd {
  import opened HttpRequestSpec
  import opened HttpResponsePrinter
  import opened HttpServerConnection

  // ---------------------------------------------------------------- what the client sends

  /** The non-empty chunks in which a request is read, and what one parse call on the whole gives. */
  datatype Item = Item(chunks: seq<string>, request: Request)

  /** One parse call on the whole takes it, without leftover. */
  ghost predicate WholeRequest(it: Item) {
    && it.chunks != [] && (forall i :: 0 <= i < |it.chunks| ==> it.chunks[i] != "")
    && Feed(FRESH, Concat(it.chunks)) == Outcome(true, it.request)
    && it.request.phase == GotAll && it.request.buf == ""
  }

  /** Whole requests, all but the last of which keep the connection alive. */
  ghost predicate Script(script: seq<Item>) {
    && (forall i {:trigger WholeRequest(script[i])} :: 0 <= i < |script| ==> WholeRequest(script[i]))
    && (forall i {:trigger KeepAlive(script[i].request)} :: 0 <= i < |script| - 1 ==> KeepAlive(script[i].request))
  }

  function Flatten(script: seq<Item>): seq<string> {
    if script == [] then [] else script[0].chunks + Flatten(script[1..])
  }

  /** The chunks a run of events reads. */
  function ReadsOf(evs: seq<Event>): seq<string> {
    if evs == [] then [] else ReadBy(evs[0]) + ReadsOf(evs[1..])
  }

  function ReadBy(e: Event): seq<string> {
    if e.Readable? && e.input.Data? then [e.input.bytes] else []
  }

  /** No error and no hang-up, and nothing is read while part of a response is unsent. */
  ghost predicate Polite(c: Conn, e: Event) {
    match e
    case Readable(input, _, _, w) => input.ReadError? || (input.Data? && Unsent(c) == "" && !w.Failed?)
    case Writable(ws) => NoError(ws)
    case Hangup => false
    case ErrorReport => true
  }

  ghost predicate PoliteRun(c: Conn, evs: seq<Event>)
    requires IsRun(c, evs)
    decreases |evs|
  {
    evs == [] || (Polite(c, evs[0]) && PoliteRun(AfterEvent(c, evs[0]), evs[1..]))
  }

  // ---------------------------------------------------------------- what the server answers

  function Texts(calls: seq<Call>): string {
    if calls == [] then "" else Texts(calls[..|calls| - 1]) + calls[|calls| - 1].text
  }

  /** The event completes a request, so that the callback is asked. */
  predicate Completes(c: Conn, e: Event) {
    && e.Readable? && e.input.Data?
    && Feed(c.request, e.input.bytes).ok && Feed(c.request, e.input.bytes).req.phase == GotAll
  }

  function Asked(c: Conn, e: Event): seq<Answer> {
    if Completes(c, e) then [e.answer] else []
  }

  /** What the callback answered in a run, in order. */
  ghost function AnswersOver(c: Conn, evs: seq<Event>): seq<Answer>
    requires IsRun(c, evs)
    decreases |evs|
  {
    if evs == [] then []
    else Asked(c, evs[0]) + AnswersOver(AfterEvent(c, evs[0]), evs[1..])
  }

  /** What a sequential server sends: the callback's answer, flagged with the request's own persistence. */
  function SequentialResponse(request: Request, answer: Answer): Response {
    match answer
    case Answered(resp) => Response(resp.statusCode, resp.statusMessage, resp.headers, resp.body, KeepAlive(request))
    case NotInstalled => Response(200, "OK", map[], "OK\n", KeepAlive(request))
  }

  /** The calls of a sequential server: request after request, each answer printed and flagged. */
  ghost predicate SequentialCalls(script: seq<Item>, answers: seq<Answer>, calls: seq<Call>) {
    && |calls| == |answers| <= |script|
    && forall i {:trigger RightCall(script[i], answers[i], calls[i])} :: 0 <= i < |calls| ==>
         RightCall(script[i], answers[i], calls[i])
  }

  ghost predicate RightCall(it: Item, answer: Answer, call: Call) {
    && call.request == it.request
    && call.response == SequentialResponse(it.request, answer)
    && PrintsAs(call.response, call.text)
  }

  /** `k` requests are complete and `j` chunks of the next one are read. */
  ghost predicate At(script: seq<Item>, answers: seq<Answer>, k: nat, j: nat, c: Conn) {
    && k <= |script| && (if k < |script| then j < |script[k].chunks| else j == 0)
    && InterestExact(c)
    && |c.calls| == k && SequentialCalls(script, answers, c.calls)
    && c.sent + Unsent(c) == Texts(c.calls)
    && if Unsent(c) != "" then
         !c.closing && k > 0 && j == 0 && c.request == script[k - 1].request
       else if c.closing then
         k == |script| && k > 0 && !KeepAlive(script[k - 1].request)
       else
         && (k == |script| && k > 0 ==> KeepAlive(script[k - 1].request))
         && (k < |script| ==> FeedAll(FRESH, script[k].chunks[..j]) == Outcome(true, c.request))
         && (j == 0 ==> c.request == FRESH)
  }

  function Remaining(script: seq<Item>, k: nat, j: nat): seq<string>
    requires k <= |script| && (k < |script| ==> j < |script[k].chunks|)
  {
    if k == |script| then [] else script[k].chunks[j..] + Flatten(script[k + 1..])
  }

  // ---------------------------------------------------------------- reading one request

  lemma {:induction false} CompleteKeepsRest(r: Request, chunks: seq<string>)
    requires r.phase == GotAll && FeedAll(r, chunks).ok
    ensures FeedAll(r, chunks).req == WithMore(r, Concat(chunks))
    decreases |chunks|
  {
    if chunks == [] {
      assert WithMore(r, "") == r;
    } else {
      CompleteKeepsRest(WithMore(r, chunks[0]), chunks[1..]);
      assert r.buf + chunks[0] + Concat(chunks[1..]) == r.buf + Concat(chunks);
    }
  }

  /** The request is complete after its last chunk and not before. */
  lemma {:induction false} CompleteAtLastChunk(it: Item, j: nat)
    requires WholeRequest(it) && j <= |it.chunks|
    ensures var o := FeedAll(FRESH, it.chunks[..j]);
            o.ok && if j < |it.chunks| then o.req.phase != GotAll else o.req == it.request
  {
    FragmentationInvariance(FRESH, it.chunks);
    if j == |it.chunks| {
      assert it.chunks[..j] == it.chunks;
    } else {
      NotCompleteBefore(FRESH, it.chunks, j);
    }
  }

  /** A part that leaves something to come is not complete, or that would be left over. */
  lemma {:induction false} NotCompleteBefore(start: Request, chunks: seq<string>, j: nat)
    requires FeedAll(start, chunks).ok && FeedAll(start, chunks).req.buf == ""
    requires j < |chunks| && chunks[j] != ""
    ensures FeedAll(start, chunks[..j]).ok && FeedAll(start, chunks[..j]).req.phase != GotAll
  {
    assert chunks[..j] + chunks[j..] == chunks;
    FeedAllSplit(start, chunks[..j], chunks[j..]);
    var r := FeedAll(start, chunks[..j]).req;
    if r.phase == GotAll {
      CompleteKeepsRest(r, chunks[j..]);
      RestNotEmpty(chunks, j);
    }
  }

  lemma {:induction false} RestNotEmpty(chunks: seq<string>, j: nat)
    requires j < |chunks| && chunks[j] != ""
    ensures |Concat(chunks[j..])| > 0
  {
    assert chunks[j..][0] == chunks[j];
  }

  lemma {:induction false} FeedAllOne(r: Request, chunk: string)
    ensures FeedAll(r, [chunk]) == Feed(r, chunk)
  {
    assert [chunk][1..] == [];
  }

  lemma {:induction false} FeedNextChunk(chunks: seq<string>, j: nat, r: Request)
    requires j < |chunks|
    requires FeedAll(FRESH, chunks[..j]) == Outcome(true, r)
    ensures Feed(r, chunks[j]) == FeedAll(FRESH, chunks[..j + 1])
  {
    assert chunks[..j + 1] == chunks[..j] + [chunks[j]];
    FeedAllSplit(FRESH, chunks[..j], [chunks[j]]);
    FeedAllOne(r, chunks[j]);
  }

  // ---------------------------------------------------------------- one event

  lemma {:induction false} TakeOne<T>(s: seq<T>, j: nat, tail: seq<T>)
    requires j < |s|
    ensures s[j..] + tail == [s[j]] + (s[j + 1..] + tail)
  {
  }

  lemma {:induction false} RemainingStep(script: seq<Item>, k: nat, j: nat)
    requires Script(script) && k < |script| && j < |script[k].chunks|
    ensures k + 1 < |script| ==> |script[k + 1].chunks| > 0
    ensures Remaining(script, k, j) ==
            [script[k].chunks[j]] + if j + 1 < |script[k].chunks| then Remaining(script, k, j + 1) else Remaining(script, k + 1, 0)
  {
    TakeOne(script[k].chunks, j, Flatten(script[k + 1..]));
    if k + 1 < |script| {
      assert WholeRequest(script[k + 1]);
    }
    if j + 1 == |script[k].chunks| {
      FlattenFrom(script, k + 1);
      assert script[k].chunks[j + 1..] + Flatten(script[k + 1..]) == Flatten(script[k + 1..]);
    }
  }

  lemma {:induction false} FlattenFrom(script: seq<Item>, k: nat)
    requires k <= |script| && (k < |script| ==> |script[k].chunks| > 0)
    ensures Flatten(script[k..]) == Remaining(script, k, 0)
  {
    if k < |script| {
      assert script[k..][0] == script[k] && script[k..][1..] == script[k + 1..];
      assert script[k].chunks[0..] == script[k].chunks;
    }
  }

  /** A chunk in the middle of a request: it is taken in, and nothing else happens. */
  lemma {:induction false} ReadMiddle(script: seq<Item>, answers: seq<Answer>, k: nat, j: nat, c: Conn, e: Event)
    requires Script(script) && At(script, answers, k, j, c) && CanOccur(c, e) && Polite(c, e)
    requires e.Readable? && e.input.Data? && k < |script| && e.input.bytes == script[k].chunks[j]
    requires j + 1 < |script[k].chunks|
    ensures At(script, answers + Asked(c, e), k, j + 1, AfterEvent(c, e))
  {
    MiddleChunkIsTaken(script, k, j, c.request);
    assert answers + Asked(c, e) == answers;
  }

  lemma {:induction false} MiddleChunkIsTaken(script: seq<Item>, k: nat, j: nat, r: Request)
    requires Script(script) && k < |script| && j + 1 < |script[k].chunks|
    requires FeedAll(FRESH, script[k].chunks[..j]) == Outcome(true, r)
    ensures var o := Feed(r, script[k].chunks[j]);
            o.ok && o.req.phase != GotAll && FeedAll(FRESH, script[k].chunks[..j + 1]) == o
  {
    assert WholeRequest(script[k]);
    FeedNextChunk(script[k].chunks, j, r);
    CompleteAtLastChunk(script[k], j + 1);
  }

  /** Answering request number `k`, whole: the response is under way, or out and done with. */
  lemma {:induction false} AnswerRequest(script: seq<Item>, answers: seq<Answer>, k: nat, c: Conn,
                                         answer: Answer, call: Call, w: WriteResult)
    requires Script(script) && k < |script|
    requires InterestExact(c) && !c.closing && Unsent(c) == "" && !w.Failed?
    requires |c.calls| == k && SequentialCalls(script, answers, c.calls) && c.sent == Texts(c.calls)
    requires c.request == script[k].request && RightCall(script[k], answer, call)
    ensures At(script, answers + [answer], k + 1, 0, Recorded(AfterSend(c, call.response.keepAlive, call.text, w), call))
  {
    var c2 := Recorded(c, call);
    RecordBeforeSend(c, call, call.response.keepAlive, call.text, w);
    CallsGrow(script, answers, c.calls, answer, call);
    TextsGrow(c.calls, call);
    FirstWrite(c2, call.response.keepAlive, call.text, w);
    SendKeepsInterest(c2, call.response.keepAlive, call.text, w);
    AnswerSent(script, answers + [answer], k, c2, AfterSend(c2, call.response.keepAlive, call.text, w), call.text);
  }

  lemma {:induction false} AnswerSent(script: seq<Item>, answers: seq<Answer>, k: nat, c: Conn, d: Conn, text: string)
    requires Script(script) && k < |script|
    requires InterestExact(c) && !c.closing && Unsent(c) == "" && InterestExact(d)
    requires |c.calls| == k + 1 && SequentialCalls(script, answers, c.calls) && c.sent + text == Texts(c.calls)
    requires c.request == script[k].request
    requires d == Completed(c, KeepAlive(c.request), text) || UnderWay(d, c, text)
    ensures At(script, answers, k + 1, 0, d)
  {
    if d == Completed(c, KeepAlive(c.request), text) {
      AnswerOut(script, answers, k, c, text);
    } else if k + 1 < |script| {
      assert WholeRequest(script[k + 1]);
    }
  }

  lemma {:induction false} AnswerOut(script: seq<Item>, answers: seq<Answer>, k: nat, c: Conn, text: string)
    requires Script(script) && k < |script|
    requires InterestExact(c) && !c.closing && Unsent(c) == ""
    requires |c.calls| == k + 1 && SequentialCalls(script, answers, c.calls) && c.sent + text == Texts(c.calls)
    requires c.request == script[k].request
    requires InterestExact(Completed(c, KeepAlive(c.request), text))
    ensures At(script, answers, k + 1, 0, Completed(c, KeepAlive(c.request), text))
  {
    var d := Completed(c, KeepAlive(c.request), text);
    assert Unsent(d) == "" && d.sent + "" == d.sent;
    if k + 1 < |script| {
      assert WholeRequest(script[k + 1]);
      assert script[k + 1].chunks[..0] == [];
    }
  }

  /** The last chunk of a request: it is answered. */
  lemma {:induction false} ReadLast(script: seq<Item>, answers: seq<Answer>, k: nat, j: nat, c: Conn, e: Event)
    requires Script(script) && At(script, answers, k, j, c) && CanOccur(c, e) && Polite(c, e)
    requires e.Readable? && e.input.Data? && k < |script| && e.input.bytes == script[k].chunks[j]
    requires j + 1 == |script[k].chunks|
    ensures At(script, answers + Asked(c, e), k + 1, 0, AfterEvent(c, e))
  {
    LastChunkCompletes(script, k, j, c.request);
    var req := script[k].request;
    assert c.sent == c.sent + Unsent(c);
    AnswerRequest(script, answers, k, c.(request := req), e.answer, Call(req, ResponseTo(Outcome(true, req), e.answer), e.text), e.w);
  }

  lemma {:induction false} LastChunkCompletes(script: seq<Item>, k: nat, j: nat, r: Request)
    requires Script(script) && k < |script| && j + 1 == |script[k].chunks|
    requires FeedAll(FRESH, script[k].chunks[..j]) == Outcome(true, r)
    ensures Feed(r, script[k].chunks[j]) == Outcome(true, script[k].request) && script[k].request.phase == GotAll
  {
    assert WholeRequest(script[k]);
    FeedNextChunk(script[k].chunks, j, r);
    CompleteAtLastChunk(script[k], j + 1);
  }

  lemma {:induction false} CallsGrow(script: seq<Item>, answers: seq<Answer>, calls: seq<Call>, answer: Answer, call: Call)
    requires SequentialCalls(script, answers, calls) && |calls| < |script|
    requires RightCall(script[|calls|], answer, call)
    ensures SequentialCalls(script, answers + [answer], calls + [call])
  {
    var moreAnswers, more := answers + [answer], calls + [call];
    forall i | 0 <= i < |more| ensures RightCall(script[i], moreAnswers[i], more[i]) {
      if i < |calls| {
        assert more[i] == calls[i] && moreAnswers[i] == answers[i];
      } else {
        assert more[i] == call && moreAnswers[i] == answer;
      }
    }
  }

  lemma {:induction false} TextsGrow(calls: seq<Call>, call: Call)
    ensures Texts(calls + [call]) == Texts(calls) + call.text
  {
    assert (calls + [call])[..|calls|] == calls;
  }

  /** A round of EPOLLOUT. */
  lemma {:induction false} WriteMore(script: seq<Item>, answers: seq<Answer>, k: nat, j: nat, c: Conn, ws: seq<WriteResult>)
    requires Script(script) && At(script, answers, k, j, c) && CanOccur(c, Writable(ws)) && NoError(ws)
    ensures At(script, answers, k, j, AfterWritable(c, ws))
  {
    var text := Unsent(c);
    var start := c.(writeBuf := "", writeSent := 0, interest := Interest(true, false));
    OneRound(c, start, text, ws);
    var d := AfterWritable(c, ws);
    EventKeepsInterest(c, Writable(ws));
    if Unsent(d) == "" {
      assert d.sent + Unsent(d) == d.sent;
      if k < |script| {
        assert WholeRequest(script[k]) && script[k].chunks[..0] == [];
      }
    }
  }

  // ---------------------------------------------------------------- whole runs

  lemma {:induction false} FollowScript(script: seq<Item>, answers: seq<Answer>, k: nat, j: nat, c: Conn, evs: seq<Event>)
    returns (k': nat, j': nat)
    requires Script(script) && At(script, answers, k, j, c)
    requires IsRun(c, evs) && PoliteRun(c, evs)
    requires ReadsOf(evs) <= Remaining(script, k, j)
    ensures At(script, answers + AnswersOver(c, evs), k', j', AfterRun(c, evs))
    ensures ReadsOf(evs) + Remaining(script, k', j') == Remaining(script, k, j)
    decreases |evs|
  {
    if evs == [] {
      k', j' := k, j;
      assert answers + [] == answers;
    } else {
      var e, rest := evs[0], evs[1..];
      var d := AfterEvent(c, e);
      var k1, j1 := OneEvent(script, answers, k, j, c, e, ReadsOf(rest));
      k', j' := FollowScript(script, answers + Asked(c, e), k1, j1, d, rest);
      Reassociate(ReadBy(e), ReadsOf(rest), Remaining(script, k', j'));
      Reassociate(answers, Asked(c, e), AnswersOver(d, rest));
    }
  }

  lemma {:induction false} OneEvent(script: seq<Item>, answers: seq<Answer>, k: nat, j: nat, c: Conn, e: Event,
                                    later: seq<string>)
    returns (k1: nat, j1: nat)
    requires Script(script) && At(script, answers, k, j, c) && CanOccur(c, e) && Polite(c, e)
    requires ReadBy(e) + later <= Remaining(script, k, j)
    ensures At(script, answers + Asked(c, e), k1, j1, AfterEvent(c, e))
    ensures Remaining(script, k, j) == ReadBy(e) + Remaining(script, k1, j1)
    ensures later <= Remaining(script, k1, j1)
  {
    if e.Readable? && e.input.Data? {
      k1, j1 := ReadStep(script, answers, k, j, c, e, later);
    } else {
      OtherStep(script, answers, k, j, c, e);
      assert [] + later == later && answers + [] == answers;
      k1, j1 := k, j;
      assert [] + Remaining(script, k, j) == Remaining(script, k, j);
    }
  }

  /** An event that reads nothing. */
  lemma {:induction false} OtherStep(script: seq<Item>, answers: seq<Answer>, k: nat, j: nat, c: Conn, e: Event)
    requires Script(script) && At(script, answers, k, j, c) && CanOccur(c, e) && Polite(c, e)
    requires !(e.Readable? && e.input.Data?)
    ensures At(script, answers, k, j, AfterEvent(c, e))
  {
    if e.Writable? {
      WriteMore(script, answers, k, j, c, e.ws);
    }
  }

  lemma {:induction false} Reassociate<T>(a: seq<T>, b: seq<T>, c: seq<T>)
    ensures a + b + c == a + (b + c)
  {
  }

  lemma {:induction false} NextChunkIs(script: seq<Item>, k: nat, j: nat, chunk: string, later: seq<string>)
    requires k <= |script| && (k < |script| ==> j < |script[k].chunks|)
    requires [chunk] + later <= Remaining(script, k, j)
    ensures k < |script| && script[k].chunks[j] == chunk
  {
    assert chunk == ([chunk] + later)[0] == Remaining(script, k, j)[0];
  }

  /** One chunk of the script is read. */
  lemma {:induction false} ReadChunk(script: seq<Item>, answers: seq<Answer>, k: nat, j: nat, c: Conn, e: Event)
    returns (k1: nat, j1: nat)
    requires Script(script) && At(script, answers, k, j, c) && CanOccur(c, e) && Polite(c, e)
    requires e.Readable? && e.input.Data? && k < |script| && e.input.bytes == script[k].chunks[j]
    ensures k1 == (if j + 1 < |script[k].chunks| then k else k + 1)
    ensures j1 == (if j + 1 < |script[k].chunks| then j + 1 else 0)
    ensures At(script, answers + Asked(c, e), k1, j1, AfterEvent(c, e))
  {
    if j + 1 < |script[k].chunks| {
      ReadMiddle(script, answers, k, j, c, e);
      k1, j1 := k, j + 1;
    } else {
      ReadLast(script, answers, k, j, c, e);
      k1, j1 := k + 1, 0;
    }
  }

  lemma {:induction false} ReadStep(script: seq<Item>, answers: seq<Answer>, k: nat, j: nat, c: Conn, e: Event, later: seq<string>)
    returns (k1: nat, j1: nat)
    requires Script(script) && At(script, answers, k, j, c) && CanOccur(c, e) && Polite(c, e)
    requires e.Readable? && e.input.Data?
    requires [e.input.bytes] + later <= Remaining(script, k, j)
    ensures At(script, answers + Asked(c, e), k1, j1, AfterEvent(c, e))
    ensures Remaining(script, k, j) == [e.input.bytes] + Remaining(script, k1, j1)
    ensures later <= Remaining(script, k1, j1)
  {
    NextChunkIs(script, k, j, e.input.bytes, later);
    k1, j1 := ReadChunk(script, answers, k, j, c, e);
    RemainingStep(script, k, j);
    SamePrefix(e.input.bytes, later, Remaining(script, k1, j1));
  }

  lemma {:induction false} SamePrefix(x: string, a: seq<string>, b: seq<string>)
    requires [x] + a <= [x] + b
    ensures a <= b
  {
    assert a == ([x] + a)[1..] && b == ([x] + b)[1..];
  }

  /**
   The refinement.  Let the client send whole requests, all but the last of which keep the
   connection alive; let them be read in any chunks, let every write be as short as it may, and let
   no octet of a request be read before the previous response is out.  Then at every moment:
   the callback has been called once for each complete request, in order, with what one parse call
   on the whole request gives; what has been sent, with what is still buffered, is what the callback
   answered, printed, one answer after the other; and nothing is closed early.  And once the last request has been
   read and all is sent, the connection is closed if and only if that request is not keep-alive.
   */
  lemma {:induction false} ServerRefinesSequential(script: seq<Item>, evs: seq<Event>)
    requires Script(script)
    requires IsRun(OPENED, evs) && PoliteRun(OPENED, evs)
    requires ReadsOf(evs) <= Flatten(script)
    ensures var c := AfterRun(OPENED, evs);
            && SequentialCalls(script, AnswersOver(OPENED, evs), c.calls)
            && c.sent + Unsent(c) == Texts(c.calls)
            && (ReadsOf(evs) == Flatten(script) <==> |c.calls| == |script|)
            && (c.closing ==> Unsent(c) == "" && |c.calls| == |script|)
            && (|c.calls| == |script| && Unsent(c) == "" ==>
                 (c.closing <==> script != [] && !KeepAlive(script[|script| - 1].request)))
  {
    StartOfScript(script);
    var k, j := FollowScript(script, [], 0, 0, OPENED, evs);
    var c := AfterRun(OPENED, evs);
    assert [] + AnswersOver(OPENED, evs) == AnswersOver(OPENED, evs);
    assert |ReadsOf(evs)| + |Remaining(script, k, j)| == |Flatten(script)|;
    assert k < |script| ==> |Remaining(script, k, j)| > 0;
    if Remaining(script, k, j) == [] {
      assert ReadsOf(evs) + [] == ReadsOf(evs);
    }
  }

  lemma {:induction false} StartOfScript(script: seq<Item>)
    requires Script(script)
    ensures At(script, [], 0, 0, OPENED) && Remaining(script, 0, 0) == Flatten(script)
  {
    if script != [] {
      assert WholeRequest(script[0]);
      assert script[0].chunks[..0] == [];
    }
    assert script[0..] == script;
    FlattenFrom(script, 0);
    assert Texts([]) == "";
  }

  /** Progress: a write event in which the kernel takes everything completes the response. */
  lemma {:induction false} FullWriteCompletes(c: Conn)
    requires InterestExact(c) && !c.closing && Unsent(c) != ""
    ensures Unsent(AfterWritable(c, [Accepted(|Unsent(c)|)])) == ""
    ensures AfterWritable(c, [Accepted(|Unsent(c)|)]).sent == c.sent + Unsent(c)
  {
    var ws := [Accepted(|Unsent(c)|)];
    assert ws[1..] == [];
    assert c.writeBuf[c.writeSent..c.writeSent + |Unsent(c)|] == Unsent(c);
    assert Flush(c, ws) == (Advanced(c, |Unsent(c)|), Flushed);
  }
}
