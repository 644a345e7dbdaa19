/**
 What each event does to a connection (HttpServer.cpp), said from what the environment answers alone:
 when the connection closes, which octets the kernel gets, which stay behind, what the parser holds
 then and what was asked of the callback.  Nothing here is stated through the callbacks' functions.
 */
module ConnectionMeaning {
  import opened Octets
  import opened HttpRequestSpec
  import opened HttpResponsePrinter
  import opened HttpServerConnection
  import opened EndToEnd

  function Min(a: nat, b: nat): nat {
    if a < b then a else b
  }

  /** How many octets the kernel is ready to take in one write. */
  function Room(w: WriteResult): nat {
    if w.Accepted? then w.n else 0
  }

  /** How many it is ready to take in a row of writes, up to the first that takes none. */
  function RoomFor(ws: seq<WriteResult>): nat {
    if ws == [] || Room(ws[0]) == 0 then 0 else Room(ws[0]) + RoomFor(ws[1..])
  }

  /** The first answer that takes none; after the last one given, the write would block. */
  function Refusal(ws: seq<WriteResult>): WriteResult {
    if ws == [] then WouldBlock else if Room(ws[0]) == 0 then ws[0] else Refusal(ws[1..])
  }

  /** The event makes the server send a response. */
  predicate IsAnswer(c: Conn, e: Event) {
    e.Readable? && e.input.Data? && IsAnswered(c, e.input.bytes)
  }

  /** The connection persists after the response to this read, once that is out. */
  predicate Persists(c: Conn, bytes: string) {
    Feed(c.request, bytes).ok && KeepAlive(Feed(c.request, bytes).req)
  }

  // ---------------------------------------------------------------- the reference

  /** End of stream, a hang-up, a failed write, or the end of a response after which all is over. */
  predicate Closes(c: Conn, e: Event) {
    match e
    case Hangup => true
    case ErrorReport => false
    case Writable(ws) =>
      if RoomFor(ws) < |Unsent(c)| then !Refusal(ws).WouldBlock? else !KeepAlive(c.request)
    case Readable(input, answer, text, w) =>
      match input
      case EndOfStream => true
      case ReadError => false
      case Data(bytes) =>
        IsAnswered(c, bytes) && (w.Failed? || (Room(w) >= |text| && !Persists(c, bytes)))
  }

  /** The octets that the kernel gets. */
  function Sends(c: Conn, e: Event): string {
    if e.Writable? then Unsent(c)[..Min(RoomFor(e.ws), |Unsent(c)|)]
    else if IsAnswer(c, e) then e.text[..Min(Room(e.w), |e.text|)]
    else ""
  }

  /** The octets still to be sent, if the connection stays open. */
  function Leaves(c: Conn, e: Event): string {
    if e.Writable? then Unsent(c)[Min(RoomFor(e.ws), |Unsent(c)|)..]
    else if IsAnswer(c, e) && Room(e.w) < |e.text| then e.text[Room(e.w)..]
    else Unsent(c)
  }

  /** What the parser holds then, if the connection stays open: nothing, once a response is out. */
  function Holds(c: Conn, e: Event): Request {
    if e.Writable? then (if RoomFor(e.ws) < |Unsent(c)| then c.request else FRESH)
    else if e.Readable? && e.input.Data? then
      if IsAnswer(c, e) && Room(e.w) >= |e.text| then FRESH else Feed(c.request, e.input.bytes).req
    else c.request
  }

  /** The response a read is answered with. */
  function Response(c: Conn, bytes: string, answer: Answer): HttpResponsePrinter.Response {
    var o := Feed(c.request, bytes);
    if o.ok then SequentialResponse(o.req, answer)
    else HttpResponsePrinter.Response(400, "Bad Request", map[], "Bad Request\n", false)
  }

  // ---------------------------------------------------------------- it is what happens

  /** The first octets still to be sent have gone to the kernel, so many of them. */
  function Moved(c: Conn, n: nat): Conn
    requires n <= |Unsent(c)|
  {
    c.(writeSent := c.writeSent + n, sent := c.sent + Unsent(c)[..n])
  }

  lemma {:induction false} FlushMeans(c: Conn, ws: seq<WriteResult>)
    requires c.writeSent <= |c.writeBuf|
    ensures Flush(c, ws).0 == Moved(c, Min(RoomFor(ws), |Unsent(c)|))
    ensures Flush(c, ws).1 == if RoomFor(ws) >= |Unsent(c)| then Flushed
                              else if Refusal(ws).WouldBlock? then Blocked else Broken
    decreases |ws|
  {
    if Unsent(c) == "" || ws == [] || Room(ws[0]) == 0 {
      FlushStops(c, ws);
      NothingMoves(c);
    } else {
      var n, rest := Min(Room(ws[0]), |Unsent(c)|), ws[1..];
      FlushGoesOn(c, ws);
      AdvancedIsMoved(c, n);
      FlushMeans(Advanced(c, n), rest);
      MovedTwice(c, n, Min(RoomFor(rest), |Unsent(c)| - n));
    }
  }

  lemma {:induction false} FlushStops(c: Conn, ws: seq<WriteResult>)
    requires c.writeSent <= |c.writeBuf| && (Unsent(c) == "" || ws == [] || Room(ws[0]) == 0)
    ensures Flush(c, ws).0 == c && Min(RoomFor(ws), |Unsent(c)|) == 0
    ensures Flush(c, ws).1 == if Unsent(c) == "" then Flushed
                              else if Refusal(ws).WouldBlock? then Blocked else Broken
  {
  }

  lemma {:induction false} FlushGoesOn(c: Conn, ws: seq<WriteResult>)
    requires c.writeSent <= |c.writeBuf| && Unsent(c) != "" && ws != [] && Room(ws[0]) > 0
    ensures c.writeSent + Min(Room(ws[0]), |Unsent(c)|) <= |c.writeBuf|
    ensures Flush(c, ws) == Flush(Advanced(c, Min(Room(ws[0]), |Unsent(c)|)), ws[1..])
    ensures RoomFor(ws) == Room(ws[0]) + RoomFor(ws[1..]) && Refusal(ws) == Refusal(ws[1..])
  {
  }

  lemma {:induction false} NothingMoves(c: Conn)
    ensures Moved(c, 0) == c
  {
    assert c.sent + Unsent(c)[..0] == c.sent;
  }

  lemma {:induction false} AdvancedIsMoved(c: Conn, n: nat)
    requires c.writeSent + n <= |c.writeBuf|
    ensures n <= |Unsent(c)| && Advanced(c, n) == Moved(c, n)
    ensures |Unsent(Advanced(c, n))| == |Unsent(c)| - n
  {
    assert c.writeBuf[c.writeSent..c.writeSent + n] == Unsent(c)[..n];
  }

  /** Some octets, then some more: both together. */
  lemma {:induction false} MovedTwice(c: Conn, n: nat, more: nat)
    requires n + more <= |Unsent(c)| && c.writeSent <= |c.writeBuf|
    ensures more <= |Unsent(Moved(c, n))| && Moved(Moved(c, n), more) == Moved(c, n + more)
  {
    var u := Unsent(c);
    assert Unsent(Moved(c, n)) == u[n..];
    assert u[..n + more] == u[..n] + u[n..][..more];
    Assoc(c.sent, u[..n], u[n..][..more]);
  }

  lemma {:induction false} WritableMeans(c: Conn, ws: seq<WriteResult>)
    requires InterestExact(c) && CanOccur(c, Writable(ws))
    ensures var e, d := Writable(ws), AfterEvent(c, Writable(ws));
            && (d.closing <==> Closes(c, e))
            && d.sent == c.sent + Sends(c, e) && d.calls == c.calls
            && (!d.closing ==> Unsent(d) == Leaves(c, e) && d.request == Holds(c, e))
  {
    FlushMeans(c, ws);
    var n := Min(RoomFor(ws), |Unsent(c)|);
    assert c.writeBuf[c.writeSent + n..] == Unsent(c)[n..];
  }

  lemma {:induction false} AnswerMeans(c: Conn, keepAlive: bool, text: string, w: WriteResult)
    requires !c.closing
    ensures var d := AfterSend(c, keepAlive, text, w);
            && (d.closing <==> w.Failed? || (Room(w) >= |text| && !keepAlive))
            && d.sent == c.sent + text[..Min(Room(w), |text|)] && d.calls == c.calls
            && (!d.closing ==>
                  && Unsent(d) == (if Room(w) < |text| then text[Room(w)..] else Unsent(c))
                  && d.request == if Room(w) >= |text| then FRESH else c.request)
  {
    assert c.sent + text[..0] == c.sent;
  }

  lemma {:induction false} ReadableMeans(c: Conn, e: Event)
    requires InterestExact(c) && CanOccur(c, e) && e.Readable?
    ensures var d := AfterEvent(c, e);
            && (d.closing <==> Closes(c, e))
            && d.sent == c.sent + Sends(c, e)
            && (!d.closing ==> Unsent(d) == Leaves(c, e) && d.request == Holds(c, e))
  {
    assert c.sent + "" == c.sent;
    if IsAnswer(c, e) {
      var o := Feed(c.request, e.input.bytes);
      AnswerMeans(c.(request := o.req), ResponseTo(o, e.answer).keepAlive, e.text, e.w);
    }
  }

  /**
   What an event does, exactly.  The connection is closing after it if and only if `Closes`; the kernel
   has got `Sends` on top of what it had; and if the connection stays open, it still has to send `Leaves`
   and its parser holds `Holds`.
   */
  lemma {:induction false} EventMeans(c: Conn, e: Event)
    requires InterestExact(c) && CanOccur(c, e)
    ensures var d := AfterEvent(c, e);
            && (d.closing <==> Closes(c, e))
            && d.sent == c.sent + Sends(c, e)
            && (!d.closing ==> Unsent(d) == Leaves(c, e) && d.request == Holds(c, e))
  {
    match e
    case Readable(_, _, _, _) => ReadableMeans(c, e);
    case Writable(ws) => WritableMeans(c, ws);
    case _ => assert c.sent + "" == c.sent;
  }

  /**
   What is sent for a read is the printed response: the callback's answer with the persistence of the
   request for a complete one, and 400 with closing for a broken one.  Only a complete request is put
   to the callback.
   */
  lemma {:induction false} AnswersMean(c: Conn, e: Event)
    requires InterestExact(c) && CanOccur(c, e)
    ensures IsAnswer(c, e) ==> PrintsAs(Response(c, e.input.bytes, e.answer), e.text)
    ensures AfterEvent(c, e).calls == c.calls +
              if Completes(c, e)
              then [Call(Feed(c.request, e.input.bytes).req, Response(c, e.input.bytes, e.answer), e.text)]
              else []
  {
    assert c.calls + [] == c.calls;
    if IsAnswer(c, e) {
      var o := Feed(c.request, e.input.bytes);
      assert ResponseTo(o, e.answer) == Response(c, e.input.bytes, e.answer);
      AnswerMeans(c.(request := o.req), ResponseTo(o, e.answer).keepAlive, e.text, e.w);
    } else if e.Writable? {
      WritableMeans(c, e.ws);
    }
  }
}
