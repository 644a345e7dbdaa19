/**
 The struct `Connection` with the server's callbacks on it (HttpServer.h, HttpServer.cpp): an object
 with a parser, a channel and a write buffer, each callback proved to do what the functions of
 HttpServerConnection say, and to keep the loop's epoll table a mirror of its channels.
 */
module HttpServerConnectionObject {
  import opened Octets
  import opened HttpRequestSpec
  import opened HttpRequestParser
  import opened HttpResponsePrinter
  import opened Reactor
  import opened HttpServerConnection

  /** Registered for reading, for both, or for nothing. */
  predicate OnlyKnownBits(events: bv32) {
    events == 0 || events == EPOLLIN || events == EPOLLIN | EPOLLOUT
  }

  lemma {:induction false} InterestBits(events: bv32)
    requires OnlyKnownBits(events)
    ensures InterestOf(0) == NO_INTEREST && InterestOf(EPOLLIN) == Interest(true, false)
    ensures InterestOf(events).reading ==>
              && InterestOf(events | EPOLLOUT) == Interest(true, true) && OnlyKnownBits(events | EPOLLOUT)
              && InterestOf(events & !EPOLLOUT) == Interest(true, false) && OnlyKnownBits(events & !EPOLLOUT)
    ensures 0 | EPOLLIN == EPOLLIN
  {
  }

  class Connection {
    const loop: EventLoop
    const channel: Channel
    const request: HttpRequest
    var writeBuf: string
    var writeSent: nat
    var closing: bool
    var closes: nat              // how often the descriptor has been closed
    ghost var sent: string       // every octet the kernel has taken
    ghost var calls: seq<Call>   // every request answered

    ghost function Abs(): Conn
      reads this, request, channel
    {
      Conn(request.State(), writeBuf, writeSent, closing, InterestOf(channel.events), sent, calls)
    }

    /** The connection's place in its loop, and its descriptor closed at most once. */
    ghost predicate Wired()
      reads this, loop, loop.channels, channel
    {
      && channel.loop == loop && channel in loop.channels
      && channel.handlers == Handlers(true, true, true, false)
      && loop.Mirror()
      && (!closing ==> channel.OwnsFd())
      && OnlyKnownBits(channel.events)
      && (closing ==> channel.events == 0)
      && closes == if closing then 1 else 0
    }

    ghost predicate Valid()
      reads this, request, loop, loop.channels, channel
    {
      Wired() && InterestExact(Abs())
    }

    /** On its loop's thread, with a descriptor the loop has no registration for (a new one). */
    constructor (loop: EventLoop, fd: int)
      requires loop.Mirror() && fd !in loop.table
      modifies loop`channels, loop`table, loop`ctlErrors
      ensures this.loop == loop && channel.fd == fd && Valid()
      ensures Abs() == OPENED
      ensures channel.handlers == Handlers(true, true, true, false)
      ensures writeBuf == "" && writeSent == 0 && !closing && request.State() == FRESH
      ensures loop.table == old(loop.table)[fd := Registration(EPOLLIN, channel)]
      ensures loop.ctlErrors == old(loop.ctlErrors)
      ensures fresh(channel) && fresh(request)
    {
      this.loop := loop;
      var ch := new Channel(loop, fd);
      ch.handlers := Handlers(true, true, true, false);
      channel := ch;
      request := new HttpRequest();
      writeBuf, writeSent, closing, closes := "", 0, false, 0;
      sent, calls := "", [];
      new;
      InterestBits(channel.events);
      channel.EnableReading();
    }

    method RemoveConnection()
      requires Valid()
      modifies this`closing, this`closes, channel`events, channel`addedToEpoll
      modifies loop`table, loop`ctlErrors, loop`pendingFunctors, loop`counter
      ensures Valid() && Abs() == Removed(old(Abs()))
      ensures loop.ctlErrors == old(loop.ctlErrors)
      ensures loop.pendingFunctors == old(loop.pendingFunctors)
                + if old(closing) then [] else [EraseConnection(channel.fd)]
      ensures !old(closing) ==> channel.fd !in loop.table
    {
      if closing {
        return;
      }
      closing := true;
      channel.DisableAll();
      closes := closes + 1;
      loop.QueueInLoop(EraseConnection(channel.fd));
      assert loop.Mirror();
    }

    /** What the kernel did not take waits for EPOLLOUT. */
    method BufferRest(rest: string)
      requires Wired() && !closing && rest != "" && InterestOf(channel.events).reading
      modifies this`writeBuf, this`writeSent, channel`events, channel`addedToEpoll
      modifies loop`table, loop`ctlErrors
      ensures Valid()
      ensures Abs() == old(Abs()).(writeBuf := rest, writeSent := 0, interest := Interest(true, true))
      ensures loop.ctlErrors == old(loop.ctlErrors)
    {
      InterestBits(channel.events);
      writeBuf := rest;
      writeSent := 0;
      channel.EnableWriting();
    }

    /** Build the message and send it, or what the kernel takes of it at once. */
    method SendResponse(resp: HttpResponse, w: WriteResult) returns (msg: string)
      requires Valid() && !closing
      modifies this`writeBuf, this`writeSent, this`closing, this`closes, this`sent
      modifies request, channel`events, channel`addedToEpoll
      modifies loop`table, loop`ctlErrors, loop`pendingFunctors, loop`counter
      ensures PrintsAs(resp.Value(), msg)
      ensures Valid() && Abs() == AfterSend(old(Abs()), resp.Value().keepAlive, msg, w)
      ensures loop.ctlErrors == old(loop.ctlErrors)
      ensures loop.pendingFunctors == old(loop.pendingFunctors)
                + if closing then [EraseConnection(channel.fd)] else []
    {
      msg := resp.ToMessage();
      SendKeepsInterest(Abs(), resp.keepAlive, msg, w);
      if w.Failed? {
        RemoveConnection();
        return;
      }
      var n := Taken(w, |msg|);
      sent := sent + msg[..n];
      if n < |msg| {
        BufferRest(msg[n..]);
      } else {
        if resp.keepAlive {
          request.Reset();
        } else {
          RemoveConnection();
        }
      }
    }

    /** A readable connection: read, parse, and answer a complete or a broken request. */
    method OnRead(input: ReadResult, answer: Answer, w: WriteResult) returns (msg: string)
      requires Valid() && !closing
      modifies this`writeBuf, this`writeSent, this`closing, this`closes, this`sent, this`calls
      modifies request, channel`events, channel`addedToEpoll
      modifies loop`table, loop`ctlErrors, loop`pendingFunctors, loop`counter
      ensures Valid() && Abs() == AfterReadable(old(Abs()), input, answer, msg, w)
      ensures input.Data? ==> var o := Feed(old(request.State()), input.bytes);
                (o.ok && o.req.phase != GotAll) || PrintsAs(ResponseTo(o, answer), msg)
      ensures input.EndOfStream? ==> closing && channel.fd !in loop.table
      ensures input.ReadError? ==> Abs() == old(Abs())
      ensures loop.ctlErrors == old(loop.ctlErrors)
      ensures loop.pendingFunctors == old(loop.pendingFunctors)
                + if closing then [EraseConnection(channel.fd)] else []
    {
      msg := "";
      if input.EndOfStream? {
        RemoveConnection();
        return;
      }
      if input.ReadError? {
        return;
      }
      msg := ParseAndAnswer(input.bytes, answer, w);
    }

    /** What was read goes to the parser, and a complete or a broken request is answered. */
    method ParseAndAnswer(bytes: string, answer: Answer, w: WriteResult) returns (msg: string)
      requires Valid() && !closing
      modifies this`writeBuf, this`writeSent, this`closing, this`closes, this`sent, this`calls
      modifies request, channel`events, channel`addedToEpoll
      modifies loop`table, loop`ctlErrors, loop`pendingFunctors, loop`counter
      ensures Valid() && Abs() == AfterReadable(old(Abs()), Data(bytes), answer, msg, w)
      ensures var o := Feed(old(request.State()), bytes);
              (o.ok && o.req.phase != GotAll) || PrintsAs(ResponseTo(o, answer), msg)
      ensures loop.ctlErrors == old(loop.ctlErrors)
      ensures loop.pendingFunctors == old(loop.pendingFunctors)
                + if closing then [EraseConnection(channel.fd)] else []
    {
      msg := "";
      var parsed := request.Parse(bytes);
      ghost var c1 := Abs();
      assert Valid() && c1 == old(Abs()).(request := Feed(old(request.State()), bytes).req);
      if !parsed {
        msg := AnswerBadRequest(w);
        return;
      }
      if request.state != GotAll {
        return;
      }
      msg := AnswerRequest(answer, w);
    }

    method AnswerBadRequest(w: WriteResult) returns (msg: string)
      requires Valid() && !closing
      modifies this`writeBuf, this`writeSent, this`closing, this`closes, this`sent
      modifies request, channel`events, channel`addedToEpoll
      modifies loop`table, loop`ctlErrors, loop`pendingFunctors, loop`counter
      ensures PrintsAs(Response(400, "Bad Request", map[], "Bad Request\n", false), msg)
      ensures Valid() && Abs() == AfterSend(old(Abs()), false, msg, w)
      ensures loop.ctlErrors == old(loop.ctlErrors)
      ensures loop.pendingFunctors == old(loop.pendingFunctors)
                + if closing then [EraseConnection(channel.fd)] else []
    {
      var resp := new HttpResponse();
      resp.SetStatusCode(400);
      resp.SetBody("Bad Request\n");
      assert resp.Value() == BAD_REQUEST;
      msg := SendResponse(resp, w);
    }

    /** The parsed request goes to the callback, the callback's response to the peer. */
    method AnswerRequest(answer: Answer, w: WriteResult) returns (msg: string)
      requires Valid() && !closing
      modifies this`writeBuf, this`writeSent, this`closing, this`closes, this`sent, this`calls
      modifies request, channel`events, channel`addedToEpoll
      modifies loop`table, loop`ctlErrors, loop`pendingFunctors, loop`counter
      ensures var resp := ResponseTo(Outcome(true, old(request.State())), answer);
              && PrintsAs(resp, msg)
              && Abs() == Recorded(AfterSend(old(Abs()), resp.keepAlive, msg, w), Call(old(request.State()), resp, msg))
      ensures Valid()
      ensures loop.ctlErrors == old(loop.ctlErrors)
      ensures loop.pendingFunctors == old(loop.pendingFunctors)
                + if closing then [EraseConnection(channel.fd)] else []
    {
      var resp := MakeResponse(answer);
      ghost var value := resp.Value();
      msg := SendResponse(resp, w);
      Record(Call(old(request.State()), value, msg));
    }

    ghost method Record(call: Call)
      requires Valid()
      modifies this`calls
      ensures Valid() && Abs() == Recorded(old(Abs()), call)
    {
      calls := calls + [call];
    }

    method MakeResponse(answer: Answer) returns (resp: HttpResponse)
      ensures fresh(resp) && resp.Value() == ResponseTo(Outcome(true, request.State()), answer)
    {
      resp := new HttpResponse();
      if answer.Answered? {
        resp.FillIn(answer.resp);
      } else {
        resp.SetBody("OK\n");
      }
      var keep := request.IsKeepAlive();
      resp.SetKeepAlive(keep);
    }

    /** A writable connection: send more of what is buffered; when all is out, go on or close. */
    method OnWrite(ws: seq<WriteResult>)
      requires Valid() && !closing
      modifies this`writeBuf, this`writeSent, this`closing, this`closes, this`sent
      modifies request, channel`events, channel`addedToEpoll
      modifies loop`table, loop`ctlErrors, loop`pendingFunctors, loop`counter
      ensures Valid() && Abs() == AfterWritable(old(Abs()), ws)
      ensures loop.ctlErrors == old(loop.ctlErrors)
      ensures loop.pendingFunctors == old(loop.pendingFunctors)
                + if closing then [EraseConnection(channel.fd)] else []
    {
      FlushMovesOctets(Abs(), ws);
      var end := WriteOut(ws);
      if end == Blocked {
        return;
      }
      if end == Broken {
        RemoveConnection();
        return;
      }
      FinishResponse();
    }

    method ClearBuffer()
      requires Wired() && !closing && InterestOf(channel.events).reading
      modifies this`writeBuf, this`writeSent, channel`events, channel`addedToEpoll
      modifies loop`table, loop`ctlErrors
      ensures Valid()
      ensures Abs() == old(Abs()).(writeBuf := "", writeSent := 0, interest := Interest(true, false))
      ensures loop.ctlErrors == old(loop.ctlErrors)
    {
      InterestBits(channel.events);
      writeBuf := "";
      writeSent := 0;
      channel.DisableWriting();
    }

    /** The end of `onWrite`: everything buffered is out. */
    method FinishResponse()
      requires Wired() && !closing && InterestOf(channel.events).reading
      modifies this`writeBuf, this`writeSent, this`closing, this`closes
      modifies request, channel`events, channel`addedToEpoll
      modifies loop`table, loop`ctlErrors, loop`pendingFunctors, loop`counter
      ensures Valid() && Abs() == AllSent(old(Abs()))
      ensures loop.ctlErrors == old(loop.ctlErrors)
      ensures loop.pendingFunctors == old(loop.pendingFunctors)
                + if closing then [EraseConnection(channel.fd)] else []
    {
      ClearBuffer();
      var keep := request.IsKeepAlive();
      if keep {
        request.Reset();
      } else {
        RemoveConnection();
      }
    }

    /** The write loop of `onWrite`. */
    method WriteOut(ws: seq<WriteResult>) returns (end: FlushEnd)
      requires writeSent <= |writeBuf|
      modifies this`writeSent, this`sent
      ensures (Abs(), end) == Flush(old(Abs()), ws)
    {
      ghost var start := Abs();
      var remaining := |writeBuf| - writeSent;
      var i := 0;
      while remaining > 0
        invariant 0 <= i <= |ws|
        invariant remaining == |writeBuf| - writeSent >= 0
        invariant Flush(start, ws) == Flush(Abs(), ws[i..])
        decreases |ws| - i
      {
        var w := if i < |ws| then ws[i] else WouldBlock;
        var n := Taken(w, remaining);
        if n > 0 {
          assert ws[i..][0] == w && ws[i..][1..] == ws[i + 1..];
          ghost var c := Abs();
          sent := sent + writeBuf[writeSent..writeSent + n];
          writeSent := writeSent + n;
          remaining := remaining - n;
          assert Abs() == Advanced(c, n);
          i := i + 1;
        } else if w.WouldBlock? {
          return Blocked;
        } else {
          return Broken;
        }
      }
      return Flushed;
    }

    method OnClose()
      requires Valid() && !closing
      modifies this`closing, this`closes, channel`events, channel`addedToEpoll
      modifies loop`table, loop`ctlErrors, loop`pendingFunctors, loop`counter
      ensures Valid() && Abs() == Removed(old(Abs()))
      ensures closing && channel.fd !in loop.table
      ensures loop.ctlErrors == old(loop.ctlErrors)
      ensures loop.pendingFunctors == old(loop.pendingFunctors) + [EraseConnection(channel.fd)]
    {
      RemoveConnection();
    }

    /**
     An event as epoll reports it, with what the callback then finds: a writable connection is written
     to, else a readable one is read, else a hung-up one is closed, and an error alone does nothing.
     */
    method OnEvent(revents: bv32, input: ReadResult, answer: Answer, w: WriteResult, ws: seq<WriteResult>)
      returns (msg: string)
      requires Valid() && !closing
      modifies this`writeBuf, this`writeSent, this`closing, this`closes, this`sent, this`calls
      modifies request, channel`revents, channel`events, channel`addedToEpoll
      modifies loop`table, loop`ctlErrors, loop`pendingFunctors, loop`counter
      ensures Valid()
      ensures revents & 0x4 != 0 ==> Abs() == AfterWritable(old(Abs()), ws)
      ensures revents & 0x4 == 0 && revents & 0x1 != 0 ==> Abs() == AfterReadable(old(Abs()), input, answer, msg, w)
      ensures revents & 0x4 == 0 && revents & 0x1 == 0 && revents & 0x2010 != 0 ==> Abs() == Removed(old(Abs()))
      ensures revents & 0x4 == 0 && revents & 0x1 == 0 && revents & 0x2010 == 0 ==> Abs() == old(Abs())
      ensures loop.ctlErrors == old(loop.ctlErrors)
      ensures loop.pendingFunctors == old(loop.pendingFunctors)
                + if closing then [EraseConnection(channel.fd)] else []
    {
      msg := "";
      channel.revents := revents;
      var callback := channel.HandleEvent();
      match callback
      case WriteCallback => OnWrite(ws);
      case ReadCallback => msg := OnRead(input, answer, w);
      case CloseCallback => OnClose();
      case _ =>
    }
  }
}
