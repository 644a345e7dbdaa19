/**
 The incremental request parser as a function on its state (HttpRequest.cpp), and the law it
 exists for: how the network cut the bytes into reads makes no difference.
 */
module HttpRequestSpec {
  import opened Octets

  const MAX_REQUEST_SIZE: nat := 64 * 1024
  const MAX_HEADER_COUNT: nat := 64

  datatype Phase = ExpectRequestLine | ExpectHeaders | ExpectBody | GotAll

  datatype Request = Request(
    phase: Phase,
    buf: string,
    verb: string,
    path: string,
    version: string,
    headers: map<string, string>,
    body: string,
    contentLength: nat)

  /** What a parsing call returns, with the state it leaves behind (also when it fails). */
  datatype Outcome = Outcome(ok: bool, req: Request)

  const FRESH: Request := Request(ExpectRequestLine, "", "", "", "", map[], "", 0)

  // ---------------------------------------------------------------- one line

  function NormalPath(target: string): string {
    if target == "" then "/"
    else if target[0] != '/' then "/" + target
    else target
  }

  function ParseRequestLine(r: Request, line: string): (o: Outcome)
    ensures o.req.buf == r.buf && o.req.phase == r.phase
  {
    var pos1 := Find(line, ' ');
    var pos2 := RFind(line, ' ');
    if pos1 == NPOS || pos2 == NPOS || pos2 == pos1 then Outcome(false, r)
    else
      var version := line[pos2 + 1..];
      Outcome("HTTP/" <= version,
              r.(verb := line[..pos1], path := NormalPath(line[pos1 + 1..pos2]), version := version))
  }

  /** The length a Content-Length value declares, if the parser takes it at all. */
  function DeclaredBy(value: string): int {
    match Strtol(value)
    case NoConversion => -1
    case Converted(n) => n
  }

  /** The value is stored first, and a length looked at then. */
  function WithField(r: Request, key: string, value: string): (o: Outcome)
    ensures o.req.buf == r.buf && o.req.phase == r.phase
  {
    var r1 := r.(headers := r.headers[key := value]);
    if key != "content-length" then Outcome(true, r1)
    else if DeclaredBy(value) < 0 then Outcome(false, r1)
    else Outcome(true, r1.(contentLength := DeclaredBy(value)))
  }

  function ParseHeader(r: Request, line: string): (o: Outcome)
    ensures o.req.buf == r.buf && o.req.phase == r.phase
  {
    var colon := Find(line, ':');
    if colon == NPOS then Outcome(false, r)
    else WithField(r, Lower(line[..colon]), TrimValue(line[colon + 1..]))
  }

  /** What the parser does with one complete line, CR LF removed, in either line phase. */
  function LineStep(r: Request, line: string): (o: Outcome)
    ensures o.req.buf == r.buf
  {
    if r.phase == ExpectRequestLine then
      var o := ParseRequestLine(r, line);
      if o.ok then Outcome(true, o.req.(phase := ExpectHeaders)) else o
    else if line == "" then
      Outcome(true, r.(phase := if r.contentLength > 0 then ExpectBody else GotAll))
    else
      var o := ParseHeader(r, line);
      Outcome(o.ok && |o.req.headers| <= MAX_HEADER_COUNT, o.req)
  }

  function TakeBody(r: Request): Request {
    if |r.buf| >= r.contentLength then
      r.(body := r.buf[..r.contentLength], buf := r.buf[r.contentLength..], phase := GotAll)
    else r
  }

  // ---------------------------------------------------------------- one call, many calls

  /** The parser's loop: consume what the buffer holds until something is missing or wrong. */
  function Drain(r: Request): (o: Outcome)
    ensures |o.req.buf| <= |r.buf|
    decreases |r.buf|
  {
    if r.phase == GotAll then Outcome(true, r)
    else if r.phase == ExpectBody then Outcome(true, TakeBody(r))
    else
      var pos := FindCrlf(r.buf);
      if pos == NPOS then Outcome(true, r)
      else
        var o := LineStep(r.(buf := r.buf[pos + 2..]), r.buf[..pos]);
        if o.ok then Drain(o.req) else o
  }

  function WithMore(r: Request, data: string): Request {
    r.(buf := r.buf + data)
  }

  /** One call of `parse`. */
  function Feed(r: Request, data: string): Outcome {
    if |r.buf| + |data| > MAX_REQUEST_SIZE then Outcome(false, r)
    else Drain(WithMore(r, data))
  }

  /** Consecutive calls of `parse`, up to the first that fails. */
  function FeedAll(r: Request, chunks: seq<string>): (o: Outcome)
    decreases |chunks|
  {
    if chunks == [] then Outcome(true, r)
    else
      var o := Feed(r, chunks[0]);
      if o.ok then FeedAll(o.req, chunks[1..]) else o
  }

  function Concat(parts: seq<string>): string {
    if parts == [] then "" else parts[0] + Concat(parts[1..])
  }

  lemma {:induction false} Assoc(a: string, b: string, c: string)
    ensures a + b + c == a + (b + c)
  {
  }

  lemma {:induction false} ConcatAppend(a: seq<string>, b: seq<string>)
    ensures Concat(a + b) == Concat(a) + Concat(b)
  {
    if a == [] {
      assert a + b == b;
    } else {
      var first, rest := a[0], a[1..];
      ConcatAppend(rest, b);
      assert (a + b)[0] == first && (a + b)[1..] == rest + b;
      Assoc(first, Concat(rest), Concat(b));
    }
  }

  function GetHeader(r: Request, key: string): string {
    if Lower(key) in r.headers then r.headers[Lower(key)] else ""
  }

  predicate KeepAlive(r: Request) {
    var conn := GetHeader(r, "connection");
    if r.version == "HTTP/1.1" then conn != "close" else conn == "keep-alive"
  }

  // ---------------------------------------------------------------- fragmentation

  lemma {:induction false} LineStepFrame(r: Request, line: string, buf: string)
    ensures LineStep(r.(buf := buf), line)
         == Outcome(LineStep(r, line).ok, LineStep(r, line).req.(buf := buf))
  {
    if r.phase == ExpectRequestLine {
      RequestLineFrame(r, line, buf);
    } else {
      HeaderFrame(r, line, buf);
    }
  }

  lemma {:induction false} RequestLineFrame(r: Request, line: string, buf: string)
    ensures ParseRequestLine(r.(buf := buf), line)
         == Outcome(ParseRequestLine(r, line).ok, ParseRequestLine(r, line).req.(buf := buf))
  {
  }

  lemma {:induction false} HeaderFrame(r: Request, line: string, buf: string)
    ensures ParseHeader(r.(buf := buf), line)
         == Outcome(ParseHeader(r, line).ok, ParseHeader(r, line).req.(buf := buf))
  {
  }

  lemma {:induction false} BodyThenMore(r: Request, more: string)
    requires r.phase == ExpectBody
    ensures Drain(WithMore(r, more)) == Drain(WithMore(TakeBody(r), more))
  {
    if |r.buf| >= r.contentLength {
      assert (r.buf + more)[..r.contentLength] == r.buf[..r.contentLength];
      assert (r.buf + more)[r.contentLength..] == r.buf[r.contentLength..] + more;
    }
  }

  /** What one call of the loop's body does to a line that is there does not depend on the rest. */
  lemma {:induction false} LineThenMore(r: Request, more: string)
    requires r.phase == ExpectRequestLine || r.phase == ExpectHeaders
    requires FindCrlf(r.buf) != NPOS
    ensures var pos := FindCrlf(r.buf);
            var o := LineStep(r.(buf := r.buf[pos + 2..]), r.buf[..pos]);
            Drain(WithMore(r, more)) ==
              if o.ok then Drain(WithMore(o.req, more)) else Outcome(false, WithMore(o.req, more))
  {
    var pos := FindCrlf(r.buf);
    var text := r.buf + more;
    FindCrlfAppend(r.buf, more);
    assert text[..pos] == r.buf[..pos];
    assert text[pos + 2..] == r.buf[pos + 2..] + more;
    LineStepFrame(r.(buf := r.buf[pos + 2..]), r.buf[..pos], r.buf[pos + 2..] + more);
  }

  /**
   Bytes that arrive later do not change what was already consumed: draining everything at once
   is draining what is there, then draining again with the rest; and a failure stays a failure.
   */
  lemma {:induction false} DrainThenMore(r: Request, more: string)
    ensures var o := Drain(r);
            Drain(WithMore(r, more)) ==
              if o.ok then Drain(WithMore(o.req, more)) else Outcome(false, WithMore(o.req, more))
    decreases |r.buf|
  {
    if r.phase == ExpectBody {
      BodyThenMore(r, more);
    } else if r.phase != GotAll && FindCrlf(r.buf) != NPOS {
      LineThenMore(r, more);
      var pos := FindCrlf(r.buf);
      var o := LineStep(r.(buf := r.buf[pos + 2..]), r.buf[..pos]);
      if o.ok {
        DrainThenMore(o.req, more);
      }
    }
  }

  /** Draining an already drained state changes nothing. */
  lemma {:induction false} DrainTwice(r: Request)
    requires Drain(r).ok
    ensures Drain(Drain(r).req) == Drain(r)
  {
    DrainThenMore(r, "");
    WithNothing(r);
    WithNothing(Drain(r).req);
  }

  lemma {:induction false} WithNothing(r: Request)
    ensures WithMore(r, "") == r
  {
    assert r.buf + "" == r.buf;
  }

  lemma {:induction false} WithMoreTwice(r: Request, a: string, b: string)
    ensures WithMore(WithMore(r, a), b) == WithMore(r, a + b)
  {
    Assoc(r.buf, a, b);
  }

  /** Calls that all succeed leave the state of one unbounded drain of all the bytes. */
  lemma {:induction false} SuccessfulCallsDrainTheWhole(r: Request, chunks: seq<string>)
    requires chunks != []
    requires FeedAll(r, chunks).ok
    ensures FeedAll(r, chunks) == Drain(WithMore(r, Concat(chunks)))
    decreases |chunks|
  {
    var o := Feed(r, chunks[0]);
    var rest := chunks[1..];
    WithMoreTwice(r, chunks[0], Concat(rest));
    DrainThenMore(WithMore(r, chunks[0]), Concat(rest));
    if rest == [] {
      WithNothing(o.req);
      DrainTwice(WithMore(r, chunks[0]));
    } else {
      SuccessfulCallsDrainTheWhole(o.req, rest);
    }
  }

  /** Within the size limit, a failing call anywhere means the whole would have failed too. */
  lemma {:induction false} FailingCallFailsTheWhole(r: Request, chunks: seq<string>)
    requires !FeedAll(r, chunks).ok
    requires |r.buf| + |Concat(chunks)| <= MAX_REQUEST_SIZE
    ensures !Drain(WithMore(r, Concat(chunks))).ok
    decreases |chunks|
  {
    var o := Feed(r, chunks[0]);
    var rest := chunks[1..];
    WithMoreTwice(r, chunks[0], Concat(rest));
    DrainThenMore(WithMore(r, chunks[0]), Concat(rest));
    if o.ok {
      FailingCallFailsTheWhole(o.req, rest);
    }
  }

  // ---------------------------------------------------------------- which calls are accepted

  /** Call number `i` finds room: what the calls before it have left, and its own octets, fit. */
  predicate Fits(r: Request, chunks: seq<string>, i: nat)
    requires i < |chunks|
  {
    |Drain(WithMore(r, Concat(chunks[..i]))).req.buf| + |chunks[i]| <= 65536
  }

  /** One chunk taken, the later calls find room for the rest exactly as before. */
  lemma {:induction false} FitsOneOn(r: Request, chunks: seq<string>, i: nat)
    requires i < |chunks| - 1 && Drain(WithMore(r, chunks[0])).ok
    ensures Fits(Drain(WithMore(r, chunks[0])).req, chunks[1..], i) <==> Fits(r, chunks, i + 1)
  {
    var before := chunks[1..][..i];
    assert chunks[..i + 1][0] == chunks[0] && chunks[..i + 1][1..] == before;
    WithMoreTwice(r, chunks[0], Concat(before));
    DrainThenMore(WithMore(r, chunks[0]), Concat(before));
  }

  ghost predicate AllFit(r: Request, chunks: seq<string>) {
    forall i :: 0 <= i < |chunks| ==> Fits(r, chunks, i)
  }

  lemma {:induction false} AllFitCons(r: Request, chunks: seq<string>)
    requires chunks != [] && Drain(r) == Outcome(true, r) && Drain(WithMore(r, chunks[0])).ok
    ensures AllFit(r, chunks) <==>
            |r.buf| + |chunks[0]| <= MAX_REQUEST_SIZE && AllFit(Drain(WithMore(r, chunks[0])).req, chunks[1..])
  {
    var next, rest := Drain(WithMore(r, chunks[0])).req, chunks[1..];
    assert Fits(r, chunks, 0) <==> |r.buf| + |chunks[0]| <= MAX_REQUEST_SIZE by {
      assert chunks[..0] == [];
      WithNothing(r);
    }
    if AllFit(r, chunks) {
      forall i | 0 <= i < |rest| ensures Fits(next, rest, i) {
        FitsOneOn(r, chunks, i);
      }
    }
    if Fits(r, chunks, 0) && AllFit(next, rest) {
      forall i | 0 <= i < |chunks| ensures Fits(r, chunks, i) {
        if i > 0 {
          FitsOneOn(r, chunks, i - 1);
        }
      }
    }
  }

  /**
   Which runs of calls are accepted, exactly, whatever their total length.  A parser that has taken
   all it could accepts every one of the chunks if and only if one pass over all their octets finds
   no error and each call finds room for its chunk beside what the earlier ones left in the buffer.
   */
  lemma {:induction false} CallsAcceptedIff(r: Request, chunks: seq<string>)
    requires Drain(r) == Outcome(true, r)
    ensures FeedAll(r, chunks).ok <==> Drain(WithMore(r, Concat(chunks))).ok && AllFit(r, chunks)
    ensures FeedAll(r, chunks).ok ==> FeedAll(r, chunks) == Drain(WithMore(r, Concat(chunks)))
    decreases |chunks|
  {
    if chunks == [] {
      WithNothing(r);
    } else {
      var first, rest := chunks[0], chunks[1..];
      var o := Drain(WithMore(r, first));
      WithMoreTwice(r, first, Concat(rest));
      DrainThenMore(WithMore(r, first), Concat(rest));
      if o.ok {
        DrainTwice(WithMore(r, first));
        AllFitCons(r, chunks);
        CallsAcceptedIff(o.req, rest);
      }
    }
  }

  /**
   Fragmentation invariance, exactly.  One call on the whole succeeds if and only if every call of
   the splitting succeeds and the whole is within the size limit; and then the states are the same.
   */
  lemma {:induction false} FragmentationInvariance(r: Request, chunks: seq<string>)
    requires chunks != []
    ensures Feed(r, Concat(chunks)).ok <==>
            FeedAll(r, chunks).ok && |r.buf| + |Concat(chunks)| <= MAX_REQUEST_SIZE
    ensures Feed(r, Concat(chunks)).ok ==> FeedAll(r, chunks) == Feed(r, Concat(chunks))
  {
    if |r.buf| + |Concat(chunks)| <= MAX_REQUEST_SIZE {
      if FeedAll(r, chunks).ok {
        SuccessfulCallsDrainTheWhole(r, chunks);
      } else {
        FailingCallFailsTheWhole(r, chunks);
      }
    }
  }

  /** Two splittings of the same bytes, within the limit, are accepted alike and end alike. */
  lemma {:induction false} SplittingsAgree(r: Request, a: seq<string>, b: seq<string>)
    requires a != [] && b != [] && Concat(a) == Concat(b)
    requires |r.buf| + |Concat(a)| <= MAX_REQUEST_SIZE
    ensures FeedAll(r, a).ok <==> FeedAll(r, b).ok
    ensures FeedAll(r, a).ok ==> FeedAll(r, a) == FeedAll(r, b)
  {
    FragmentationInvariance(r, a);
    FragmentationInvariance(r, b);
  }

  lemma {:induction false} FeedAllSplit(r: Request, a: seq<string>, b: seq<string>)
    ensures FeedAll(r, a + b) == if FeedAll(r, a).ok then FeedAll(FeedAll(r, a).req, b) else FeedAll(r, a)
    decreases |a|
  {
    if a == [] {
      assert a + b == b;
    } else {
      assert (a + b)[1..] == a[1..] + b;
      if Feed(r, a[0]).ok {
        FeedAllSplit(Feed(r, a[0]).req, a[1..], b);
      }
    }
  }
}
