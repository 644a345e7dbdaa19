/**
 What every run of successful `parse` calls keeps: no octet is lost or invented, the header map and
 the cached length agree, and the buffer never holds anything that could already be consumed.
 */
module HttpRequestInvariants {
  import opened Octets
  import opened HttpRequestSpec
  import opened HttpRequestGrammar

  ghost predicate NoCapital(k: string) {
    forall i :: 0 <= i < |k| ==> k[i] !in UPPER_CASE
  }

  ghost predicate HeadersAgree(r: Request) {
    && |r.headers| <= 64
    && (forall k :: k in r.headers ==> NoCapital(k))
    && r.contentLength == LengthIn(r.headers)
  }

  /** The body is there only in the end, and then it has the cached length. */
  ghost predicate BodyAgrees(r: Request) {
    match r.phase
    case ExpectRequestLine => r.body == "" && r.headers == map[]
    case ExpectHeaders => r.body == ""
    case ExpectBody => r.body == "" && r.contentLength > 0
    case GotAll => |r.body| == r.contentLength
  }

  /** Nothing in the buffer could be consumed without more octets. */
  ghost predicate Starved(r: Request) {
    match r.phase
    case ExpectRequestLine => NoCrlf(r.buf)
    case ExpectHeaders => NoCrlf(r.buf)
    case ExpectBody => |r.buf| < r.contentLength
    case GotAll => true
  }

  function Lines(lines: seq<string>): string {
    if lines == [] then "" else lines[0] + CRLF + Lines(lines[1..])
  }

  lemma {:induction false} LineStepAgrees(r: Request, line: string)
    requires r.phase == ExpectRequestLine || r.phase == ExpectHeaders
    requires HeadersAgree(r) && BodyAgrees(r) && LineStep(r, line).ok
    ensures HeadersAgree(LineStep(r, line).req) && BodyAgrees(LineStep(r, line).req)
  {
    if r.phase == ExpectHeaders && line != "" {
      LowerExact(line[..Find(line, ':')]);
    }
  }

  lemma {:induction false} DrainAgrees(r: Request)
    requires HeadersAgree(r) && BodyAgrees(r) && Drain(r).ok
    ensures var d := Drain(r).req; HeadersAgree(d) && BodyAgrees(d) && Starved(d)
    decreases |r.buf|
  {
    if r.phase != ExpectBody && r.phase != GotAll && FindCrlf(r.buf) != NPOS {
      var line, rest := r.buf[..FindCrlf(r.buf)], r.buf[FindCrlf(r.buf) + 2..];
      LineStepAgrees(r.(buf := rest), line);
      DrainAgrees(LineStep(r.(buf := rest), line).req);
    }
  }

  /** A parser that expects lines and has one: that line, and the state after it. */
  lemma {:induction false} OneLine(r: Request) returns (line: string, next: Request)
    requires r.phase == ExpectRequestLine || r.phase == ExpectHeaders
    requires BodyAgrees(r) && Drain(r).ok && FindCrlf(r.buf) != NPOS
    ensures NoCrlf(line) && r.buf == line + CRLF + next.buf
    ensures next.body == "" && BodyAgrees(next)
    ensures Drain(next) == Drain(r)
  {
    LineBeforeFirstCrlf(r.buf);
    var rest := r.buf[FindCrlf(r.buf) + 2..];
    line := r.buf[..FindCrlf(r.buf)];
    next := LineStep(r.(buf := rest), line).req;
  }

  lemma {:induction false} TakeBodyConserves(r: Request)
    requires r.body == ""
    ensures r.buf == TakeBody(r).body + TakeBody(r).buf
  {
    if |r.buf| >= r.contentLength {
      assert r.buf == r.buf[..r.contentLength] + r.buf[r.contentLength..];
    } else {
      NoBodyYet("", r.buf);
    }
  }

  lemma {:induction false} NoBodyYet(body: string, buf: string)
    requires body == ""
    ensures body + buf == buf
  {
  }

  /** The text is those lines with their line ends, then the body and the buffer. */
  ghost predicate Ledger(text: string, lines: seq<string>, r: Request) {
    && (forall line :: line in lines ==> NoCrlf(line))
    && text == Lines(lines) + (r.body + r.buf)
  }

  lemma {:induction false} LedgerNone(r: Request)
    ensures Ledger(r.body + r.buf, [], r)
  {
  }

  lemma {:induction false} LedgerCons(line: string, rest: string, more: seq<string>, r: Request)
    requires NoCrlf(line) && Ledger(rest, more, r)
    ensures Ledger(line + CRLF + rest, [line] + more, r)
  {
    assert ([line] + more)[1..] == more;
  }

  /** The lines that draining consumes; with body and buffer they make up what was there. */
  lemma {:induction false} DrainConserves(r: Request) returns (lines: seq<string>)
    requires BodyAgrees(r) && Drain(r).ok
    ensures Ledger(r.body + r.buf, lines, Drain(r).req)
    decreases |r.buf|, 1
  {
    lines := [];
    LedgerNone(Drain(r).req);
    if r.phase == ExpectBody {
      NoBodyYet(r.body, r.buf);
      TakeBodyConserves(r);
    } else if r.phase != GotAll && FindCrlf(r.buf) != NPOS {
      lines := LineConserves(r);
    }
  }

  lemma {:induction false} LineConserves(r: Request) returns (lines: seq<string>)
    requires r.phase == ExpectRequestLine || r.phase == ExpectHeaders
    requires BodyAgrees(r) && Drain(r).ok && FindCrlf(r.buf) != NPOS
    ensures Ledger(r.body + r.buf, lines, Drain(r).req)
    decreases |r.buf|, 0
  {
    var line, next := OneLine(r);
    NoBodyYet(next.body, next.buf);
    NoBodyYet(r.body, r.buf);
    var more := DrainConserves(next);
    LedgerCons(line, next.buf, more, Drain(next).req);
    lines := [line] + more;
  }

  /**
   After any run of successful calls since construction or `reset`: keys are lower-case and at most
   64, the cached length is the one the stored Content-Length header declares (0 without one), the
   body is complete exactly in the last phase, nothing consumable is left in the buffer, and all the
   octets fed are the consumed lines with their line ends, the body and the buffer, in this order.
   */
  lemma {:induction false} SuccessfulRunKeeps(chunks: seq<string>) returns (lines: seq<string>)
    requires chunks != [] && FeedAll(FRESH, chunks).ok
    ensures var r := FeedAll(FRESH, chunks).req;
            && HeadersAgree(r) && BodyAgrees(r) && Starved(r)
            && Ledger(Concat(chunks), lines, r)
  {
    SuccessfulCallsDrainTheWhole(FRESH, chunks);
    var start := WithMore(FRESH, Concat(chunks));
    assert start.body + start.buf == Concat(chunks);
    DrainAgrees(start);
    lines := DrainConserves(start);
  }

  /** Header lookup does not depend on the letter case of the name asked for. */
  lemma {:induction false} LookupIgnoresCase(r: Request, key: string, key': string)
    requires SameButCase(key, key')
    ensures GetHeader(r, key) == GetHeader(r, key')
  {
    LowerForgetsCaseOnly(key, key');
  }

  // ---------------------------------------------------------------- the size limit

  const REPEATED_FIELD: Field := Field("a", "")
  const SMALL_HEAD: Head := Head("GET", "/", "HTTP/1.1")

  function Repeated(n: nat): seq<string> {
    if n == 0 then ["\r\n"] else ["a:\r\n"] + Repeated(n - 1)
  }

  /** A call with exactly one line, given to a parser that holds nothing. */
  lemma {:induction false} OneLineFed(r: Request, line: string, after: Request)
    requires r.phase == ExpectHeaders && r.buf == "" && NoCrlf(line) && |line| + 2 <= MAX_REQUEST_SIZE
    requires LineStep(r, line) == Outcome(true, after) && Drain(after) == Outcome(true, after)
    ensures Feed(r, line + CRLF) == Outcome(true, after)
  {
    var sent := WithMore(r, line + CRLF);
    assert sent.buf == line + CRLF + "" && sent.(buf := "") == r;
    NextLineIs(sent, line, "");
  }

  lemma {:induction false} RepeatedFieldStored(r: Request) returns (after: map<string, string>)
    requires r.phase == ExpectHeaders && r.headers.Keys <= {"a"}
    ensures after.Keys <= {"a"}
    ensures LineStep(r, "a:") == Outcome(true, r.(headers := after))
  {
    after := r.headers["a" := FieldValue(REPEATED_FIELD)];
    SubsetSize(after.Keys, {"a"});
    assert |after| == |after.Keys| <= 1;
    FieldLineParses(r, REPEATED_FIELD);
    assert Key(REPEATED_FIELD) == "a" && |Key(REPEATED_FIELD)| == 1;
    assert FieldLine(REPEATED_FIELD) == "a:";
  }

  lemma {:induction false} RepeatedOnce(r: Request) returns (after: map<string, string>)
    requires r.phase == ExpectHeaders && r.buf == ""
    requires r.headers.Keys <= {"a"}
    ensures after.Keys <= {"a"}
    ensures Feed(r, "a:\r\n") == Outcome(true, r.(headers := after))
  {
    after := RepeatedFieldStored(r);
    OneLineFed(r, "a:", r.(headers := after));
    assert "a:" + CRLF == "a:\r\n";
  }

  lemma {:induction false} LastLineAccepted(r: Request)
    requires r.phase == ExpectHeaders && r.buf == "" && r.contentLength == 0
    ensures Feed(r, "\r\n") == Outcome(true, r.(phase := GotAll))
  {
    OneLineFed(r, "", r.(phase := GotAll));
    assert "" + CRLF == "\r\n";
  }

  lemma {:induction false} RepeatedFieldAccepted(r: Request, n: nat)
    requires r.phase == ExpectHeaders && r.buf == "" && r.contentLength == 0
    requires r.headers.Keys <= {"a"}
    ensures FeedAll(r, Repeated(n)).ok && FeedAll(r, Repeated(n)).req.phase == GotAll
    decreases n
  {
    if n == 0 {
      LastLineAccepted(r);
      assert Repeated(0)[1..] == [];
    } else {
      var after := RepeatedOnce(r);
      RepeatedFieldAccepted(r.(headers := after), n - 1);
      assert Repeated(n)[1..] == Repeated(n - 1);
    }
  }

  lemma {:induction false} RepeatedSizes(n: nat)
    ensures |Concat(Repeated(n))| == 4 * n + 2
    ensures forall c :: c in Repeated(n) ==> |c| <= 16
    decreases n
  {
    if n == 0 {
      assert Repeated(0)[1..] == [];
    } else {
      RepeatedSizes(n - 1);
      assert Repeated(n)[1..] == Repeated(n - 1);
    }
  }

  const SMALL_LINE: string := "GET / HTTP/1.1"

  lemma {:induction false} SmallLineAccepted()
    ensures Feed(FRESH, SMALL_LINE + CRLF) == Outcome(true, InHeader(SMALL_HEAD, [], ""))
  {
    assert HeadLine(SMALL_HEAD) == SMALL_LINE;
    forall i: nat ensures !CrlfAt(SMALL_LINE, i) {}
    TakeHead(SMALL_HEAD, "");
    assert SMALL_LINE + CRLF + "" == SMALL_LINE + CRLF;
  }

  /**
   The 64 KB limit bounds what one call may leave in the buffer, not the request: requests of any
   total length are accepted, in calls of at most 16 octets.
   */
  lemma {:induction false} NoLimitOnWholeRequest(n: nat) returns (chunks: seq<string>)
    ensures |Concat(chunks)| >= n
    ensures FeedAll(FRESH, chunks).ok && FeedAll(FRESH, chunks).req.phase == GotAll
    ensures forall c :: c in chunks ==> |c| <= 16
  {
    chunks := [SMALL_LINE + CRLF] + Repeated(n);
    assert chunks[1..] == Repeated(n);
    SmallLineAccepted();
    RepeatedFieldAccepted(InHeader(SMALL_HEAD, [], ""), n);
    RepeatedSizes(n);
  }
}
