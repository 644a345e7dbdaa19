/**
 What a printed response says to its reader (HttpResponse.cpp), in plain octets: the status line, the
 Connection value, the declared length and every header of the caller's own.
 */
module ResponseMeaning {
  import opened Octets
  import opened HttpRequestSpec
  import opened HttpRequestGrammar
  import opened RequestPrinting
  import opened HttpResponsePrinter
  import opened RequestMeaning

  /** What a reader makes of the text behind the status line, put behind some request line. */
  function ReadBack(msg: string, h: Head): Request
    requires FindCrlf(msg) != NPOS
  {
    Drain(WithMore(FRESH, HeadLine(h) + CRLF + AfterStatusLine(msg))).req
  }

  /**
   However the header table was walked, the first line is the version, a number that reads back as the
   status code, and the message; the reader gets the body, all of it and nothing more, its length, and
   `keep-alive` when the server is to keep the connection open and `close` when it is not.
   */
  lemma {:induction false} ResponseMeans(resp: Response, msg: string, h: Head) returns (code: string)
    requires PrintsAs(resp, msg) && LinesClean(resp) && Readable(resp) && WellFormedHead(h)
    requires |resp.body| <= 9223372036854775807
    ensures FindCrlf(msg) != NPOS
    ensures msg[..FindCrlf(msg)] == "HTTP/1.1 " + code + " " + resp.statusMessage
    ensures Strtol(code) == Converted(Clamped(resp.statusCode))
    ensures if resp.statusCode < 0 then code != "" && code[0] == '-' && PlainDigits(code[1..]) else PlainDigits(code)
    ensures var r := ReadBack(msg, h);
            && r.phase == GotAll && r.body == resp.body && r.buf == ""
            && GetHeader(r, "Connection") == (if resp.keepAlive then "keep-alive" else "close")
            && Strtol(GetHeader(r, "Content-Length")) == Converted(|resp.body|)
            && PlainDigits(GetHeader(r, "Content-Length"))
  {
    var order :| IsListing(order, resp.headers) && msg == ResponseText(resp, order);
    code := DecimalInt(resp.statusCode);
    ResponseInOrderMeans(resp, order, h);
    StrtolOfDecimalInt(resp.statusCode);
    DecimalIntIsPlain(resp.statusCode);
  }

  /** The same for one walking order, with the table that the reader ends with. */
  lemma {:induction false} ResponseInOrderMeans(resp: Response, order: seq<string>, h: Head)
    requires IsListing(order, resp.headers) && LinesClean(resp) && Readable(resp) && WellFormedHead(h)
    requires |resp.body| <= 9223372036854775807
    ensures var msg := ResponseText(resp, order);
            && FindCrlf(msg) != NPOS
            && msg[..FindCrlf(msg)] == "HTTP/1.1 " + DecimalInt(resp.statusCode) + " " + resp.statusMessage
            && var r := ReadBack(msg, h);
            && r.phase == GotAll && r.body == resp.body && r.buf == ""
            && r.headers == FieldMap(ResponseFields(resp, order))
            && GetHeader(r, "Connection") == (if resp.keepAlive then "keep-alive" else "close")
            && Strtol(GetHeader(r, "Content-Length")) == Converted(|resp.body|)
            && PlainDigits(GetHeader(r, "Content-Length"))
  {
    ResponseFraming(resp, order, h);
  }

  /** Names without a colon, no two of which differ only in case, nor from the two printed anyway. */
  ghost predicate ReadApart(headers: map<string, string>, k: string) {
    && (forall x :: x in headers ==> ':' !in x)
    && (forall x :: x in headers && x != k ==> !SameButCase(x, k))
    && !SameButCase("Content-Length", k) && !SameButCase("Connection", k)
  }

  lemma {:induction false} ColonFreeIsName(k: string, v: string)
    requires ':' !in k
    ensures AsField(k, v) == Field(k, " " + v)
  {
    assert HeaderLine(k, v) == FieldLine(Field(k, " " + v));
    SameField(AsField(k, v), Field(k, " " + v));
  }

  lemma {:induction false} CallerFieldIsLast(resp: Response, order: seq<string>, i: nat)
    requires IsListing(order, resp.headers) && i < |order| && ReadApart(resp.headers, order[i])
    ensures order[i] in resp.headers
    ensures LastNamed(ResponseFields(resp, order), order[i], i)
    ensures ResponseFields(resp, order)[i].rest == " " + resp.headers[order[i]]
  {
    var k, user, fields := order[i], UserFields(resp.headers, order), ResponseFields(resp, order);
    assert k in order;
    TwoMoreAt(user, LengthField(resp), ConnectionField(resp), i);
    UserField(resp.headers, order, i);
    ColonFreeIsName(k, resp.headers[k]);
    NameIsItself(k);
    forall j | i < j < |fields| ensures !SameButCase(fields[j].name, k) {
      TwoMoreAt(user, LengthField(resp), ConnectionField(resp), j);
      if j < |order| {
        assert order[j] in order;
        UserField(resp.headers, order, j);
        ColonFreeIsName(order[j], resp.headers[order[j]]);
      }
    }
  }

  lemma {:induction false} NameIsItself(k: string)
    ensures SameButCase(k, k)
  {
  }

  /** Each header of the caller's is read back, without the spaces and tabs before its value. */
  lemma {:induction false} CallerHeadersMean(resp: Response, msg: string, h: Head, k: string)
    requires PrintsAs(resp, msg) && LinesClean(resp) && Readable(resp) && WellFormedHead(h)
    requires |resp.body| <= 9223372036854775807
    requires k in resp.headers && ReadApart(resp.headers, k)
    ensures FindCrlf(msg) != NPOS
    ensures var v, read := resp.headers[k], GetHeader(ReadBack(msg, h), k);
            && Trimmed(" " + v, read)
            && (v != "" && v[0] != ' ' && v[0] != '\t' ==> read == v)
  {
    var order :| IsListing(order, resp.headers) && msg == ResponseText(resp, order);
    ResponseInOrderMeans(resp, order, h);
    assert k in order;
    var i :| 0 <= i < |order| && order[i] == k;
    CallerHeaderIsSaid(resp, order, i, ReadBack(msg, h));
  }

  lemma {:induction false} CallerHeaderIsSaid(resp: Response, order: seq<string>, i: nat, r: Request)
    requires IsListing(order, resp.headers) && i < |order| && ReadApart(resp.headers, order[i])
    requires r.headers == FieldMap(ResponseFields(resp, order))
    ensures order[i] in resp.headers
    ensures var v, read := resp.headers[order[i]], GetHeader(r, order[i]);
            && Trimmed(" " + v, read)
            && (v != "" && v[0] != ' ' && v[0] != '\t' ==> read == v)
  {
    CallerFieldIsLast(resp, order, i);
    TableSaysLast(r, ResponseFields(resp, order), order[i], i);
    BehindOneSpace(resp.headers[order[i]], GetHeader(r, order[i]));
  }

  lemma {:induction false} BehindOneSpace(v: string, read: string)
    requires Trimmed(" " + v, read)
    ensures v != "" && v[0] != ' ' && v[0] != '\t' ==> read == v
  {
    var s := " " + v;
    if v != "" && v[0] != ' ' && v[0] != '\t' {
      assert s[1] == v[0] && s[0] == ' ';
      assert |read| < |s|;
      assert |s| - |read| <= 1;
      assert s[1..] == v;
    }
  }
}
