/**
 The response printer (HttpResponse.h, HttpResponse.cpp), and the proof that what it prints frames
 the body: reading the header and body phases back gives exactly the body and nothing more.
 */
module HttpResponsePrinter {
  import opened Octets
  import opened HttpRequestSpec
  import opened HttpRequestGrammar
  import opened RequestPrinting

  datatype Response = Response(
    statusCode: int,
    statusMessage: string,
    headers: map<string, string>,
    body: string,
    keepAlive: bool)

  const EMPTY_RESPONSE: Response := Response(200, "OK", map[], "", false)

  function MessageFor(code: int): string {
    match code
    case 200 => "OK"
    case 404 => "Not Found"
    case 400 => "Bad Request"
    case 500 => "Internal Server Error"
    case _ => "Unknown"
  }

  function StatusLine(resp: Response): string {
    "HTTP/1.1 " + DecimalInt(resp.statusCode) + " " + resp.statusMessage
  }

  function HeaderLine(k: string, v: string): string {
    k + ": " + v
  }

  /** The caller's header lines, in the order the table is walked. */
  function HeaderText(headers: map<string, string>, order: seq<string>): string
    requires forall k :: k in order ==> k in headers
  {
    if order == [] then ""
    else var last := order[|order| - 1];
         HeaderText(headers, order[..|order| - 1]) + (HeaderLine(last, headers[last]) + CRLF)
  }

  lemma {:induction false} HeaderTextAppend(headers: map<string, string>, order: seq<string>, k: string)
    requires forall x :: x in order ==> x in headers
    requires k in headers
    ensures HeaderText(headers, order + [k]) == HeaderText(headers, order) + (HeaderLine(k, headers[k]) + CRLF)
  {
    assert (order + [k])[..|order|] == order;
  }

  function ConnectionToken(keepAlive: bool): string {
    if keepAlive then "keep-alive" else "close"
  }

  function LengthLine(resp: Response): string {
    "Content-Length: " + Decimal(|resp.body|)
  }

  function ConnectionLine(resp: Response): string {
    "Connection: " + ConnectionToken(resp.keepAlive)
  }

  /** `toMessage`, for one order of walking the header table. */
  function ResponseText(resp: Response, order: seq<string>): string
    requires forall k :: k in order ==> k in resp.headers
  {
    StatusLine(resp) + CRLF
    + HeaderText(resp.headers, order)
    + LengthLine(resp) + CRLF
    + ConnectionLine(resp) + CRLF
    + CRLF
    + resp.body
  }

  /** `msg` is the response printed in some order of its header table. */
  ghost predicate PrintsAs(resp: Response, msg: string) {
    exists order :: IsListing(order, resp.headers) && msg == ResponseText(resp, order)
  }

  class HttpResponse {
    var statusCode: int
    var statusMessage: string
    var headers: map<string, string>
    var body: string
    var keepAlive: bool

    function Value(): Response
      reads this
    {
      Response(statusCode, statusMessage, headers, body, keepAlive)
    }

    constructor ()
      ensures Value() == EMPTY_RESPONSE
      ensures statusCode == 200 && statusMessage == "OK" && headers == map[] && body == "" && !keepAlive
    {
      statusCode, statusMessage, headers, body, keepAlive := 200, "OK", map[], "", false;
    }

    method SetStatusCode(code: int)
      modifies this`statusCode, this`statusMessage
      ensures Value() == old(Value()).(statusCode := code, statusMessage := statusMessage)
      ensures statusMessage == MessageFor(code)
      ensures code == 200 ==> statusMessage == "OK"
      ensures code == 400 ==> statusMessage == "Bad Request"
      ensures code == 404 ==> statusMessage == "Not Found"
      ensures code == 500 ==> statusMessage == "Internal Server Error"
      ensures code !in {200, 400, 404, 500} ==> statusMessage == "Unknown"
    {
      statusCode := code;
      match code {
        case 200 => statusMessage := "OK";
        case 404 => statusMessage := "Not Found";
        case 400 => statusMessage := "Bad Request";
        case 500 => statusMessage := "Internal Server Error";
        case _ => statusMessage := "Unknown";
      }
    }

    method SetStatusMessage(msg: string)
      modifies this`statusMessage
      ensures Value() == old(Value()).(statusMessage := msg)
    {
      statusMessage := msg;
    }

    method SetContentType(mimeType: string)
      modifies this`headers
      ensures Value() == old(Value()).(headers := old(headers)["Content-Type" := mimeType])
    {
      headers := headers["Content-Type" := mimeType];
    }

    method SetBody(text: string)
      modifies this`body
      ensures Value() == old(Value()).(body := text)
    {
      body := text;
    }

    method SetKeepAlive(on: bool)
      modifies this`keepAlive
      ensures Value() == old(Value()).(keepAlive := on)
    {
      keepAlive := on;
    }

    method SetHeader(key: string, value: string)
      modifies this`headers
      ensures Value() == old(Value()).(headers := old(headers)[key := value])
    {
      headers := headers[key := value];
    }

    /** What the application's callback does with the response it is handed: anything. */
    method FillIn(filled: Response)
      modifies this
      ensures Value() == filled
    {
      statusCode, statusMessage, headers, body, keepAlive :=
        filled.statusCode, filled.statusMessage, filled.headers, filled.body, filled.keepAlive;
    }

    method ToMessage() returns (msg: string)
      ensures PrintsAs(Value(), msg)
    {
      var oss := "HTTP/1.1 " + DecimalInt(statusCode) + " " + statusMessage + CRLF;
      ghost var order;
      oss, order := AddHeaders(oss);
      oss := oss + ("Content-Length: " + Decimal(|body|)) + CRLF;
      oss := oss + ("Connection: " + (if keepAlive then "keep-alive" else "close")) + CRLF;
      oss := oss + CRLF;
      oss := oss + body;
      assert oss == ResponseText(Value(), order);
      return oss;
    }

    /** The hash table is walked in an order of its own; every order is allowed for. */
    method AddHeaders(start: string) returns (oss: string, ghost order: seq<string>)
      ensures IsListing(order, headers)
      ensures oss == start + HeaderText(headers, order)
    {
      oss := start;
      var todo := headers.Keys;
      order := [];
      assert HeaderText(headers, []) == "" && start + "" == start;
      while todo != {}
        invariant todo <= headers.Keys
        invariant forall k :: k in order <==> k in headers && k !in todo
        invariant forall i, j :: 0 <= i < j < |order| ==> order[i] != order[j]
        invariant oss == start + HeaderText(headers, order)
        decreases |todo|
      {
        var k :| k in todo;
        HeaderTextAppend(headers, order, k);
        Assoc(start, HeaderText(headers, order), HeaderLine(k, headers[k]) + CRLF);
        oss := oss + (k + ": " + headers[k] + CRLF);
        order := order + [k];
        todo := todo - {k};
      }
    }
  }

  // ---------------------------------------------------------------- the message as fields

  function LengthField(resp: Response): Field {
    Field("Content-Length", " " + Decimal(|resp.body|))
  }

  function ConnectionField(resp: Response): Field {
    Field("Connection", " " + ConnectionToken(resp.keepAlive))
  }

  /** A printed header line as a reader sees it: cut at its first colon, wherever that is. */
  function AsField(k: string, v: string): Field {
    assert HeaderLine(k, v)[|k|] == ':';
    CutField(HeaderLine(k, v))
  }

  function UserFields(headers: map<string, string>, order: seq<string>): (fields: seq<Field>)
    requires forall k :: k in order ==> k in headers
    ensures |fields| == |order|
  {
    if order == [] then []
    else var last := order[|order| - 1];
         UserFields(headers, order[..|order| - 1]) + [AsField(last, headers[last])]
  }

  function ResponseFields(resp: Response, order: seq<string>): seq<Field>
    requires forall k :: k in order ==> k in resp.headers
  {
    UserFields(resp.headers, order) + [LengthField(resp)] + [ConnectionField(resp)]
  }

  lemma {:induction false} BlockOne(f: Field)
    ensures Block([f]) == FieldLine(f) + CRLF
  {
    assert Block([f][1..]) == "";
  }

  lemma {:induction false} HeaderTextIsBlock(headers: map<string, string>, order: seq<string>)
    requires forall k :: k in order ==> k in headers
    ensures HeaderText(headers, order) == Block(UserFields(headers, order))
    decreases |order|
  {
    if order != [] {
      var init, last := order[..|order| - 1], order[|order| - 1];
      HeaderTextIsBlock(headers, init);
      BlockAppend(UserFields(headers, init), [AsField(last, headers[last])]);
      BlockOne(AsField(last, headers[last]));
    }
  }

  lemma {:induction false} FixedLines(resp: Response)
    ensures FieldLine(LengthField(resp)) == LengthLine(resp)
    ensures FieldLine(ConnectionField(resp)) == ConnectionLine(resp)
  {
  }

  lemma {:induction false} MessageIsBlock(resp: Response, order: seq<string>)
    requires forall k :: k in order ==> k in resp.headers
    ensures ResponseText(resp, order) == StatusLine(resp) + CRLF + (Block(ResponseFields(resp, order)) + (CRLF + resp.body))
  {
    var user := UserFields(resp.headers, order);
    HeaderTextIsBlock(resp.headers, order);
    BlockTwoMore(user, LengthField(resp), ConnectionField(resp));
    FixedLines(resp);
    Reassociate(StatusLine(resp), HeaderText(resp.headers, order), LengthLine(resp), ConnectionLine(resp), resp.body);
  }

  lemma {:induction false} BlockTwoMore(fields: seq<Field>, f: Field, g: Field)
    ensures Block(fields + [f] + [g]) == Block(fields) + (FieldLine(f) + CRLF) + (FieldLine(g) + CRLF)
  {
    BlockAppend(fields + [f], [g]);
    BlockAppend(fields, [f]);
    BlockOne(f);
    BlockOne(g);
  }

  lemma {:induction false} Reassociate(a: string, b: string, c: string, d: string, e: string)
    ensures a + CRLF + b + c + CRLF + d + CRLF + CRLF + e
         == a + CRLF + (b + (c + CRLF) + (d + CRLF) + (CRLF + e))
  {
  }

  // ---------------------------------------------------------------- framing

  /** The names a reader sees in the header, in lower case; they do not depend on the order. */
  function NamesRead(headers: map<string, string>): set<string> {
    (set k | k in headers :: Key(AsField(k, headers[k]))) + {"content-length", "connection"}
  }

  /**
   When a printed response can be read back: any Content-Length line of the caller's own carries a
   length, and there are at most 64 different names.  Both can be checked before printing.
   */
  ghost predicate Readable(resp: Response) {
    && (forall k :: k in resp.headers ==> CarriesLength(resp.headers, k))
    && |NamesRead(resp.headers)| <= MAX_HEADER_COUNT
  }

  /** No piece of the head contains a line end. */
  ghost predicate LinesClean(resp: Response) {
    && NoCrlf(resp.statusMessage)
    && forall k :: k in resp.headers ==> NoCrlf(HeaderLine(k, resp.headers[k]))
  }

  /** What follows the status line. */
  function AfterStatusLine(msg: string): string
    requires FindCrlf(msg) != NPOS
  {
    msg[FindCrlf(msg) + 2..]
  }

  lemma {:induction false} NoCrlfWithout(s: string, c: char)
    requires c == '\r' || c == '\n'
    requires c !in s
    ensures NoCrlf(s)
  {
    forall i: nat ensures !CrlfAt(s, i) {
      if i + 1 < |s| { assert s[i] != c && s[i + 1] != c; }
    }
  }

  lemma {:induction false} DecimalIntIsOneLine(n: int)
    ensures '\r' !in DecimalInt(n)
  {
    var d := Decimal(if n < 0 then -n else n);
    assert forall i :: 0 <= i < |d| ==> IsDigit(d[i]);
    assert '\r' !in d;
  }

  lemma {:induction false} StatusLineIsOneLine(resp: Response)
    requires NoCrlf(resp.statusMessage)
    ensures NoCrlf(StatusLine(resp))
  {
    DecimalIntIsOneLine(resp.statusCode);
    var before := "HTTP/1.1 " + DecimalInt(resp.statusCode) + " ";
    assert '\r' !in before;
    NoCrlfWithout(before, '\r');
    NoCrlfConcat(before, resp.statusMessage);
    assert before[|before| - 1] == ' ';
  }

  lemma {:induction false} FixedKeys(resp: Response)
    ensures Key(LengthField(resp)) == "content-length" && Key(ConnectionField(resp)) == "connection"
    ensures FieldValue(LengthField(resp)) == Decimal(|resp.body|)
    ensures FieldValue(ConnectionField(resp)) == ConnectionToken(resp.keepAlive)
    ensures DeclaredBy(Decimal(|resp.body|)) == if |resp.body| > LONG_MAX then LONG_MAX else |resp.body|
  {
    assert Lower("Content-Length") == "content-length";
    assert Lower("Connection") == "connection";
    assert IsDigit(Decimal(|resp.body|)[0]);
    TrimValueIs(" ", Decimal(|resp.body|));
    TrimValueIs(" ", ConnectionToken(resp.keepAlive));
    StrtolOfDecimal(|resp.body|);
  }

  lemma {:induction false} NotInConcat(a: string, b: string, c: char)
    requires c !in a && c !in b
    ensures c !in a + b
  {
  }

  lemma {:induction false} LengthLineClean(resp: Response)
    ensures NoCrlf(LengthLine(resp))
  {
    var d := Decimal(|resp.body|);
    assert '\r' !in d by { assert forall i :: 0 <= i < |d| ==> IsDigit(d[i]); }
    NotInConcat("Content-Length: ", d, '\r');
    NoCrlfWithout(LengthLine(resp), '\r');
  }

  lemma {:induction false} ConnectionLineClean(resp: Response)
    ensures NoCrlf(ConnectionLine(resp))
  {
    NotInConcat("Connection: ", ConnectionToken(resp.keepAlive), '\r');
    NoCrlfWithout(ConnectionLine(resp), '\r');
  }

  lemma {:induction false} FixedLinesClean(resp: Response)
    ensures LineShaped(LengthField(resp)) && LineShaped(ConnectionField(resp))
  {
    FixedLines(resp);
    LengthLineClean(resp);
    ConnectionLineClean(resp);
  }

  lemma {:induction false} UserNames(headers: map<string, string>, order: seq<string>, name: string)
    requires forall k :: k in order ==> k in headers
    ensures name in FieldMap(UserFields(headers, order)) <==> exists k :: k in order && Key(AsField(k, headers[k])) == name
    decreases |order|
  {
    if order != [] {
      var init, last := order[..|order| - 1], order[|order| - 1];
      assert order == init + [last];
      UserNames(headers, init, name);
      FieldMapAppend(UserFields(headers, init), AsField(last, headers[last]));
      assert last in order;
    }
  }

  lemma {:induction false} UserFieldMap(resp: Response, order: seq<string>, name: string)
    requires IsListing(order, resp.headers)
    ensures name in FieldMap(UserFields(resp.headers, order)) || name == "content-length" || name == "connection"
            <==> name in NamesRead(resp.headers)
  {
    UserNames(resp.headers, order, name);
  }

  lemma {:induction false} ResponseFieldMap(resp: Response, order: seq<string>)
    requires IsListing(order, resp.headers)
    ensures var fm := FieldMap(ResponseFields(resp, order));
            && fm.Keys == NamesRead(resp.headers)
            && fm["content-length"] == Decimal(|resp.body|)
            && fm["connection"] == ConnectionToken(resp.keepAlive)
  {
    var user := FieldMap(UserFields(resp.headers, order));
    ResponseFieldTable(resp, order);
    var fm := FieldMap(ResponseFields(resp, order));
    forall name ensures name in fm.Keys <==> name in NamesRead(resp.headers) {
      UserFieldMap(resp, order, name);
    }
  }

  lemma {:induction false} ResponseFieldTable(resp: Response, order: seq<string>)
    requires forall k :: k in order ==> k in resp.headers
    ensures "content-length" != "connection"
    ensures FieldMap(ResponseFields(resp, order)) ==
            FieldMap(UserFields(resp.headers, order))
              ["content-length" := Decimal(|resp.body|)]["connection" := ConnectionToken(resp.keepAlive)]
  {
    var user := UserFields(resp.headers, order);
    FixedKeys(resp);
    FieldMapAppend(user, LengthField(resp));
    FieldMapAppend(user + [LengthField(resp)], ConnectionField(resp));
    assert |"content-length"| == 14 && |"connection"| == 10;
  }

  lemma {:induction false} UserField(headers: map<string, string>, order: seq<string>, i: nat)
    requires forall k :: k in order ==> k in headers
    requires i < |order|
    ensures UserFields(headers, order)[i] == AsField(order[i], headers[order[i]])
    decreases |order|
  {
    if i < |order| - 1 {
      UserField(headers, order[..|order| - 1], i);
    }
  }

  lemma {:induction false} ResponseFieldsShaped(resp: Response, order: seq<string>)
    requires IsListing(order, resp.headers) && LinesClean(resp)
    ensures forall i :: 0 <= i < |ResponseFields(resp, order)| ==> LineShaped(ResponseFields(resp, order)[i])
  {
    FixedLinesClean(resp);
    forall i | 0 <= i < |order| ensures LineShaped(UserFields(resp.headers, order)[i]) {
      UserField(resp.headers, order, i);
      assert order[i] in resp.headers;
    }
  }

  ghost predicate CarriesLength(headers: map<string, string>, k: string)
    requires k in headers
  {
    Key(AsField(k, headers[k])) == "content-length" ==> DeclaredBy(FieldValue(AsField(k, headers[k]))) >= 0
  }

  lemma {:induction false} UserFieldWellFormed(resp: Response, order: seq<string>, i: nat)
    requires IsListing(order, resp.headers) && LinesClean(resp) && i < |order|
    ensures order[i] in resp.headers
    ensures WellFormedField(UserFields(resp.headers, order)[i]) <==> CarriesLength(resp.headers, order[i])
  {
    assert order[i] in order;
    UserField(resp.headers, order, i);
  }

  lemma {:induction false} ReadableGivesWellFormed(resp: Response, order: seq<string>)
    requires IsListing(order, resp.headers) && LinesClean(resp) && Readable(resp)
    ensures WellFormedFields(ResponseFields(resp, order))
  {
    var user, fields := UserFields(resp.headers, order), ResponseFields(resp, order);
    ResponseFieldMap(resp, order);
    assert |FieldMap(fields)| == |FieldMap(fields).Keys|;
    forall i | 0 <= i < |fields| ensures WellFormedField(fields[i]) {
      TwoMoreAt(user, LengthField(resp), ConnectionField(resp), i);
      if i < |order| {
        UserFieldWellFormed(resp, order, i);
      } else {
        FixedLinesClean(resp);
        FixedKeys(resp);
      }
    }
  }

  lemma {:induction false} WellFormedGivesReadable(resp: Response, order: seq<string>)
    requires IsListing(order, resp.headers) && LinesClean(resp)
    requires WellFormedFields(ResponseFields(resp, order))
    ensures Readable(resp)
  {
    var user, fields := UserFields(resp.headers, order), ResponseFields(resp, order);
    ResponseFieldMap(resp, order);
    assert |FieldMap(fields)| == |FieldMap(fields).Keys|;
    forall k | k in resp.headers ensures CarriesLength(resp.headers, k) {
      assert k in order;
      var i :| 0 <= i < |order| && order[i] == k;
      TwoMoreAt(user, LengthField(resp), ConnectionField(resp), i);
      UserFieldWellFormed(resp, order, i);
    }
  }

  lemma {:induction false} TwoMoreAt<T>(a: seq<T>, x: T, y: T, i: nat)
    requires i < |a| + 2
    ensures (a + [x] + [y])[i] == if i < |a| then a[i] else if i == |a| then x else y
  {
  }

  /** The grammar's condition on the printed fields is the caller's condition on the response. */
  lemma {:induction false} ReadableIsWellFormed(resp: Response, order: seq<string>)
    requires IsListing(order, resp.headers) && LinesClean(resp)
    ensures Readable(resp) <==> WellFormedFields(ResponseFields(resp, order))
  {
    if Readable(resp) {
      ReadableGivesWellFormed(resp, order);
    } else if WellFormedFields(ResponseFields(resp, order)) {
      WellFormedGivesReadable(resp, order);
    }
  }

  /**
   Framing.  Read back what `toMessage` prints after the status line, behind any request line: the
   reader ends complete if and only if the response is `Readable`, and then the body is exactly the
   original one, nothing is left over, and the Connection header is the printed one.  The condition
   and the result do not depend on the order in which the header table was walked.
   */
  lemma {:induction false} ResponseFraming(resp: Response, order: seq<string>, h: Head)
    requires IsListing(order, resp.headers) && LinesClean(resp) && WellFormedHead(h)
    requires |resp.body| <= LONG_MAX
    ensures var msg := ResponseText(resp, order);
            && FindCrlf(msg) != NPOS
            && msg[..FindCrlf(msg)] == "HTTP/1.1 " + DecimalInt(resp.statusCode) + " " + resp.statusMessage
    ensures var o := Drain(WithMore(FRESH, HeadLine(h) + CRLF + AfterStatusLine(ResponseText(resp, order))));
            && (o.ok && o.req.phase == GotAll <==> Readable(resp))
            && (Readable(resp) ==>
                  && o.req.body == resp.body && o.req.buf == ""
                  && GetHeader(o.req, "Connection") == (if resp.keepAlive then "keep-alive" else "close")
                  && Strtol(GetHeader(o.req, "Content-Length")) == Converted(|resp.body|)
                  && PlainDigits(GetHeader(o.req, "Content-Length"))
                  && o.req.headers == FieldMap(ResponseFields(resp, order)))
  {
    var fields := ResponseFields(resp, order);
    var text := Block(fields) + (CRLF + resp.body);
    MessageIsBlock(resp, order);
    StatusLineIsOneLine(resp);
    FindCrlfAfterLine(StatusLine(resp), text);
    assert AfterStatusLine(ResponseText(resp, order)) == text;
    ReadableIsWellFormed(resp, order);
    if Readable(resp) {
      ReadableIsReadBack(resp, order, h);
      StrtolOfDecimal(|resp.body|);
      DecimalIsPlain(|resp.body|);
    } else if Drain(WithMore(FRESH, HeadLine(h) + CRLF + text)).ok
           && Drain(WithMore(FRESH, HeadLine(h) + CRLF + text)).req.phase == GotAll {
      ReadBackIsWellFormed(resp, order, h);
      assert false;
    }
  }

  lemma {:induction false} ReadableIsReadBack(resp: Response, order: seq<string>, h: Head)
    requires IsListing(order, resp.headers) && LinesClean(resp) && WellFormedHead(h)
    requires |resp.body| <= LONG_MAX
    requires WellFormedFields(ResponseFields(resp, order))
    ensures var text := Block(ResponseFields(resp, order)) + (CRLF + resp.body);
            var o := Drain(WithMore(FRESH, HeadLine(h) + CRLF + text));
            && o.ok && o.req.phase == GotAll && o.req.body == resp.body && o.req.buf == ""
            && GetHeader(o.req, "Connection") == ConnectionToken(resp.keepAlive)
            && GetHeader(o.req, "Content-Length") == Decimal(|resp.body|)
            && o.req.headers == FieldMap(ResponseFields(resp, order))
  {
    var m := HttpRequestGrammar.Message(h, ResponseFields(resp, order), resp.body);
    ResponseFieldMap(resp, order);
    FixedKeys(resp);
    MessageIsRecognised(m, "");
    RenderHead(m, "");
    AssocBlock(m.fields, resp.body);
    assert resp.body + "" == resp.body;
    assert Lower("Connection") == "connection" && Lower("Content-Length") == "content-length";
  }

  lemma {:induction false} ReadBackIsWellFormed(resp: Response, order: seq<string>, h: Head)
    requires IsListing(order, resp.headers) && LinesClean(resp) && WellFormedHead(h)
    requires var text := Block(ResponseFields(resp, order)) + (CRLF + resp.body);
             var o := Drain(WithMore(FRESH, HeadLine(h) + CRLF + text));
             o.ok && o.req.phase == GotAll
    ensures WellFormedFields(ResponseFields(resp, order))
  {
    var fields := ResponseFields(resp, order);
    var text := Block(fields) + (CRLF + resp.body);
    var m, left := CompleteRequestIsMessage(HeadLine(h) + CRLF + text);
    RenderHead(m, left);
    var text' := Block(m.fields) + CRLF + (m.body + left);
    SameHead(h, m.head, text, text');
    AssocBlock(fields, resp.body);
    ResponseFieldsShaped(resp, order);
    SameFields(fields, m.fields, resp.body, m.body + left);
  }

  /** The plain case: at most 62 headers, none of them called Content-Length, is always readable. */
  lemma {:induction false} PlainResponsesAreReadable(resp: Response)
    requires |resp.headers| <= 62
    requires forall k :: k in resp.headers ==> Key(AsField(k, resp.headers[k])) != "content-length"
    ensures Readable(resp)
  {
    var names := set k | k in resp.headers :: Key(AsField(k, resp.headers[k]));
    ImageSize(resp.headers, resp.headers.Keys);
    assert names == set k | k in resp.headers.Keys :: Key(AsField(k, resp.headers[k]));
    UnionSize(names, {"content-length", "connection"});
  }

  lemma {:induction false} ImageSize(headers: map<string, string>, keys: set<string>)
    requires keys <= headers.Keys
    ensures |set k | k in keys :: Key(AsField(k, headers[k]))| <= |keys|
    decreases |keys|
  {
    if keys != {} {
      var k :| k in keys;
      var rest := keys - {k};
      ImageSize(headers, rest);
      ImageStep(headers, keys, k);
    }
  }

  lemma {:induction false} ImageStep(headers: map<string, string>, keys: set<string>, k: string)
    requires keys <= headers.Keys && k in keys
    ensures |set x | x in keys :: Key(AsField(x, headers[x]))|
         <= |set x | x in keys - {k} :: Key(AsField(x, headers[x]))| + 1
  {
    var image := set x | x in keys - {k} :: Key(AsField(x, headers[x]));
    assert (set x | x in keys :: Key(AsField(x, headers[x]))) == image + {Key(AsField(k, headers[k]))};
  }

  lemma {:induction false} UnionSize<T>(a: set<T>, b: set<T>)
    ensures |a + b| <= |a| + |b|
  {
    assert a + b == a + (b - a);
    SubsetSize(b - a, b);
  }
}
