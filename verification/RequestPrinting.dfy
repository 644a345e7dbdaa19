/**
 Round trips: printing a request and parsing it gives the request back, and the requests for which
 this holds are exactly those that parsing can produce.
 */
module RequestPrinting {
  import opened Octets
  import opened HttpRequestSpec
  import opened HttpRequestGrammar

  /** An order in which a header table can be walked: every key once. */
  ghost predicate IsListing(order: seq<string>, headers: map<string, string>) {
    && (forall k :: k in order <==> k in headers)
    && (forall i, j :: 0 <= i < j < |order| ==> order[i] != order[j])
  }

  function FieldsOf(headers: map<string, string>, order: seq<string>, ows: string): (fields: seq<Field>)
    requires forall k :: k in order ==> k in headers
    ensures |fields| == |order|
  {
    seq(|order|, i requires 0 <= i < |order| => Field(order[i], ows + headers[order[i]]))
  }

  /** A request as a message, with `ows` between each colon and its value (RFC 9112, section 5). */
  function AsMessage(q: Request, order: seq<string>, ows: string): Message
    requires forall k :: k in order ==> k in q.headers
  {
    Message(Head(q.verb, q.path, q.version), FieldsOf(q.headers, order, ows), q.body)
  }

  function Print(q: Request, order: seq<string>, ows: string): string
    requires forall k :: k in order ==> k in q.headers
  {
    Render(AsMessage(q, order, ows))
  }

  ghost predicate StartsSolid(v: string) {
    v != "" && !IsBlank(v[0])
  }

  ghost predicate PrintableHeader(k: string, v: string) {
    Lower(k) == k && ':' !in k && TrimValue(v) == v && NoCrlf(k + ":" + v)
  }

  ghost predicate Printable(q: Request) {
    && q.phase == GotAll && q.buf == ""
    && WellFormedHead(Head(q.verb, q.path, q.version))
    && q.path != "" && q.path[0] == '/'
    && (forall k :: k in q.headers ==> PrintableHeader(k, q.headers[k]))
    && |q.headers| <= MAX_HEADER_COUNT
    && q.contentLength == |q.body| == LengthIn(q.headers)
  }

  // ---------------------------------------------------------------- values and blanks

  /** Which values survive blanks put in front of them: those that begin with something solid. */
  lemma {:induction false} ValueSurvivesBlanks(ows: string, v: string)
    requires AllBlank(ows) && TrimValue(v) == v
    ensures TrimValue(ows + v) == v <==> ows == "" || StartsSolid(v)
  {
    if StartsSolid(v) {
      TrimValueIs(ows, v);
    } else if ows == "" {
      assert ows + v == v;
    } else {
      assert AllBlank(v);
      assert AllBlank(ows + v);
    }
  }

  /** A value of nothing but blanks declares no length. */
  lemma {:induction false} BlankDeclaresNothing(v: string)
    requires AllBlank(v)
    ensures DeclaredBy(v) < 0
  {
    SkipBlanks(v);
  }

  lemma {:induction false} SkipBlanks(v: string)
    requires AllBlank(v)
    ensures SkipSpaces(v) == ""
  {
    if v != "" {
      SkipBlanks(v[1..]);
    }
  }

  // ---------------------------------------------------------------- printed fields

  lemma {:induction false} FieldsOfAppend(headers: map<string, string>, init: seq<string>, last: string, ows: string)
    requires forall k :: k in init + [last] ==> k in headers
    requires last in headers && Lower(last) == last
    requires forall k :: k in init ==> k in headers
    ensures FieldMap(FieldsOf(headers, init + [last], ows))
         == FieldMap(FieldsOf(headers, init, ows))[last := TrimValue(ows + headers[last])]
  {
    var f := Field(last, ows + headers[last]);
    assert FieldsOf(headers, init + [last], ows) == FieldsOf(headers, init, ows) + [f];
    FieldMapAppend(FieldsOf(headers, init, ows), f);
  }

  lemma {:induction false} FieldMapOf(headers: map<string, string>, order: seq<string>, ows: string)
    requires forall k :: k in order ==> k in headers && Lower(k) == k
    ensures var fm := FieldMap(FieldsOf(headers, order, ows));
            && (forall k :: k in fm <==> k in order)
            && (forall k :: k in fm ==> fm[k] == TrimValue(ows + headers[k]))
    decreases |order|
  {
    if order != [] {
      var init, last := order[..|order| - 1], order[|order| - 1];
      assert order == init + [last];
      assert last in order;
      FieldMapOf(headers, init, ows);
      FieldsOfAppend(headers, init, last, ows);
    }
  }

  lemma {:induction false} PrintedFieldMap(q: Request, order: seq<string>, ows: string)
    requires Printable(q) && IsListing(order, q.headers)
    ensures var fm := FieldMap(FieldsOf(q.headers, order, ows));
            && fm.Keys == q.headers.Keys
            && |fm| == |q.headers|
            && forall k :: k in fm ==> fm[k] == TrimValue(ows + q.headers[k])
  {
    forall k | k in order ensures k in q.headers && Lower(k) == k {
      assert PrintableHeader(k, q.headers[k]);
    }
    FieldMapOf(q.headers, order, ows);
    SameKeysSameSize(FieldMap(FieldsOf(q.headers, order, ows)), q.headers);
  }

  lemma {:induction false} SameKeysSameSize(a: map<string, string>, b: map<string, string>)
    requires forall k :: k in a <==> k in b
    ensures a.Keys == b.Keys && |a| == |b|
  {
    assert a.Keys == b.Keys;
    assert |a| == |a.Keys| && |b| == |b.Keys|;
  }

  lemma {:induction false} BlanksKeepLine(k: string, ows: string, v: string)
    requires AllBlank(ows) && NoCrlf(k + ":" + v)
    ensures NoCrlf(FieldLine(Field(k, ows + v)))
  {
    var rest := ows + v;
    NoCrlfConcat(k + ":", v);
    NoCrlfConcat(ows, v);
    forall i: nat ensures !CrlfAt(ows, i) {
      if i < |ows| { assert IsBlank(ows[i]); }
    }
    if ows != "" { assert IsBlank(ows[|ows| - 1]); }
    NoCrlfConcat(k + ":", rest);
    assert (k + ":")[|k|] == ':';
  }

  lemma {:induction false} DeclaredLengthPrinted(v: string, ows: string)
    requires AllBlank(ows) && TrimValue(v) == v && DeclaredBy(v) >= 0
    ensures TrimValue(ows + v) == v
  {
    if !StartsSolid(v) {
      BlankDeclaresNothing(v);
    }
    ValueSurvivesBlanks(ows, v);
  }

  lemma {:induction false} PrintedIsWellFormed(q: Request, order: seq<string>, ows: string)
    requires Printable(q) && IsListing(order, q.headers) && AllBlank(ows)
    ensures WellFormed(AsMessage(q, order, ows))
    ensures LengthIn(FieldMap(FieldsOf(q.headers, order, ows))) == LengthIn(q.headers)
  {
    var fields := FieldsOf(q.headers, order, ows);
    PrintedFieldMap(q, order, ows);
    if "content-length" in q.headers {
      DeclaredLengthPrinted(q.headers["content-length"], ows);
    }
    forall i | 0 <= i < |fields| ensures WellFormedField(fields[i]) {
      var k := order[i];
      assert k in order;
      assert PrintableHeader(k, q.headers[k]);
      BlanksKeepLine(k, ows, q.headers[k]);
    }
  }

  // ---------------------------------------------------------------- round trip

  /**
   Print, then parse.  For any walking order of the header table and any blanks after the colons the
   text is accepted without leftover; the result is the printed request if and only if there were no
   such blanks, or every value begins with something that is no blank.
   */
  lemma {:induction false} PrintThenParse(q: Request, order: seq<string>, ows: string)
    requires Printable(q) && IsListing(order, q.headers) && AllBlank(ows)
    ensures var o := Drain(WithMore(FRESH, Print(q, order, ows)));
            && o.ok && o.req.phase == GotAll && o.req.buf == "" && o.req.body == q.body
            && (o.req == q <==> ows == "" || forall k :: k in q.headers ==> StartsSolid(q.headers[k]))
  {
    var m := AsMessage(q, order, ows);
    PrintedIsWellFormed(q, order, ows);
    MessageIsRecognised(m, "");
    assert Render(m) + "" == Print(q, order, ows);
    assert Meaning(m).(buf := "") == q.(headers := FieldMap(m.fields));
    PrintedHeadersSurvive(q, order, ows);
  }

  lemma {:induction false} PrintedHeadersSurvive(q: Request, order: seq<string>, ows: string)
    requires Printable(q) && IsListing(order, q.headers) && AllBlank(ows)
    ensures FieldMap(FieldsOf(q.headers, order, ows)) == q.headers
            <==> ows == "" || forall k :: k in q.headers ==> StartsSolid(q.headers[k])
  {
    var fm := FieldMap(FieldsOf(q.headers, order, ows));
    PrintedFieldMap(q, order, ows);
    forall k | k in q.headers ensures fm[k] == q.headers[k] <==> ows == "" || StartsSolid(q.headers[k]) {
      assert PrintableHeader(k, q.headers[k]);
      ValueSurvivesBlanks(ows, q.headers[k]);
    }
    SameKeysSameTable(fm, q.headers);
  }

  lemma {:induction false} SameKeysSameTable(a: map<string, string>, b: map<string, string>)
    requires a.Keys == b.Keys
    ensures a == b <==> forall k :: k in b ==> a[k] == b[k]
  {
  }

  /** The same over any chunking of a text within the size limit. */
  lemma {:induction false} PrintThenParseChunked(q: Request, order: seq<string>, ows: string, chunks: seq<string>)
    requires Printable(q) && IsListing(order, q.headers) && AllBlank(ows)
    requires ows == "" || forall k :: k in q.headers ==> StartsSolid(q.headers[k])
    requires chunks != [] && Concat(chunks) == Print(q, order, ows)
    requires |Print(q, order, ows)| <= MAX_REQUEST_SIZE
    ensures FeedAll(FRESH, chunks) == Outcome(true, q)
  {
    PrintThenParse(q, order, ows);
    FragmentationInvariance(FRESH, chunks);
  }

  // ---------------------------------------------------------------- image

  lemma {:induction false} ParsedHeadersPrintable(fields: seq<Field>, k: string)
    requires forall i :: 0 <= i < |fields| ==> WellFormedField(fields[i])
    requires k in FieldMap(fields)
    ensures PrintableHeader(k, FieldMap(fields)[k])
    decreases |fields|
  {
    var last := fields[|fields| - 1];
    if k == Key(last) {
      FieldPrintable(last);
    } else {
      ParsedHeadersPrintable(fields[..|fields| - 1], k);
    }
  }

  lemma {:induction false} FieldPrintable(f: Field)
    requires WellFormedField(f)
    ensures PrintableHeader(Key(f), FieldValue(f))
  {
    LowerTwice(f.name);
    LowerKeepsColonAndCrlf(f.name);
    TrimValueTwice(f.rest);
    var start := FindNonBlank(f.rest);
    var blanks := if start == NPOS then "" else f.rest[..start];
    assert f.rest == blanks + FieldValue(f);
    NoCrlfConcat(f.name + ":", f.rest);
    NoCrlfConcat(f.name, ":");
    NoCrlfConcat(blanks, FieldValue(f));
    NoCrlfConcat(Key(f), ":");
    NoCrlfConcat(Key(f) + ":", FieldValue(f));
    assert (Key(f) + ":")[|f.name|] == ':';
  }

  lemma {:induction false} NormalHead(h: Head)
    requires WellFormedHead(h)
    ensures WellFormedHead(h.(target := NormalPath(h.target)))
  {
    var tail := " " + h.version;
    var before := h.verb + " ";
    assert HeadLine(h) == before + (h.target + tail);
    NoCrlfConcat(before, h.target + tail);
    NoCrlfConcat(before, "/" + h.target + tail);
    assert "/" + h.target + tail == "/" + (h.target + tail);
    NoCrlfConcat("/", h.target + tail);
    assert HeadLine(h.(target := "/" + h.target)) == before + ("/" + h.target + tail);
    assert h.target == "" ==> "/" + h.target == "/";
  }

  lemma {:induction false} ListingExists(headers: map<string, string>) returns (order: seq<string>)
    ensures IsListing(order, headers)
    decreases |headers|
  {
    if headers == map[] {
      order := [];
    } else {
      var k :| k in headers;
      var fewer := headers - {k};
      assert fewer.Keys == headers.Keys - {k};
      assert |fewer.Keys| == |fewer| && |headers.Keys| == |headers|;
      var rest := ListingExists(fewer);
      order := [k] + rest;
      assert forall x :: x in rest <==> x in headers && x != k;
    }
  }

  /** Whatever text a complete request came from, the request itself can be printed. */
  lemma {:induction false} ParsedIsPrintable(text: string)
    requires Drain(WithMore(FRESH, text)).ok
    requires Drain(WithMore(FRESH, text)).req.phase == GotAll
    ensures Printable(Drain(WithMore(FRESH, text)).req.(buf := ""))
  {
    var m, left := CompleteRequestIsMessage(text);
    NormalHead(m.head);
    forall k | k in FieldMap(m.fields) ensures PrintableHeader(k, FieldMap(m.fields)[k]) {
      ParsedHeadersPrintable(m.fields, k);
    }
  }

  /** The printable requests are exactly those that parsing some text to its end produces. */
  lemma {:induction false} PrintableIsImage(q: Request)
    ensures Printable(q) <==> q.phase == GotAll && q.buf == "" && exists text :: Drain(WithMore(FRESH, text)) == Outcome(true, q)
  {
    if Printable(q) {
      var order := ListingExists(q.headers);
      PrintThenParse(q, order, "");
    }
    forall text | q.phase == GotAll && q.buf == "" && Drain(WithMore(FRESH, text)) == Outcome(true, q)
      ensures Printable(q)
    {
      ParsedIsPrintable(text);
    }
  }

  /**
   Normal form.  Parse any text to a complete request, print that request in any walking order,
   and parse the print under any chunking: it is the same request.
   */
  lemma {:induction false} ReprintIsStable(text: string, order: seq<string>, chunks: seq<string>)
    requires Drain(WithMore(FRESH, text)).ok
    requires Drain(WithMore(FRESH, text)).req.phase == GotAll
    requires IsListing(order, Drain(WithMore(FRESH, text)).req.headers)
    requires chunks != [] && Concat(chunks) == Print(Drain(WithMore(FRESH, text)).req.(buf := ""), order, "")
    requires |Concat(chunks)| <= MAX_REQUEST_SIZE
    ensures FeedAll(FRESH, chunks) == Outcome(true, Drain(WithMore(FRESH, text)).req.(buf := ""))
  {
    ParsedIsPrintable(text);
    PrintThenParseChunked(Drain(WithMore(FRESH, text)).req.(buf := ""), order, "", chunks);
  }
}
