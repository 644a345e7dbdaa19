/**
 The language the parser recognises, given as a grammar: request line, field lines, an empty line
 and a body of the declared length (RFC 9112, sections 2.1, 3, 5 and 6.3, in the lenient form of
 HttpRequest.cpp).  The grammar says which texts are messages and what they mean without looking
 for separators; the theorems say that the parser finds exactly these messages.
 */
module HttpRequestGrammar {
  import opened Octets
  import opened HttpRequestSpec

  /** A field line, cut at its first colon.  `rest` still has its leading blanks. */
  datatype Field = Field(name: string, rest: string)

  datatype Head = Head(verb: string, target: string, version: string)

  datatype Message = Message(head: Head, fields: seq<Field>, body: string)

  // ---------------------------------------------------------------- texts

  function HeadLine(h: Head): string {
    h.verb + " " + h.target + " " + h.version
  }

  function FieldLine(f: Field): string {
    f.name + ":" + f.rest
  }

  function Block(fields: seq<Field>): string {
    if fields == [] then "" else FieldLine(fields[0]) + CRLF + Block(fields[1..])
  }

  function Render(m: Message): string {
    HeadLine(m.head) + CRLF + Block(m.fields) + CRLF + m.body
  }

  // ---------------------------------------------------------------- meaning

  function Key(f: Field): string { Lower(f.name) }

  function FieldValue(f: Field): string { TrimValue(f.rest) }

  /** The header map the fields describe: a later field replaces an earlier one of the same name. */
  function FieldMap(fields: seq<Field>): map<string, string> {
    if fields == [] then map[]
    else var last := fields[|fields| - 1];
         FieldMap(fields[..|fields| - 1])[Key(last) := FieldValue(last)]
  }

  function LengthIn(headers: map<string, string>): int {
    if "content-length" in headers then DeclaredBy(headers["content-length"]) else 0
  }

  // ---------------------------------------------------------------- grammar

  ghost predicate WellFormedHead(h: Head) {
    && NoCrlf(HeadLine(h))
    && ' ' !in h.verb
    && ' ' !in h.version
    && "HTTP/" <= h.version
  }

  ghost predicate WellFormedField(f: Field) {
    && NoCrlf(FieldLine(f))
    && ':' !in f.name
    && (Key(f) == "content-length" ==> DeclaredBy(FieldValue(f)) >= 0)
  }

  ghost predicate WellFormedFields(fields: seq<Field>) {
    && (forall i :: 0 <= i < |fields| ==> WellFormedField(fields[i]))
    && |FieldMap(fields)| <= 64
  }

  ghost predicate WellFormed(m: Message) {
    && WellFormedHead(m.head)
    && WellFormedFields(m.fields)
    && |m.body| == LengthIn(FieldMap(m.fields))
  }

  /** What a parser that has taken the message, and nothing more, must hold. */
  function Meaning(m: Message): Request
    requires LengthIn(FieldMap(m.fields)) >= 0
  {
    Request(GotAll, "", m.head.verb, NormalPath(m.head.target), m.head.version,
            FieldMap(m.fields), m.body, LengthIn(FieldMap(m.fields)))
  }

  /** The parser in the middle of the header: these fields taken, this text still to come. */
  function InHeader(h: Head, fields: seq<Field>, text: string): Request
    requires LengthIn(FieldMap(fields)) >= 0
  {
    Request(ExpectHeaders, text, h.verb, NormalPath(h.target), h.version,
            FieldMap(fields), "", LengthIn(FieldMap(fields)))
  }

  // ---------------------------------------------------------------- facts about fields

  lemma {:induction false} FieldMapAppend(fields: seq<Field>, f: Field)
    ensures FieldMap(fields + [f]) == FieldMap(fields)[Key(f) := FieldValue(f)]
  {
    assert (fields + [f])[..|fields|] == fields;
  }

  lemma {:induction false} FieldMapMonotone(fields: seq<Field>, more: seq<Field>)
    ensures FieldMap(fields).Keys <= FieldMap(fields + more).Keys
    ensures |FieldMap(fields)| <= |FieldMap(fields + more)|
    decreases |more|
  {
    if more == [] {
      assert fields + more == fields;
    } else {
      FieldMapGrows(fields, more[0]);
      FieldMapMonotone(fields + [more[0]], more[1..]);
      AppendCons(fields, more[0], more[1..]);
      assert [more[0]] + more[1..] == more;
    }
  }

  lemma {:induction false} FieldMapGrows(fields: seq<Field>, f: Field)
    ensures FieldMap(fields).Keys <= FieldMap(fields + [f]).Keys
    ensures |FieldMap(fields)| <= |FieldMap(fields + [f])|
  {
    FieldMapAppend(fields, f);
    SubsetSize(FieldMap(fields).Keys, FieldMap(fields + [f]).Keys);
  }

  lemma {:induction false} AppendCons<T>(a: seq<T>, x: T, b: seq<T>)
    ensures a + [x] + b == a + ([x] + b)
  {
  }

  lemma {:induction false} SubsetSize<T>(a: set<T>, b: set<T>)
    requires a <= b
    ensures |a| <= |b|
  {
    assert b == a + (b - a);
  }

  lemma {:induction false} LengthIsValid(fields: seq<Field>)
    requires forall i :: 0 <= i < |fields| ==> WellFormedField(fields[i])
    ensures LengthIn(FieldMap(fields)) >= 0
    decreases |fields|
  {
    if fields != [] {
      LengthIsValid(fields[..|fields| - 1]);
    }
  }

  lemma {:induction false} BlockAppend(a: seq<Field>, b: seq<Field>)
    ensures Block(a + b) == Block(a) + Block(b)
    decreases |a|
  {
    if a == [] {
      assert a + b == b;
    } else {
      BlockAppend(a[1..], b);
      assert (a + b)[1..] == a[1..] + b;
    }
  }

  lemma {:induction false} FieldsPrefix(fields: seq<Field>, n: nat)
    requires WellFormedFields(fields) && n <= |fields|
    ensures WellFormedFields(fields[..n]) && LengthIn(FieldMap(fields[..n])) >= 0
  {
    assert fields[..n] + fields[n..] == fields;
    FieldMapMonotone(fields[..n], fields[n..]);
    LengthIsValid(fields[..n]);
  }

  // ---------------------------------------------------------------- lines

  /** The first and the last space of a request line are the ones that separate its parts. */
  lemma {:induction false} HeadLineCuts(h: Head)
    requires ' ' !in h.verb && ' ' !in h.version
    ensures var line := HeadLine(h);
            var pos1, pos2 := Find(line, ' '), RFind(line, ' ');
            && 0 <= pos1 < pos2 < |line|
            && line[..pos1] == h.verb && line[pos1 + 1..pos2] == h.target && line[pos2 + 1..] == h.version
  {
    var tail := h.target + " " + h.version;
    var init := h.verb + " " + h.target;
    var line := HeadLine(h);
    assert line == h.verb + [' '] + tail;
    assert line == init + [' '] + h.version;
    FindIs(h.verb, ' ', tail);
    RFindIs(init, ' ', h.version);
    assert line[|h.verb| + 1..|init|] == line[..|init|][|h.verb| + 1..] == h.target;
  }

  lemma {:induction false} HeadLineParses(r: Request, h: Head)
    requires WellFormedHead(h)
    ensures ParseRequestLine(r, HeadLine(h)) ==
            Outcome(true, r.(verb := h.verb, path := NormalPath(h.target), version := h.version))
  {
    HeadLineCuts(h);
  }

  lemma {:induction false} ParsedHeadLine(r: Request, line: string) returns (h: Head)
    requires NoCrlf(line) && ParseRequestLine(r, line).ok
    ensures WellFormedHead(h) && HeadLine(h) == line
  {
    var pos1 := Find(line, ' ');
    var pos2 := RFind(line, ' ');
    h := Head(line[..pos1], line[pos1 + 1..pos2], line[pos2 + 1..]);
    CutTwice(line, ' ', pos1, pos2);
  }

  lemma {:induction false} CutTwice(s: string, c: char, i: nat, j: nat)
    requires i < j < |s| && s[i] == c && s[j] == c
    ensures s == s[..i] + [c] + s[i + 1..j] + [c] + s[j + 1..]
  {
  }

  lemma {:induction false} FieldLineParses(r: Request, f: Field)
    requires ':' !in f.name
    ensures ParseHeader(r, FieldLine(f)) ==
            var r1 := r.(headers := r.headers[Key(f) := FieldValue(f)]);
            if Key(f) != "content-length" then Outcome(true, r1)
            else if DeclaredBy(FieldValue(f)) < 0 then Outcome(false, r1)
            else Outcome(true, r1.(contentLength := DeclaredBy(FieldValue(f))))
  {
    var line := FieldLine(f);
    assert line == f.name + [':'] + f.rest;
    FindIs(f.name, ':', f.rest);
  }

  /** The field a line with a colon is. */
  function CutField(line: string): (f: Field)
    requires ':' in line
    ensures ':' !in f.name && FieldLine(f) == line
  {
    var colon := Find(line, ':');
    assert line == line[..colon] + ":" + line[colon + 1..];
    Field(line[..colon], line[colon + 1..])
  }

  // ---------------------------------------------------------------- completeness

  /** The parser takes one well-formed field. */
  lemma {:induction false} TakeField(h: Head, fields: seq<Field>, f: Field, text: string)
    requires WellFormedFields(fields + [f])
    requires LengthIn(FieldMap(fields)) >= 0
    requires LengthIn(FieldMap(fields + [f])) >= 0
    ensures Drain(InHeader(h, fields, FieldLine(f) + CRLF + text)) ==
            Drain(InHeader(h, fields + [f], text))
  {
    assert (fields + [f])[|fields|] == f;
    NextLineIs(InHeader(h, fields, FieldLine(f) + CRLF + text), FieldLine(f), text);
    FieldLineParses(InHeader(h, fields, text), f);
    FieldMapAppend(fields, f);
  }

  lemma {:induction false} BlockFirst(fields: seq<Field>, tail: string)
    requires fields != []
    ensures Block(fields) + tail == FieldLine(fields[0]) + CRLF + (Block(fields[1..]) + tail)
  {
  }

  /** Taking the first of the fields to come leaves all of them in order. */
  lemma {:induction false} FieldsOneOn(done: seq<Field>, todo: seq<Field>)
    requires todo != [] && WellFormedFields(done + todo)
    ensures done + [todo[0]] + todo[1..] == done + todo
    ensures WellFormedFields(done + [todo[0]]) && LengthIn(FieldMap(done + [todo[0]])) >= 0
  {
    AppendCons(done, todo[0], todo[1..]);
    assert [todo[0]] + todo[1..] == todo;
    var n := |done| + 1;
    assert (done + todo)[..n] == done + [todo[0]];
    FieldsPrefix(done + todo, n);
  }

  lemma {:induction false} TakeFields(h: Head, done: seq<Field>, todo: seq<Field>, tail: string)
    requires WellFormedFields(done + todo)
    requires LengthIn(FieldMap(done)) >= 0 && LengthIn(FieldMap(done + todo)) >= 0
    ensures Drain(InHeader(h, done, Block(todo) + tail)) == Drain(InHeader(h, done + todo, tail))
    decreases |todo|
  {
    if todo == [] {
      assert done + todo == done && Block(todo) + tail == tail;
    } else {
      var f, rest := todo[0], todo[1..];
      BlockFirst(todo, tail);
      FieldsOneOn(done, todo);
      TakeField(h, done, f, Block(rest) + tail);
      TakeFields(h, done + [f], rest, tail);
    }
  }

  /** The empty line and the body: taken if and only if enough octets are there. */
  lemma {:induction false} TakeEnd(h: Head, fields: seq<Field>, text: string)
    requires LengthIn(FieldMap(fields)) >= 0
    ensures var n := LengthIn(FieldMap(fields));
            var o := Drain(InHeader(h, fields, CRLF + text));
            && o.ok
            && (o.req.phase == GotAll <==> |text| >= n)
            && (|text| >= n ==> o.req == Meaning(Message(h, fields, text[..n])).(buf := text[n..]))
  {
    FindCrlfAfterLine("", text);
    assert "" + CRLF + text == CRLF + text;
    assert (CRLF + text)[..0] == "" && (CRLF + text)[2..] == text;
    var n := LengthIn(FieldMap(fields));
    if n == 0 {
      assert text[..0] == "" && text[0..] == text;
    }
  }

  /** A parser that still expects lines, but ends complete, has a first line, and accepts it. */
  lemma {:induction false} FirstLineOf(r: Request) returns (line: string, rest: string)
    requires r.phase == ExpectRequestLine || r.phase == ExpectHeaders
    requires Drain(r).ok && Drain(r).req.phase == GotAll
    ensures NoCrlf(line) && r.buf == line + CRLF + rest
    ensures LineStep(r.(buf := rest), line).ok
    ensures Drain(r) == Drain(LineStep(r.(buf := rest), line).req)
  {
    LineBeforeFirstCrlf(r.buf);
    line, rest := r.buf[..FindCrlf(r.buf)], r.buf[FindCrlf(r.buf) + 2..];
  }

  lemma {:induction false} NextLineIs(r: Request, line: string, text: string)
    requires r.phase == ExpectRequestLine || r.phase == ExpectHeaders
    requires NoCrlf(line) && r.buf == line + CRLF + text
    ensures var o := LineStep(r.(buf := text), line);
            Drain(r) == if o.ok then Drain(o.req) else o
  {
    FindCrlfAfterLine(line, text);
  }

  lemma {:induction false} FreshMore(text: string)
    ensures WithMore(FRESH, text) == FRESH.(buf := text)
  {
  }

  lemma {:induction false} FirstLineIs(line: string, text: string)
    requires NoCrlf(line)
    ensures var o := LineStep(FRESH.(buf := text), line);
            Drain(WithMore(FRESH, line + CRLF + text)) == if o.ok then Drain(o.req) else o
  {
    FreshMore(line + CRLF + text);
    NextLineIs(FRESH.(buf := line + CRLF + text), line, text);
  }

  lemma {:induction false} TakeHead(h: Head, text: string)
    requires WellFormedHead(h)
    ensures Drain(WithMore(FRESH, HeadLine(h) + CRLF + text)) == Drain(InHeader(h, [], text))
  {
    FirstLineIs(HeadLine(h), text);
    HeadLineParses(FRESH.(buf := text), h);
  }

  lemma {:induction false} RenderThenRest(m: Message, rest: string)
    ensures Render(m) + rest == HeadLine(m.head) + CRLF + (Block(m.fields) + (CRLF + (m.body + rest)))
  {
    var start, block := HeadLine(m.head) + CRLF, Block(m.fields);
    assert start + block + CRLF + m.body + rest == start + (block + (CRLF + (m.body + rest)));
  }

  /** The empty line and exactly the declared body. */
  lemma {:induction false} TakeWholeEnd(m: Message, rest: string)
    requires |m.body| == LengthIn(FieldMap(m.fields))
    ensures Drain(InHeader(m.head, m.fields, CRLF + (m.body + rest))) == Outcome(true, Meaning(m).(buf := rest))
  {
    var text := m.body + rest;
    TakeEnd(m.head, m.fields, text);
    assert text[..|m.body|] == m.body && text[|m.body|..] == rest;
  }

  /** A message of the grammar is recognised, with its meaning, and what follows is left over. */
  lemma {:induction false} MessageIsRecognised(m: Message, rest: string)
    requires WellFormed(m)
    ensures Drain(WithMore(FRESH, Render(m) + rest)) == Outcome(true, Meaning(m).(buf := rest))
  {
    var end := CRLF + (m.body + rest);
    RenderThenRest(m, rest);
    TakeHead(m.head, Block(m.fields) + end);
    assert [] + m.fields == m.fields;
    TakeFields(m.head, [], m.fields, end);
    TakeWholeEnd(m, rest);
  }

  // ---------------------------------------------------------------- soundness

  lemma {:induction false} AcceptedLine(r: Request, line: string) returns (f: Field)
    requires r.phase == ExpectHeaders && NoCrlf(line) && line != ""
    requires LineStep(r, line).ok
    ensures FieldLine(f) == line && WellFormedField(f)
    ensures |r.headers[Key(f) := FieldValue(f)]| <= MAX_HEADER_COUNT
  {
    f := CutField(line);
    FieldLineParses(r, f);
  }

  /** A line that does not make the parser fail is a well-formed field. */
  lemma {:induction false} AcceptedField(h: Head, fields: seq<Field>, line: string, rest: string) returns (f: Field)
    requires WellFormedFields(fields) && LengthIn(FieldMap(fields)) >= 0
    requires NoCrlf(line) && line != ""
    requires LineStep(InHeader(h, fields, rest), line).ok
    ensures FieldLine(f) == line
    ensures WellFormedFields(fields + [f]) && LengthIn(FieldMap(fields + [f])) >= 0
  {
    f := AcceptedLine(InHeader(h, fields, rest), line);
    FieldMapAppend(fields, f);
    assert forall i :: 0 <= i < |fields + [f]| ==> WellFormedField((fields + [f])[i]);
    LengthIsValid(fields + [f]);
  }

  lemma {:induction false} EndOfBlock(fields: seq<Field>, text: string, rest: string, n: nat)
    requires text == "" + CRLF + rest && n <= |rest|
    ensures fields + [] == fields
    ensures text == CRLF + rest
    ensures text == Block([]) + (CRLF + (rest[..n] + rest[n..]))
  {
    assert rest[..n] + rest[n..] == rest;
  }

  lemma {:induction false} BlockCons(f: Field, fields: seq<Field>, tail: string)
    ensures Block([f] + fields) + tail == FieldLine(f) + CRLF + (Block(fields) + tail)
  {
    assert ([f] + fields)[1..] == fields;
  }

  /**
   From the middle of a header to a complete request: the fields still to come are well formed,
   and the text is exactly those fields, an empty line, the body and the leftover.
   */
  lemma {:induction false} CompletedFields(h: Head, fields: seq<Field>, text: string)
    returns (more: seq<Field>, body: string, left: string)
    requires WellFormedFields(fields) && LengthIn(FieldMap(fields)) >= 0
    requires Drain(InHeader(h, fields, text)).ok
    requires Drain(InHeader(h, fields, text)).req.phase == GotAll
    ensures WellFormedFields(fields + more)
    ensures |body| == LengthIn(FieldMap(fields + more))
    ensures text == Block(more) + (CRLF + (body + left))
    ensures Drain(InHeader(h, fields, text)).req == Meaning(Message(h, fields + more, body)).(buf := left)
    decreases |text|
  {
    var line, rest := FirstLineOf(InHeader(h, fields, text));
    assert InHeader(h, fields, text).(buf := rest) == InHeader(h, fields, rest);
    if line == "" {
      TakeEnd(h, fields, rest);
      var n := LengthIn(FieldMap(fields));
      more, body, left := [], rest[..n], rest[n..];
      EndOfBlock(fields, text, rest, n);
    } else {
      var f := AcceptedField(h, fields, line, rest);
      TakeField(h, fields, f, rest);
      var more';
      more', body, left := CompletedFields(h, fields + [f], rest);
      more := [f] + more';
      AppendCons(fields, f, more');
      BlockCons(f, more', CRLF + (body + left));
    }
  }

  /** A complete request can only come from a message of the grammar at the start of the text. */
  lemma {:induction false} CompleteRequestIsMessage(text: string) returns (m: Message, left: string)
    requires Drain(WithMore(FRESH, text)).ok
    requires Drain(WithMore(FRESH, text)).req.phase == GotAll
    ensures WellFormed(m)
    ensures text == Render(m) + left
    ensures Drain(WithMore(FRESH, text)).req == Meaning(m).(buf := left)
  {
    var h, rest := AcceptedHead(text);
    var fields, body;
    fields, body, left := CompletedFields(h, [], rest);
    assert [] + fields == fields;
    m := Message(h, fields, body);
    RenderHead(m, left);
    AssocBlock(fields, body + left);
  }

  lemma {:induction false} AcceptedHead(text: string) returns (h: Head, rest: string)
    requires Drain(WithMore(FRESH, text)).ok
    requires Drain(WithMore(FRESH, text)).req.phase == GotAll
    ensures WellFormedHead(h) && text == HeadLine(h) + CRLF + rest
    ensures Drain(WithMore(FRESH, text)) == Drain(InHeader(h, [], rest))
  {
    var line;
    line, rest := FirstLineOf(WithMore(FRESH, text));
    assert WithMore(FRESH, text).buf == text;
    h := ParsedHeadLine(FRESH.(buf := rest), line);
    TakeHead(h, rest);
  }

  lemma {:induction false} AssocBlock(fields: seq<Field>, tail: string)
    ensures Block(fields) + (CRLF + tail) == Block(fields) + CRLF + tail
  {
  }

  // ---------------------------------------------------------------- exactness

  ghost predicate StartsWithMessage(text: string, m: Message) {
    WellFormed(m) && Render(m) <= text
  }

  /** At most one message starts a text: the grammar is unambiguous and its messages prefix-free. */
  lemma {:induction false} MessagesArePrefixFree(text: string, m: Message, m': Message)
    requires StartsWithMessage(text, m) && StartsWithMessage(text, m')
    ensures m == m'
  {
    var rest, rest' := text[|Render(m)|..], text[|Render(m')|..];
    var tail := Block(m.fields) + CRLF + (m.body + rest);
    var tail' := Block(m'.fields) + CRLF + (m'.body + rest');
    RenderHead(m, rest);
    RenderHead(m', rest');
    assert text == Render(m) + rest == Render(m') + rest';
    SameHead(m.head, m'.head, tail, tail');
    SameFields(m.fields, m'.fields, m.body + rest, m'.body + rest');
    assert m.body == (m.body + rest)[..|m.body|] == (m'.body + rest')[..|m'.body|] == m'.body;
  }

  lemma {:induction false} RenderHead(m: Message, rest: string)
    ensures Render(m) + rest == HeadLine(m.head) + CRLF + (Block(m.fields) + CRLF + (m.body + rest))
  {
  }

  lemma {:induction false} SameHead(h: Head, h': Head, tail: string, tail': string)
    requires WellFormedHead(h) && WellFormedHead(h')
    requires HeadLine(h) + CRLF + tail == HeadLine(h') + CRLF + tail'
    ensures h == h' && tail == tail'
  {
    SameLine(HeadLine(h), HeadLine(h'), tail, tail');
    HeadLineCuts(h);
    HeadLineCuts(h');
  }

  lemma {:induction false} SameLine(line: string, line': string, tail: string, tail': string)
    requires NoCrlf(line) && NoCrlf(line')
    requires line + CRLF + tail == line' + CRLF + tail'
    ensures line == line' && tail == tail'
  {
    FindCrlfAfterLine(line, tail);
    FindCrlfAfterLine(line', tail');
  }

  ghost predicate LineShaped(f: Field) {
    NoCrlf(FieldLine(f)) && ':' !in f.name
  }

  /** A header block can be cut into lines in one way only. */
  lemma {:induction false} SameFields(a: seq<Field>, b: seq<Field>, tail: string, tail': string)
    requires forall i :: 0 <= i < |a| ==> LineShaped(a[i])
    requires forall i :: 0 <= i < |b| ==> LineShaped(b[i])
    requires Block(a) + CRLF + tail == Block(b) + CRLF + tail'
    ensures a == b && tail == tail'
    decreases |a|
  {
    FirstLineOfBlock(a, tail);
    FirstLineOfBlock(b, tail');
    if a != [] && b != [] {
      SameField(a[0], b[0]);
      SameFields(a[1..], b[1..], tail, tail');
      assert a == [a[0]] + a[1..] && b == [b[0]] + b[1..];
    }
  }

  lemma {:induction false} Assoc4(a: string, b: string, c: string, d: string)
    ensures a + b + c + d == a + (b + c + d)
  {
  }

  lemma {:induction false} FirstLineOfBlock(a: seq<Field>, tail: string)
    requires a != [] ==> LineShaped(a[0])
    ensures var all := Block(a) + CRLF + tail;
            if a == [] then FindCrlf(all) == 0 && all[2..] == tail
            else var n := FindCrlf(all);
              n == |FieldLine(a[0])| > 0 && all[..n] == FieldLine(a[0]) && all[n + 2..] == Block(a[1..]) + CRLF + tail
  {
    if a == [] {
      FindCrlfAfterLine("", tail);
      assert Block(a) + CRLF + tail == "" + CRLF + tail;
    } else {
      var block, rest := Block(a[1..]), Block(a[1..]) + CRLF + tail;
      Assoc4(FieldLine(a[0]) + CRLF, block, CRLF, tail);
      FindCrlfAfterLine(FieldLine(a[0]), rest);
    }
  }

  lemma {:induction false} SameField(f: Field, f': Field)
    requires ':' !in f.name && ':' !in f'.name && FieldLine(f) == FieldLine(f')
    ensures f == f'
  {
    assert FieldLine(f) == f.name + [':'] + f.rest;
    assert FieldLine(f') == f'.name + [':'] + f'.rest;
    FindIs(f.name, ':', f.rest);
    FindIs(f'.name, ':', f'.rest);
  }

  /**
   Exactness.  A fresh parser given at most 64 KB ends with a complete request if and only if a
   message of the grammar starts the text; the message is then the only one, and the request and
   the leftover are the ones the grammar gives.
   */
  lemma {:induction false} ParserIsExact(text: string)
    requires |text| <= 65536
    ensures var o := Feed(FRESH, text);
            (o.ok && o.req.phase == GotAll) <==> exists m :: StartsWithMessage(text, m)
    ensures forall m :: StartsWithMessage(text, m) ==>
              Feed(FRESH, text) == Outcome(true, Meaning(m).(buf := text[|Render(m)|..]))
    ensures forall m, m' :: StartsWithMessage(text, m) && StartsWithMessage(text, m') ==> m == m'
  {
    var o := Feed(FRESH, text);
    if o.ok && o.req.phase == GotAll {
      var m, _ := CompleteRequestIsMessage(text);
      assert StartsWithMessage(text, m);
    }
    forall m | StartsWithMessage(text, m)
      ensures Feed(FRESH, text) == Outcome(true, Meaning(m).(buf := text[|Render(m)|..]))
    {
      StartingMessageIsTaken(text, m);
    }
    forall m, m' | StartsWithMessage(text, m) && StartsWithMessage(text, m') ensures m == m' {
      MessagesArePrefixFree(text, m, m');
    }
  }

  lemma {:induction false} StartingMessageIsTaken(text: string, m: Message)
    requires |text| <= 65536 && StartsWithMessage(text, m)
    ensures Feed(FRESH, text) == Outcome(true, Meaning(m).(buf := text[|Render(m)|..]))
  {
    var rest := text[|Render(m)|..];
    assert text == Render(m) + rest;
    MessageIsRecognised(m, rest);
  }

  // ---------------------------------------------------------------- rejection

  /** The first line that no message can have at its place. */
  datatype Offence = BadHead(line: string) | BadField(head: Head, fields: seq<Field>, line: string)

  ghost predicate Offends(e: Offence) {
    && NoCrlf(e.line)
    && match e
       case BadHead(line) => forall h :: WellFormedHead(h) ==> HeadLine(h) != line
       case BadField(head, fields, line) =>
         && WellFormedHead(head) && WellFormedFields(fields) && line != ""
         && forall f :: FieldLine(f) == line ==> !WellFormedFields(fields + [f])
  }

  function OffenceText(e: Offence): string {
    match e
    case BadHead(line) => line + CRLF
    case BadField(head, fields, line) => HeadLine(head) + CRLF + (Block(fields) + (line + CRLF))
  }

  lemma {:induction false} EmptyLineIsTaken(h: Head, fields: seq<Field>, text: string, left: string)
    requires LengthIn(FieldMap(fields)) >= 0 && text == "" + CRLF + left
    ensures Drain(InHeader(h, fields, text)).ok
  {
    assert text == CRLF + left;
    TakeEnd(h, fields, left);
  }

  lemma {:induction false} RefusedField(h: Head, fields: seq<Field>, text: string)
    returns (more: seq<Field>, line: string, left: string)
    requires WellFormedHead(h) && WellFormedFields(fields) && LengthIn(FieldMap(fields)) >= 0
    requires !Drain(InHeader(h, fields, text)).ok
    ensures Offends(BadField(h, fields + more, line))
    ensures text == Block(more) + (line + CRLF + left)
    decreases |text|
  {
    LineBeforeFirstCrlf(text);
    line, left := text[..FindCrlf(text)], text[FindCrlf(text) + 2..];
    assert InHeader(h, fields, text).(buf := left) == InHeader(h, fields, left);
    if line == "" {
      EmptyLineIsTaken(h, fields, text, left);
      assert false;
    } else if LineStep(InHeader(h, fields, left), line).ok {
      var f := AcceptedField(h, fields, line, left);
      TakeField(h, fields, f, left);
      var more';
      more', line, left := RefusedField(h, fields + [f], left);
      more := [f] + more';
      AppendCons(fields, f, more');
      BlockCons(f, more', line + CRLF + left);
    } else {
      more := [];
      assert fields + [] == fields;
      forall f | FieldLine(f) == line ensures !WellFormedFields(fields + [f]) {
        RefusedLineIsNoField(h, fields, f, left);
      }
    }
  }

  lemma {:induction false} RefusedLineIsNoField(h: Head, fields: seq<Field>, f: Field, rest: string)
    requires LengthIn(FieldMap(fields)) >= 0
    requires FieldLine(f) != ""
    requires !LineStep(InHeader(h, fields, rest), FieldLine(f)).ok
    ensures !WellFormedFields(fields + [f])
  {
    if ':' !in f.name {
      FieldLineParses(InHeader(h, fields, rest), f);
      FieldMapAppend(fields, f);
    }
    assert (fields + [f])[|fields|] == f;
  }

  lemma {:induction false} OffenceStarts(h: Head, fields: seq<Field>, line: string, left: string)
    ensures OffenceText(BadField(h, [] + fields, line)) <= HeadLine(h) + CRLF + (Block(fields) + (line + CRLF + left))
  {
    assert [] + fields == fields;
    assert HeadLine(h) + CRLF + (Block(fields) + (line + CRLF + left))
        == OffenceText(BadField(h, fields, line)) + left;
  }

  lemma {:induction false} FailureHasOffence(text: string) returns (e: Offence)
    requires !Drain(WithMore(FRESH, text)).ok
    ensures Offends(e) && OffenceText(e) <= text
  {
    assert WithMore(FRESH, text).buf == text;
    LineBeforeFirstCrlf(text);
    var line, rest := text[..FindCrlf(text)], text[FindCrlf(text) + 2..];
    FirstLineIs(line, rest);
    if LineStep(FRESH.(buf := rest), line).ok {
      var h := ParsedHeadLine(FRESH.(buf := rest), line);
      TakeHead(h, rest);
      var more, bad, left := RefusedField(h, [], rest);
      e := BadField(h, [] + more, bad);
      OffenceStarts(h, more, bad, left);
    } else {
      e := BadHead(line);
      forall h | WellFormedHead(h) ensures HeadLine(h) != line {
        HeadLineParses(FRESH.(buf := rest), h);
      }
    }
  }

  lemma {:induction false} OffenceFails(e: Offence, rest: string)
    requires Offends(e)
    ensures !Drain(WithMore(FRESH, OffenceText(e) + rest)).ok
  {
    match e
    case BadHead(line) =>
      FirstLineIs(line, rest);
      if LineStep(FRESH.(buf := rest), line).ok {
        var h := ParsedHeadLine(FRESH.(buf := rest), line);
        assert false;
      }
    case BadField(h, fields, line) =>
      var tail := line + CRLF + rest;
      assert OffenceText(e) + rest == HeadLine(h) + CRLF + (Block(fields) + tail);
      TakeHead(h, Block(fields) + tail);
      assert [] + fields == fields;
      LengthIsValid(fields);
      TakeFields(h, [], fields, tail);
      FindCrlfAfterLine(line, rest);
      assert InHeader(h, fields, tail).(buf := rest) == InHeader(h, fields, rest);
      if LineStep(InHeader(h, fields, rest), line).ok {
        var f := AcceptedField(h, fields, line, rest);
        assert false;
      }
  }

  /** The parser reports an error if and only if an offending line starts the text at its place. */
  lemma {:induction false} RejectionIsExact(text: string)
    requires |text| <= 65536
    ensures !Feed(FRESH, text).ok <==> exists e :: Offends(e) && OffenceText(e) <= text
  {
    if !Feed(FRESH, text).ok {
      var e := FailureHasOffence(text);
    }
    forall e | Offends(e) && OffenceText(e) <= text ensures !Feed(FRESH, text).ok {
      OffenceRefused(e, text);
    }
  }

  lemma {:induction false} OffenceRefused(e: Offence, text: string)
    requires Offends(e) && OffenceText(e) <= text
    ensures !Drain(WithMore(FRESH, text)).ok
  {
    var rest := text[|OffenceText(e)|..];
    assert text == OffenceText(e) + rest;
    OffenceFails(e, rest);
  }

  // ---------------------------------------------------------------- what the header says

  ghost predicate LastOfName(fields: seq<Field>, name: string, i: nat) {
    && i < |fields| && Key(fields[i]) == name
    && forall j :: i < j < |fields| ==> Key(fields[j]) != name
  }

  /** The last field of that name has that value. */
  ghost predicate LastSays(fields: seq<Field>, name: string, value: string) {
    exists i: nat :: LastOfName(fields, name, i) && FieldValue(fields[i]) == value
  }

  lemma {:induction false} LastOfNameInMore(fields: seq<Field>, f: Field, name: string, i: nat)
    ensures LastOfName(fields + [f], name, i) <==>
            if Key(f) == name then i == |fields| else LastOfName(fields, name, i)
  {
    var more := fields + [f];
    assert more[|fields|] == f;
    assert forall j :: 0 <= j < |fields| ==> more[j] == fields[j];
  }

  lemma {:induction false} LastSaysOfMore(fields: seq<Field>, f: Field, name: string, value: string)
    ensures LastSays(fields + [f], name, value) <==>
            if Key(f) == name then FieldValue(f) == value else LastSays(fields, name, value)
  {
    forall i: nat ensures LastOfName(fields + [f], name, i) <==>
                          if Key(f) == name then i == |fields| else LastOfName(fields, name, i)
    {
      LastOfNameInMore(fields, f, name, i);
    }
    assert (fields + [f])[|fields|] == f;
    forall i: nat | LastOfName(fields, name, i) ensures (fields + [f])[i] == fields[i] {}
  }

  /** The header table holds, for each name, what the last field of that name says. */
  lemma {:induction false} TableHoldsLast(fields: seq<Field>, name: string, value: string)
    ensures name in FieldMap(fields) && FieldMap(fields)[name] == value <==> LastSays(fields, name, value)
    decreases |fields|
  {
    if fields != [] {
      var init, last := fields[..|fields| - 1], fields[|fields| - 1];
      assert fields == init + [last];
      TableHoldsLast(init, name, value);
      LastSaysOfMore(init, last, name, value);
    }
  }

  lemma {:induction false} ConnectionHeaderIs(r: Request, value: string)
    requires value != ""
    ensures GetHeader(r, "connection") == value <==> "connection" in r.headers && r.headers["connection"] == value
  {
    assert Lower("connection") == "connection";
  }

  /**
   Persistence (RFC 9112, section 9.3, as far as the code goes): an HTTP/1.1 message keeps the
   connection unless its last Connection field is exactly `close`; any other version only if that
   field is exactly `keep-alive`.
   */
  lemma {:induction false} PersistenceOfMessage(m: Message)
    requires WellFormed(m)
    ensures KeepAlive(Meaning(m)) <==>
            if m.head.version == "HTTP/1.1" then !LastSays(m.fields, "connection", "close")
            else LastSays(m.fields, "connection", "keep-alive")
  {
    ConnectionHeaderIs(Meaning(m), "close");
    ConnectionHeaderIs(Meaning(m), "keep-alive");
    TableHoldsLast(m.fields, "connection", "close");
    TableHoldsLast(m.fields, "connection", "keep-alive");
  }
}
