/**
 What a parsed request says, read off the octets alone (RFC 9112, sections 3, 5 and 6.2, in the lenient
 form of HttpRequest.cpp): the statements here use none of the parser's own functions but the call
 itself, so they pin down what the functions mean.
 */
module RequestMeaning {
  import opened Octets
  import opened HttpRequestSpec
  import opened HttpRequestGrammar

  // ---------------------------------------------------------------- the request line

  lemma {:induction false} HeaderKeepsHead(r: Request, line: string)
    ensures var d := ParseHeader(r, line).req;
            d.phase == r.phase && d.verb == r.verb && d.path == r.path && d.version == r.version
  {
    var colon := Find(line, ':');
    if colon != NPOS {
      FieldKeepsHead(r, Lower(line[..colon]), TrimValue(line[colon + 1..]));
    }
  }

  lemma {:induction false} FieldKeepsHead(r: Request, key: string, value: string)
    ensures var d := WithField(r, key, value).req;
            d.phase == r.phase && d.verb == r.verb && d.path == r.path && d.version == r.version
  {
  }

  lemma {:induction false} LineStepKeepsHead(r: Request, line: string)
    requires r.phase == ExpectHeaders
    ensures var d := LineStep(r, line).req;
            d.phase != ExpectRequestLine && d.verb == r.verb && d.path == r.path && d.version == r.version
  {
    if line != "" {
      HeaderKeepsHead(r, line);
    }
  }

  lemma {:induction false} DrainKeepsHead(r: Request)
    requires r.phase != ExpectRequestLine
    ensures var d := Drain(r).req;
            d.phase != ExpectRequestLine && d.verb == r.verb && d.path == r.path && d.version == r.version
    decreases |r.buf|
  {
    if r.phase == ExpectHeaders && FindCrlf(r.buf) != NPOS {
      var pos := FindCrlf(r.buf);
      var rest, line := r.(buf := r.buf[pos + 2..]), r.buf[..pos];
      LineStepKeepsHead(rest, line);
      if LineStep(rest, line).ok {
        DrainKeepsHead(LineStep(rest, line).req);
      }
    }
  }

  /** The first line of a text that the parser got past. */
  lemma {:induction false} FirstLineTaken(text: string) returns (line: string, rest: string)
    requires Drain(WithMore(FRESH, text)).req.phase != ExpectRequestLine
    ensures text == line + CRLF + rest && NoCrlf(line)
    ensures ParseRequestLine(FRESH.(buf := rest), line).ok
    ensures var r, d := ParseRequestLine(FRESH.(buf := rest), line).req, Drain(WithMore(FRESH, text)).req;
            d.verb == r.verb && d.path == r.path && d.version == r.version
  {
    FreshMore(text);
    LineBeforeFirstCrlf(text);
    line, rest := text[..FindCrlf(text)], text[FindCrlf(text) + 2..];
    FirstLineIs(line, rest);
    DrainKeepsHead(LineStep(FRESH.(buf := rest), line).req);
  }

  /**
   A parser that has got past the request line has taken it apart at its first and its last space:
   what stands before is the method, what stands behind is the version, and the path is what stands
   between, all of it, with a slash in front if it begins with none.
   */
  lemma {:induction false} RequestLineMeans(text: string)
    returns (verb: string, target: string, version: string, rest: string)
    requires Feed(FRESH, text).req.phase != ExpectRequestLine
    ensures text == verb + " " + target + " " + version + "\r\n" + rest
    ensures NoCrlf(verb + " " + target + " " + version)
    ensures ' ' !in verb && ' ' !in version && "HTTP/" <= version
    ensures var r := Feed(FRESH, text).req;
            && r.verb == verb && r.version == version
            && r.path == if target != "" && target[0] == '/' then target else "/" + target
  {
    var line;
    line, rest := FirstLineTaken(text);
    var h := ParsedHeadLine(FRESH.(buf := rest), line);
    verb, target, version := h.verb, h.target, h.version;
    HeadLineParses(FRESH.(buf := rest), h);
    PathMeans(target);
  }

  lemma {:induction false} PathMeans(target: string)
    ensures NormalPath(target) == if target != "" && target[0] == '/' then target else "/" + target
  {
    assert target == "" ==> "/" + target == "/";
  }

  // ---------------------------------------------------------------- header fields

  /** The last field of that name, whatever the case of its letters. */
  ghost predicate LastNamed(fields: seq<Field>, name: string, i: nat) {
    && i < |fields| && SameButCase(fields[i].name, name)
    && forall j :: i < j < |fields| ==> !SameButCase(fields[j].name, name)
  }

  lemma {:induction false} LastNamedIsLast(fields: seq<Field>, name: string, i: nat)
    ensures LastNamed(fields, name, i) <==> LastOfName(fields, Lower(name), i)
  {
    forall j | 0 <= j < |fields| ensures SameButCase(fields[j].name, name) <==> Key(fields[j]) == Lower(name) {
      LowerForgetsCaseOnly(fields[j].name, name);
    }
  }

  lemma {:induction false} SomeIsLast(fields: seq<Field>, name: string) returns (i: nat)
    requires exists j :: 0 <= j < |fields| && Key(fields[j]) == name
    ensures LastOfName(fields, name, i)
    decreases |fields|
  {
    var last := |fields| - 1;
    if Key(fields[last]) == name {
      i := last;
    } else {
      i := SomeIsLast(fields[..last], name);
    }
  }

  lemma {:induction false} TableSaysLast(r: Request, fields: seq<Field>, name: string, i: nat)
    requires r.headers == FieldMap(fields) && LastNamed(fields, name, i)
    ensures Trimmed(fields[i].rest, GetHeader(r, name))
  {
    LastNamedIsLast(fields, name, i);
    TableHoldsLast(fields, Lower(name), FieldValue(fields[i]));
    TrimValueExact(fields[i].rest);
  }

  /**
   After a message, looking up a name gives what the last field of that name says, letters compared
   without case and the value without the spaces and tabs before it; and the empty string when the
   message has no field of that name.
   */
  lemma {:induction false} LookupMeans(m: Message, left: string, name: string)
    requires WellFormed(m) && |Render(m) + left| <= 65536
    ensures var r := Feed(FRESH, Render(m) + left).req;
            && (forall i: nat :: LastNamed(m.fields, name, i) ==> Trimmed(m.fields[i].rest, GetHeader(r, name)))
            && ((forall i :: 0 <= i < |m.fields| ==> !SameButCase(m.fields[i].name, name)) ==> GetHeader(r, name) == "")
  {
    MessageIsRecognised(m, left);
    var r := Feed(FRESH, Render(m) + left).req;
    assert r.headers == FieldMap(m.fields);
    forall i: nat | LastNamed(m.fields, name, i) ensures Trimmed(m.fields[i].rest, GetHeader(r, name)) {
      TableSaysLast(r, m.fields, name, i);
    }
    if forall i :: 0 <= i < |m.fields| ==> !SameButCase(m.fields[i].name, name) {
      NotNamedNotFound(m.fields, name);
    }
  }

  lemma {:induction false} NotNamedNotFound(fields: seq<Field>, name: string)
    requires forall i :: 0 <= i < |fields| ==> !SameButCase(fields[i].name, name)
    ensures Lower(name) !in FieldMap(fields)
  {
    if Lower(name) in FieldMap(fields) {
      TableHoldsLast(fields, Lower(name), FieldMap(fields)[Lower(name)]);
      var i: nat :| LastOfName(fields, Lower(name), i);
      LowerForgetsCaseOnly(fields[i].name, name);
      assert false;
    }
  }

  // ---------------------------------------------------------------- the declared length

  /** A number that is not below zero begins the text, after white space. */
  ghost predicate DeclaresLength(value: string, n: int) {
    exists spaces, sign, digits, tail ::
      && Numeral(value, spaces, sign, digits, tail)
      && (if sign == "-" then n == Value(digits) == 0 else n == Clamped(Value(digits)))
  }

  lemma {:induction false} DeclaredMeans(value: string, n: int)
    requires n >= 0
    ensures DeclaredBy(value) == n <==> DeclaresLength(value, n)
  {
    if DeclaredBy(value) == n {
      var spaces, sign, digits, tail := StrtolReadsNumeral(value);
      StrtolOfNumeral(value, spaces, sign, digits, tail);
      NumeralNotNegative(value, spaces, sign, digits, tail);
    }
    forall spaces, sign, digits, tail | Numeral(value, spaces, sign, digits, tail)
      ensures DeclaredBy(value) == Clamped(if sign == "-" then -Value(digits) else Value(digits))
    {
      StrtolOfNumeral(value, spaces, sign, digits, tail);
    }
  }

  lemma {:induction false} NumeralNotNegative(s: string, spaces: string, sign: string, digits: string, tail: string)
    requires Numeral(s, spaces, sign, digits, tail)
    ensures Value(digits) >= 0
  {
    forall i | 0 <= i < |digits| ensures IsDigit(digits[i]) { DigitIs(digits[i]); }
    ValueNotNegative(digits);
  }

  /**
   A Content-Length line is taken if and only if its value declares a length, a minus sign being
   allowed before zero only; and that length, at most the largest `long`, is then expected of the body.
   */
  lemma {:induction false} ContentLengthMeans(r: Request, f: Field)
    requires r.phase == ExpectHeaders && ':' !in f.name && SameButCase(f.name, "content-length")
    requires |r.headers| < 64
    ensures var o := LineStep(r, FieldLine(f));
            && (o.ok <==> exists n :: n >= 0 && DeclaresLength(FieldValue(f), n))
            && (o.ok ==> DeclaresLength(FieldValue(f), o.req.contentLength))
  {
    LengthFieldTaken(r, f);
    var n := DeclaredBy(FieldValue(f));
    if n >= 0 {
      DeclaredMeans(FieldValue(f), n);
    }
    forall n' | n' >= 0 && DeclaresLength(FieldValue(f), n') ensures n == n' {
      DeclaredMeans(FieldValue(f), n');
    }
  }

  lemma {:induction false} LengthFieldTaken(r: Request, f: Field)
    requires r.phase == ExpectHeaders && ':' !in f.name && SameButCase(f.name, "content-length")
    requires |r.headers| < 64
    ensures var o := LineStep(r, FieldLine(f));
            && (o.ok <==> DeclaredBy(FieldValue(f)) >= 0)
            && (o.ok ==> o.req.contentLength == DeclaredBy(FieldValue(f)))
  {
    LowerForgetsCaseOnly(f.name, "content-length");
    ContentLengthIsLower();
    FieldLineParses(r, f);
    OneMoreHeader(r.headers, Key(f), FieldValue(f));
    assert FieldLine(f)[|f.name|] == ':';
  }

  lemma {:induction false} ContentLengthIsLower()
    ensures Lower("content-length") == "content-length"
  {
  }

  lemma {:induction false} OneMoreHeader(headers: map<string, string>, k: string, v: string)
    ensures |headers[k := v]| <= |headers| + 1
  {
    assert headers[k := v].Keys == headers.Keys + {k};
    assert |headers[k := v]| == |headers[k := v].Keys| && |headers| == |headers.Keys|;
    if k in headers {
      assert headers.Keys + {k} == headers.Keys;
    }
  }
}
