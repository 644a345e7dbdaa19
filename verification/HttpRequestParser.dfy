/**
 The class `HttpRequest` (HttpRequest.h, HttpRequest.cpp): a parser that updates its fields in
 place, each method proved against the functions of HttpRequestSpec.
 */
module HttpRequestParser {
  import opened Octets
  import opened HttpRequestSpec

  class HttpRequest {
    var state: Phase
    var buf: string
    var verb: string
    var path: string
    var version: string
    var headers: map<string, string>
    var body: string
    var contentLength: nat

    /** The abstract value of the object. */
    function State(): Request
      reads this
    {
      Request(state, buf, verb, path, version, headers, body, contentLength)
    }

    constructor ()
      ensures State() == FRESH
      ensures state == ExpectRequestLine && buf == "" && verb == "" && path == "" && version == ""
      ensures headers == map[] && body == "" && contentLength == 0
    {
      state, buf, verb, path, version, headers, body, contentLength :=
        ExpectRequestLine, "", "", "", "", map[], "", 0;
    }

    method Reset()
      modifies this
      ensures State() == FRESH
      ensures state == ExpectRequestLine && buf == "" && verb == "" && path == "" && version == ""
      ensures headers == map[] && body == "" && contentLength == 0
    {
      state := ExpectRequestLine;
      buf := "";
      verb := "";
      path := "";
      version := "";
      headers := map[];
      body := "";
      contentLength := 0;
    }

    /** One call of `parse`; false is a protocol error. */
    method Parse(data: string) returns (ok: bool)
      modifies this
      ensures Outcome(ok, State()) == Feed(old(State()), data)
    {
      if |buf| + |data| > MAX_REQUEST_SIZE {
        return false;
      }
      buf := buf + data;
      ghost var start := State();
      while true
        invariant Drain(State()) == Drain(start)
        decreases |buf|
      {
        ghost var r := State();
        match state {
          case ExpectRequestLine =>
            var pos := FindCrlf(buf);
            if pos == NPOS { return true; }
            var line := buf[..pos];
            buf := buf[pos + 2..];
            var parsed := ReadRequestLine(line);
            if !parsed { return false; }
            state := ExpectHeaders;
            assert LineStep(r.(buf := buf), line) == Outcome(true, State());
          case ExpectHeaders =>
            var pos := FindCrlf(buf);
            if pos == NPOS { return true; }
            var line := buf[..pos];
            buf := buf[pos + 2..];
            if line == "" {
              state := if contentLength > 0 then ExpectBody else GotAll;
            } else {
              var parsed := ReadHeader(line);
              if !parsed { return false; }
              if |headers| > MAX_HEADER_COUNT { return false; }
            }
            assert LineStep(r.(buf := buf), line) == Outcome(true, State());
          case ExpectBody =>
            if |buf| >= contentLength {
              body := buf[..contentLength];
              buf := buf[contentLength..];
              state := GotAll;
            }
            return true;
          case GotAll =>
            return true;
        }
      }
    }

    method ReadRequestLine(line: string) returns (ok: bool)
      modifies this`verb, this`path, this`version
      ensures Outcome(ok, State()) == ParseRequestLine(old(State()), line)
    {
      var pos1 := Find(line, ' ');
      if pos1 == NPOS { return false; }
      var pos2 := RFind(line, ' ');
      if pos2 == pos1 || pos2 == NPOS { return false; }
      verb := line[..pos1];
      path := line[pos1 + 1..pos2];
      version := line[pos2 + 1..];
      if path == "" {
        path := "/";
      } else if path[0] != '/' {
        path := "/" + path;
      }
      return "HTTP/" <= version;
    }

    method ReadHeader(line: string) returns (ok: bool)
      modifies this`headers, this`contentLength
      ensures Outcome(ok, State()) == ParseHeader(old(State()), line)
    {
      var colonPos := Find(line, ':');
      if colonPos == NPOS { return false; }
      var key := Lower(line[..colonPos]);
      var value := TrimValue(line[colonPos + 1..]);
      ok := StoreField(key, value);
    }

    method StoreField(key: string, value: string) returns (ok: bool)
      modifies this`headers, this`contentLength
      ensures Outcome(ok, State()) == WithField(old(State()), key, value)
    {
      headers := headers[key := value];
      if key == "content-length" {
        match Strtol(value)
        case NoConversion => return false;
        case Converted(len) =>
          if len < 0 { return false; }
          contentLength := len;
      }
      return true;
    }

    method Header(key: string) returns (value: string)
      ensures value == GetHeader(State(), key)
    {
      var lowerKey := Lower(key);
      if lowerKey in headers {
        value := headers[lowerKey];
      } else {
        value := "";
      }
    }

    method IsKeepAlive() returns (keep: bool)
      ensures keep == KeepAlive(State())
    {
      var conn := Header("connection");
      if version == "HTTP/1.1" {
        return conn != "close";
      }
      return conn == "keep-alive";
    }
  }
}
