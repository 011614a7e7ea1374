/** The RTSP/1.0 message codec of proxy-server/src/rtsp.rs: incremental
    parsing of requests (RFC 2326 section 6) and responses (section 7) from a
    byte buffer, with the message length given by Content-Length (sections
    4.4 and 12.14), and serialisation back to bytes. */
module Rtsp {
  import opened Common
  import opened Strings

  datatype Request = Request(
    methodName: string, path: string, version: string,
    headers: map<string, string>, body: seq<u8>)

  datatype Response = Response(
    version: string, statusCode: u16, reason: string,
    headers: map<string, string>, body: seq<u8>)

  datatype ParseError = EmptyMessage | InvalidStartLine | InvalidStatusCode

  /** `Result<Option<(M, usize)>>`: `Ok(None)`, `Err(_)` or `Ok(Some((msg, consumed)))`. */
  datatype ParseResult<M> = Incomplete | Failed(error: ParseError) | Parsed(msg: M, consumed: nat)

  /** Content-Length is parsed as a `usize` of a 64-bit target. */
  const UsizeLimit: nat := 0x1_0000_0000_0000_0000
  const U16Limit: nat := 0x1_0000

  // ---------------------------------------------------------------------------
  // The end of the header block
  // ---------------------------------------------------------------------------

  /** The bytes `\r\n\r\n` start at index `i`. */
  predicate TerminatorAt(data: seq<u8>, i: nat)
  {
    i + 4 <= |data| && data[i] == 13 && data[i + 1] == 10 && data[i + 2] == 13 && data[i + 3] == 10
  }

  function FindTerminatorFrom(data: seq<u8>, from: nat): (r: Option<nat>)
    requires from <= |data|
    ensures r.Some? ==> from <= r.value && TerminatorAt(data, r.value)
    ensures r.Some? ==> forall j :: from <= j < r.value ==> !TerminatorAt(data, j)
    ensures r.None? ==> forall j :: from <= j ==> !TerminatorAt(data, j)
    decreases |data| - from
  {
    if from + 4 > |data| then None
    else if TerminatorAt(data, from) then Some(from)
    else FindTerminatorFrom(data, from + 1)
  }

  /** `text.find("\r\n\r\n")`: the first occurrence of the blank line. */
  function FindTerminator(data: seq<u8>): Option<nat>
  {
    FindTerminatorFrom(data, 0)
  }

  lemma FindTerminatorIs(data: seq<u8>, t: nat)
    requires TerminatorAt(data, t)
    requires forall j :: 0 <= j < t ==> !TerminatorAt(data, j)
    ensures FindTerminator(data) == Some(t)
  {
  }

  lemma FindTerminatorAbsent(data: seq<u8>)
    requires forall j :: 0 <= j < |data| ==> !TerminatorAt(data, j)
    ensures FindTerminator(data) == None
  {
  }

  /** The bytes before the header terminator are ASCII, so decoding them
      lossily changes nothing and byte offsets equal text offsets. */
  predicate AsciiHead(data: seq<u8>)
  {
    match FindTerminator(data)
    case None => true
    case Some(t) => IsAscii(data[..t])
  }

  lemma AsciiHeadOfAscii(data: seq<u8>)
    requires IsAscii(data)
    ensures AsciiHead(data)
  {
    if FindTerminator(data).Some? {
      var t := FindTerminator(data).value;
      assert forall i :: 0 <= i < t ==> data[..t][i] == data[i];
    }
  }

  // ---------------------------------------------------------------------------
  // Header fields
  // ---------------------------------------------------------------------------

  /** A header line split at its first `:`, both sides trimmed; `None` for a
      line without `:`. */
  function Field(line: string): Option<(string, string)>
  {
    match SplitOnce(line, ':')
    case None => None
    case Some((k, v)) => Some((Trim(k), Trim(v)))
  }

  /** A line with a `:` is cut at its first `:` and both sides are trimmed;
      a line without one yields no entry. */
  lemma FieldSpec(line: string)
    ensures Field(line).None? <==> Without(line, ':')
    ensures Field(line).Some? ==> exists a, b ::
      && line == a + ":" + b && Without(a, ':')
      && Field(line).value == (Trim(a), Trim(b))
  {
    SplitOnceSpec(line, ':');
    if SplitOnce(line, ':').Some? {
      var (a, b) := SplitOnce(line, ':').value;
      assert line == a + ":" + b;
    }
  }

  /** The map the header loop builds: line by line, a later key overwriting
      an earlier one, lines without `:` ignored. */
  function HeaderMap(lines: seq<string>): map<string, string>
    decreases |lines|
  {
    if |lines| == 0 then map[]
    else
      var h := HeaderMap(lines[..|lines| - 1]);
      match Field(lines[|lines| - 1])
      case None => h
      case Some((k, v)) => h[k := v]
  }

  /** The keys of the header map are exactly the keys of the lines that have
      a `:`, and each key maps to the value of its LAST such line. */
  lemma HeaderMapLastWins(lines: seq<string>, k: string)
    ensures k in HeaderMap(lines) <==>
      exists i :: 0 <= i < |lines| && Field(lines[i]).Some? && Field(lines[i]).value.0 == k
    ensures k in HeaderMap(lines) ==>
      exists i :: 0 <= i < |lines| && Field(lines[i]) == Some((k, HeaderMap(lines)[k])) &&
        forall j :: i < j < |lines| ==> Field(lines[j]).None? || Field(lines[j]).value.0 != k
  {
    var es := Entries(lines);
    EntriesFold(lines);
    FoldLastWins(es, k);
  }

  /** The entry each header line yields, line by line. */
  function Entries(lines: seq<string>): (es: seq<Option<(string, string)>>)
    ensures |es| == |lines| && forall i :: 0 <= i < |lines| ==> es[i] == Field(lines[i])
  {
    seq(|lines|, i requires 0 <= i < |lines| => Field(lines[i]))
  }

  /** A map built from entries in order, a later key overwriting an earlier one. */
  function Fold(es: seq<Option<(string, string)>>): map<string, string>
  {
    if |es| == 0 then map[]
    else
      var h := Fold(es[..|es| - 1]);
      match es[|es| - 1]
      case None => h
      case Some((k, v)) => h[k := v]
  }

  lemma {:induction false} EntriesFold(lines: seq<string>)
    ensures HeaderMap(lines) == Fold(Entries(lines))
  {
    if |lines| > 0 {
      var n := |lines| - 1;
      EntriesFold(lines[..n]);
      assert Entries(lines)[..n] == Entries(lines[..n]);
    }
  }

  lemma {:induction false} FoldLastWins(es: seq<Option<(string, string)>>, k: string)
    ensures k in Fold(es) <==> exists i :: 0 <= i < |es| && es[i].Some? && es[i].value.0 == k
    ensures k in Fold(es) ==>
      exists i :: 0 <= i < |es| && es[i] == Some((k, Fold(es)[k])) &&
        forall j :: i < j < |es| ==> es[j].None? || es[j].value.0 != k
  {
    if |es| > 0 {
      var n := |es| - 1;
      var init := es[..n];
      FoldLastWins(init, k);
      if es[n].Some? && es[n].value.0 == k {
        assert Fold(es) == Fold(init)[k := es[n].value.1];
        assert es[n] == Some((k, Fold(es)[k]));
      } else {
        assert k in Fold(es) <==> k in Fold(init);
        assert k in Fold(init) ==> Fold(es)[k] == Fold(init)[k];
        if k in Fold(init) {
          var i :| 0 <= i < n && init[i] == Some((k, Fold(init)[k])) &&
            forall j :: i < j < n ==> init[j].None? || init[j].value.0 != k;
          assert es[i] == init[i];
          assert forall j :: i < j < |es| ==> es[j].None? || es[j].value.0 != k by {
            forall j | i < j < |es| ensures es[j].None? || es[j].value.0 != k {
              if j < n { assert es[j] == init[j]; }
            }
          }
        }
        if exists i :: 0 <= i < |es| && es[i].Some? && es[i].value.0 == k {
          var i :| 0 <= i < |es| && es[i].Some? && es[i].value.0 == k;
          assert init[i] == es[i];
        }
      }
    }
  }

  /** The header loop of `parse`: every line holding a colon inserts its
      trimmed key and value, in order. */
  method CollectHeaders(lines: seq<string>) returns (headers: map<string, string>)
    ensures headers == HeaderMap(lines)
  {
    headers := map[];
    for i := 0 to |lines|
      invariant headers == HeaderMap(lines[..i])
    {
      assert lines[..i + 1][..i] == lines[..i];
      match SplitOnce(lines[i], ':') {
        case Some((key, value)) =>
          headers := headers[Trim(key) := Trim(value)];
        case None =>
      }
    }
    assert lines[..|lines|] == lines;
  }

  /** The body length a header map announces: the exact key `Content-Length`
      parsed as a `usize`, and 0 when it is missing or not a number. */
  function ContentLength(h: map<string, string>): nat
  {
    if "Content-Length" in h then
      match ParseUnsigned(h["Content-Length"], UsizeLimit)
      case Some(n) => n
      case None => 0
    else 0
  }

  // ---------------------------------------------------------------------------
  // Parsing
  // ---------------------------------------------------------------------------

  /** `header_str.lines()`: the header block before the blank line at `t`,
      decoded and split into lines. */
  function HeadLines(data: seq<u8>, t: nat): seq<string>
    requires t <= |data| && IsAscii(data[..t])
  {
    Lines(AsciiDecode(data[..t]))
  }

  /** `RtspRequest::parse`. */
  function ParseRequest(data: seq<u8>): (r: ParseResult<Request>)
    requires AsciiHead(data)
    ensures FindTerminator(data).None? ==> r == Incomplete
    ensures !r.Incomplete? ==> FindTerminator(data).Some?
    ensures r.Parsed? ==>
      var t := FindTerminator(data).value;
      && 4 <= r.consumed <= |data|
      && r.consumed == t + 4 + ContentLength(r.msg.headers)
      && r.msg.body == data[t + 4..r.consumed]
  {
    match FindTerminator(data)
    case None => Incomplete
    case Some(t) => RequestAt(data, t, HeadLines(data, t))
  }

  /** What `RtspRequest::parse` returns once the blank line was found at `t`
      and the header block split into `lines`. */
  function RequestAt(data: seq<u8>, t: nat, lines: seq<string>): (r: ParseResult<Request>)
    requires t + 4 <= |data|
    ensures r.Parsed? ==>
      && r.consumed == t + 4 + ContentLength(r.msg.headers) <= |data|
      && r.msg.body == data[t + 4..r.consumed]
  {
    if |lines| == 0 then Failed(EmptyMessage)
    else
      var parts := SplitWhitespace(lines[0]);
      if |parts| < 3 then Failed(InvalidStartLine)
      else
        var headers := HeaderMap(lines[1..]);
        var end := t + 4 + ContentLength(headers);
        if |data| < end then Incomplete
        else Parsed(Request(parts[0], parts[1], parts[2], headers, data[t + 4..end]), end)
  }

  /** `RtspResponse::parse`. */
  function ParseResponse(data: seq<u8>): (r: ParseResult<Response>)
    requires AsciiHead(data)
    ensures FindTerminator(data).None? ==> r == Incomplete
    ensures !r.Incomplete? ==> FindTerminator(data).Some?
    ensures r.Parsed? ==>
      var t := FindTerminator(data).value;
      && 4 <= r.consumed <= |data|
      && r.consumed == t + 4 + ContentLength(r.msg.headers)
      && r.msg.body == data[t + 4..r.consumed]
  {
    match FindTerminator(data)
    case None => Incomplete
    case Some(t) => ResponseAt(data, t, HeadLines(data, t))
  }

  /** What `RtspResponse::parse` returns once the blank line was found at `t`
      and the header block split into `lines`. */
  function ResponseAt(data: seq<u8>, t: nat, lines: seq<string>): (r: ParseResult<Response>)
    requires t + 4 <= |data|
    ensures r.Parsed? ==>
      && r.consumed == t + 4 + ContentLength(r.msg.headers) <= |data|
      && r.msg.body == data[t + 4..r.consumed]
  {
    if |lines| == 0 then Failed(EmptyMessage)
    else
      var parts := SplitWhitespace(lines[0]);
      if |parts| < 3 then Failed(InvalidStartLine)
      else match ParseUnsigned(parts[1], U16Limit)
        case None => Failed(InvalidStatusCode)
        case Some(code) =>
          var headers := HeaderMap(lines[1..]);
          var end := t + 4 + ContentLength(headers);
          if |data| < end then Incomplete
          else Parsed(Response(parts[0], code, JoinSpace(parts[2..]), headers, data[t + 4..end]), end)
  }

  /** `RtspRequest::parse` waits for more bytes exactly when the blank line
      is missing or the body that Content-Length announces has not fully
      arrived behind a valid head; it fails on an empty head (the buffer
      starts with the blank line) and on a first line of fewer than three
      tokens. */
  lemma RequestVerdicts(data: seq<u8>)
    requires AsciiHead(data)
    ensures FindTerminator(data).None? ==> ParseRequest(data) == Incomplete
    ensures FindTerminator(data).Some? ==>
      var t := FindTerminator(data).value;
      var lines := HeadLines(data, t);
      && (ParseRequest(data) == Failed(EmptyMessage) <==> t == 0)
      && (ParseRequest(data) == Failed(InvalidStartLine) <==>
            t > 0 && |SplitWhitespace(lines[0])| < 3)
      && (ParseRequest(data).Incomplete? <==>
            t > 0 && |SplitWhitespace(lines[0])| >= 3 &&
            |data| < t + 4 + ContentLength(HeaderMap(lines[1..])))
  {
    if FindTerminator(data).Some? {
      var t := FindTerminator(data).value;
      LinesEmpty(AsciiDecode(data[..t]));
    }
  }

  /** `RtspResponse::parse` waits, fails and succeeds like the request
      parser, and also fails when the second token is not a `u16`. */
  lemma ResponseVerdicts(data: seq<u8>)
    requires AsciiHead(data)
    ensures FindTerminator(data).None? ==> ParseResponse(data) == Incomplete
    ensures FindTerminator(data).Some? ==>
      var t := FindTerminator(data).value;
      var lines := HeadLines(data, t);
      && (ParseResponse(data) == Failed(EmptyMessage) <==> t == 0)
      && (ParseResponse(data) == Failed(InvalidStartLine) <==>
            t > 0 && |SplitWhitespace(lines[0])| < 3)
      && (ParseResponse(data) == Failed(InvalidStatusCode) <==>
            t > 0 && |SplitWhitespace(lines[0])| >= 3 &&
            ParseUnsigned(SplitWhitespace(lines[0])[1], U16Limit).None?)
      && (ParseResponse(data).Incomplete? <==>
            t > 0 && |SplitWhitespace(lines[0])| >= 3 &&
            ParseUnsigned(SplitWhitespace(lines[0])[1], U16Limit).Some? &&
            |data| < t + 4 + ContentLength(HeaderMap(lines[1..])))
  {
    if FindTerminator(data).Some? {
      var t := FindTerminator(data).value;
      LinesEmpty(AsciiDecode(data[..t]));
    }
  }

  /** A parsed request's method, path and version are the first three
      whitespace-free tokens of its first line, and its headers are what the
      header loop builds from the remaining lines. */
  lemma RequestFields(data: seq<u8>)
    requires AsciiHead(data) && ParseRequest(data).Parsed?
    ensures
      var m := ParseRequest(data).msg;
      var lines := HeadLines(data, FindTerminator(data).value);
      && |lines| > 0 && |SplitWhitespace(lines[0])| >= 3
      && SplitWhitespace(lines[0])[..3] == [m.methodName, m.path, m.version]
      && Word(m.methodName) && Word(m.path) && Word(m.version)
      && m.headers == HeaderMap(lines[1..])
  {
    var lines := HeadLines(data, FindTerminator(data).value);
    SplitWhitespaceWords(lines[0]);
  }

  /** A parsed response's version is the first token of its status line, its
      code the second token read as a `u16`, its reason the remaining tokens
      joined by single blanks, and its headers what the header loop builds. */
  lemma ResponseFields(data: seq<u8>)
    requires AsciiHead(data) && ParseResponse(data).Parsed?
    ensures
      var m := ParseResponse(data).msg;
      var lines := HeadLines(data, FindTerminator(data).value);
      && |lines| > 0
      && var parts := SplitWhitespace(lines[0]);
      && |parts| >= 3 && m.version == parts[0] && Word(m.version)
      && ParseUnsigned(parts[1], U16Limit) == Some(m.statusCode)
      && m.reason == JoinSpace(parts[2..])
      && m.headers == HeaderMap(lines[1..])
  {
    var lines := HeadLines(data, FindTerminator(data).value);
    SplitWhitespaceWords(lines[0]);
  }

  /** A status code must fit a `u16`: `70000` is refused even though it is
      all digits, while leading zeros and a `+` are accepted. */
  lemma StatusCodeExamples()
    ensures ParseUnsigned("70000", U16Limit).None?
    ensures ParseUnsigned("007", U16Limit) == Some(7)
    ensures ParseUnsigned("+200", U16Limit) == Some(200)
  {
    ValueOf70000();
    ValueOf007();
    ValueOf200();
    assert "+200"[1..] == "200";
  }

  /** Without a numeric `Content-Length` (that exact key) the body is empty
      and the request ends right after the blank line. */
  lemma RequestWithoutLength(data: seq<u8>)
    requires AsciiHead(data) && ParseRequest(data).Parsed?
    requires var h := ParseRequest(data).msg.headers;
      "Content-Length" !in h || ParseUnsigned(h["Content-Length"], UsizeLimit).None?
    ensures ParseRequest(data).msg.body == []
    ensures ParseRequest(data).consumed == FindTerminator(data).value + 4
  {
  }

  /** Without a numeric `Content-Length` the response body is empty. */
  lemma ResponseWithoutLength(data: seq<u8>)
    requires AsciiHead(data) && ParseResponse(data).Parsed?
    requires var h := ParseResponse(data).msg.headers;
      "Content-Length" !in h || ParseUnsigned(h["Content-Length"], UsizeLimit).None?
    ensures ParseResponse(data).msg.body == []
    ensures ParseResponse(data).consumed == FindTerminator(data).value + 4
  {
  }

  /** The statements of `RtspRequest::parse`, header loop included. */
  method ReadRequest(data: seq<u8>) returns (r: ParseResult<Request>)
    requires AsciiHead(data)
    ensures r == ParseRequest(data)
  {
    var found := FindTerminator(data);
    if found.None? {
      return Incomplete;
    }
    var headerEnd := found.value;
    var lines := Lines(AsciiDecode(data[..headerEnd]));
    r := ReadRequestAt(data, headerEnd, lines);
  }

  /** The statements of `RtspRequest::parse` after the blank line was found
      at `headerEnd` and the head split into `lines`. */
  method ReadRequestAt(data: seq<u8>, headerEnd: nat, lines: seq<string>) returns (r: ParseResult<Request>)
    requires headerEnd + 4 <= |data|
    ensures r == RequestAt(data, headerEnd, lines)
  {
    if |lines| == 0 {
      return Failed(EmptyMessage);
    }
    var parts := SplitWhitespace(lines[0]);
    if |parts| < 3 {
      return Failed(InvalidStartLine);
    }
    var headers := CollectHeaders(lines[1..]);
    var end := headerEnd + 4 + ContentLength(headers);
    if |data| < end {
      return Incomplete;
    }
    r := Parsed(Request(parts[0], parts[1], parts[2], headers, data[headerEnd + 4..end]), end);
  }

  /** The statements of `RtspResponse::parse`, header loop included. */
  method ReadResponse(data: seq<u8>) returns (r: ParseResult<Response>)
    requires AsciiHead(data)
    ensures r == ParseResponse(data)
  {
    var found := FindTerminator(data);
    if found.None? {
      return Incomplete;
    }
    var headerEnd := found.value;
    var lines := Lines(AsciiDecode(data[..headerEnd]));
    r := ReadResponseAt(data, headerEnd, lines);
  }

  /** The statements of `RtspResponse::parse` after the blank line was found
      at `headerEnd` and the head split into `lines`. */
  method ReadResponseAt(data: seq<u8>, headerEnd: nat, lines: seq<string>) returns (r: ParseResult<Response>)
    requires headerEnd + 4 <= |data|
    ensures r == ResponseAt(data, headerEnd, lines)
  {
    if |lines| == 0 {
      return Failed(EmptyMessage);
    }
    var parts := SplitWhitespace(lines[0]);
    if |parts| < 3 {
      return Failed(InvalidStartLine);
    }
    var code := ParseUnsigned(parts[1], U16Limit);
    if code.None? {
      return Failed(InvalidStatusCode);
    }
    var headers := CollectHeaders(lines[1..]);
    var end := headerEnd + 4 + ContentLength(headers);
    if |data| < end {
      return Incomplete;
    }
    r := Parsed(Response(parts[0], code.value, JoinSpace(parts[2..]), headers, data[headerEnd + 4..end]), end);
  }

  // ---------------------------------------------------------------------------
  // Serialisation
  // ---------------------------------------------------------------------------

  function RequestLine(m: Request): string
  {
    m.methodName + " " + m.path + " " + m.version
  }

  function StatusLine(m: Response): string
  {
    m.version + " " + Decimal(m.statusCode) + " " + m.reason
  }

  function FieldLine(k: string, v: string): string
  {
    k + ": " + v
  }

  /** `order` is one enumeration of the keys of `h`, each key once: the
      unspecified order in which a `HashMap` is iterated. */
  ghost predicate IsEnumeration(order: seq<string>, h: map<string, string>)
  {
    && (forall k :: k in h <==> k in order)
    && (forall i, j :: 0 <= i < j < |order| ==> order[i] != order[j])
  }

  function FieldLines(h: map<string, string>, order: seq<string>): (r: seq<string>)
    requires forall k :: k in order ==> k in h
    ensures |r| == |order|
  {
    seq(|order|, i requires 0 <= i < |order| => FieldLine(order[i], h[order[i]]))
  }

  /** Each line followed by CRLF. */
  function Terminated(ls: seq<string>): string
  {
    if |ls| == 0 then "" else ls[0] + "\r\n" + Terminated(ls[1..])
  }

  /** The lines with CRLF between them. */
  function JoinCrlf(ls: seq<string>): string
  {
    if |ls| == 0 then "" else if |ls| == 1 then ls[0] else ls[0] + "\r\n" + JoinCrlf(ls[1..])
  }

  /** `RtspRequest::to_bytes` when the header map is iterated in `order`. */
  function SerializeRequest(m: Request, order: seq<string>): seq<u8>
    requires IsEnumeration(order, m.headers)
  {
    Utf8(RequestLine(m) + "\r\n" + Terminated(FieldLines(m.headers, order)) + "\r\n") + m.body
  }

  /** `RtspResponse::to_bytes` when the header map is iterated in `order`. */
  function SerializeResponse(m: Response, order: seq<string>): seq<u8>
    requires IsEnumeration(order, m.headers)
  {
    Utf8(StatusLine(m) + "\r\n" + Terminated(FieldLines(m.headers, order)) + "\r\n") + m.body
  }

  lemma {:induction false} TerminatedSnoc(ls: seq<string>, x: string)
    ensures Terminated(ls + [x]) == Terminated(ls) + x + "\r\n"
  {
    if |ls| > 0 {
      assert (ls + [x])[1..] == ls[1..] + [x];
      TerminatedSnoc(ls[1..], x);
    } else {
      assert ls + [x] == [x];
    }
  }

  lemma FieldLinesSnoc(h: map<string, string>, order: seq<string>, i: nat)
    requires forall k :: k in order ==> k in h
    requires i < |order|
    ensures FieldLines(h, order[..i + 1]) == FieldLines(h, order[..i]) + [FieldLine(order[i], h[order[i]])]
  {
  }

  /** The header-writing part of `to_bytes`: the start line, then one
      `k: v\r\n` per entry in iteration order, then the blank line and the body. */
  method WriteMessage(startLine: string, h: map<string, string>, order: seq<string>, body: seq<u8>)
    returns (out: seq<u8>)
    requires forall k :: k in order ==> k in h
    ensures out == Utf8(startLine + "\r\n" + Terminated(FieldLines(h, order)) + "\r\n") + body
  {
    var first := startLine + "\r\n";
    out := Utf8(first);
    assert first + Terminated(FieldLines(h, order[..0])) == first;
    for i := 0 to |order|
      invariant out == Utf8(first + Terminated(FieldLines(h, order[..i])))
    {
      var k := order[i];
      var line := k + ": " + h[k] + "\r\n";
      ghost var done := first + Terminated(FieldLines(h, order[..i]));
      FieldLinesSnoc(h, order, i);
      TerminatedSnoc(FieldLines(h, order[..i]), FieldLine(k, h[k]));
      assert first + Terminated(FieldLines(h, order[..i + 1])) == done + line;
      Utf8Append(done, line);
      out := out + Utf8(line);
    }
    assert order[..|order|] == order;
    ghost var head := first + Terminated(FieldLines(h, order));
    Utf8Append(head, "\r\n");
    assert Utf8("\r\n") == [13, 10];
    out := out + [13, 10];
    out := out + body;
  }

  /** The statements of `RtspRequest::to_bytes`. */
  method WriteRequest(m: Request, order: seq<string>) returns (out: seq<u8>)
    requires IsEnumeration(order, m.headers)
    ensures out == SerializeRequest(m, order)
  {
    out := WriteMessage(m.methodName + " " + m.path + " " + m.version, m.headers, order, m.body);
  }

  /** The statements of `RtspResponse::to_bytes`. */
  method WriteResponse(m: Response, order: seq<string>) returns (out: seq<u8>)
    requires IsEnumeration(order, m.headers)
    ensures out == SerializeResponse(m, order)
  {
    out := WriteMessage(m.version + " " + Decimal(m.statusCode) + " " + m.reason, m.headers, order, m.body);
  }

  // ---------------------------------------------------------------------------
  // Messages that survive a round trip
  // ---------------------------------------------------------------------------

  /** A start-line token: ASCII with no whitespace. */
  predicate Token(s: string)
  {
    Word(s) && AsciiString(s)
  }

  /** A reason phrase that `split_whitespace` followed by `join(" ")` gives back. */
  predicate Phrase(s: string)
  {
    AsciiString(s) && |SplitWhitespace(s)| > 0 && JoinSpace(SplitWhitespace(s)) == s
  }

  /** A header entry that `k: v\r\n` writes and the parser reads back. */
  predicate FieldOk(k: string, v: string)
  {
    && AsciiString(k) && AsciiString(v)
    && NoCrLf(k) && NoCrLf(v)
    && (forall i :: 0 <= i < |k| ==> k[i] != ':')
    && Trimmed(k) && Trimmed(v)
  }

  predicate HeadersOk(h: map<string, string>)
  {
    forall k :: k in h ==> FieldOk(k, h[k])
  }

  predicate RequestWellFormed(m: Request)
  {
    && Token(m.methodName) && Token(m.path) && Token(m.version)
    && HeadersOk(m.headers)
    && ContentLength(m.headers) == |m.body|
  }

  predicate ResponseWellFormed(m: Response)
  {
    && Token(m.version) && Phrase(m.reason)
    && HeadersOk(m.headers)
    && ContentLength(m.headers) == |m.body|
  }

  /** A line the codec can frame: non-empty ASCII without CR or LF. */
  predicate LineSafe(l: string)
  {
    |l| > 0 && NoCrLf(l) && AsciiString(l)
  }

  /** The shape of CRLF-joined safe lines that rules out an early blank line. */
  predicate CrlfShaped(j: string)
  {
    && |j| > 0 && AsciiString(j)
    && j[0] != '\r' && j[|j| - 1] != '\r' && j[|j| - 1] != '\n'
    && forall q :: 0 <= q < |j| - 1 && j[q] == '\n' ==> j[q + 1] != '\r'
  }

  lemma JoinCrlfCons(l: string, ls: seq<string>)
    requires |ls| > 0
    ensures JoinCrlf([l] + ls) == l + "\r\n" + JoinCrlf(ls)
  {
    assert ([l] + ls)[1..] == ls;
  }

  lemma {:induction false} TerminatedJoin(l: string, ls: seq<string>)
    ensures l + "\r\n" + Terminated(ls) == JoinCrlf([l] + ls) + "\r\n"
    decreases ls
  {
    if |ls| == 0 {
      assert [l] + ls == [l];
    } else {
      TerminatedJoin(ls[0], ls[1..]);
      assert [ls[0]] + ls[1..] == ls;
      JoinCrlfCons(l, ls);
    }
  }

  lemma {:induction false} JoinCrlfShape(ls: seq<string>)
    requires |ls| > 0
    requires forall i :: 0 <= i < |ls| ==> LineSafe(ls[i])
    ensures CrlfShaped(JoinCrlf(ls))
  {
    if |ls| > 1 {
      var l := ls[0];
      var r := JoinCrlf(ls[1..]);
      JoinCrlfShape(ls[1..]);
      var j := JoinCrlf(ls);
      assert j == l + "\r\n" + r;
      assert LineSafe(l);
      forall q | 0 <= q < |j|
        ensures (j[q] as int) < 0x80
        ensures q < |l| ==> j[q] == l[q] && j[q] != '\n'
        ensures q > |l| + 1 ==> j[q] == r[q - |l| - 2]
      {
      }
      assert j[|l|] == '\r' && j[|l| + 1] == '\n' && j[|l| + 2] == r[0];
    } else {
      assert JoinCrlf(ls) == ls[0];
      assert LineSafe(ls[0]);
    }
  }

  /** In shaped text followed by a blank line, the first `\r\n\r\n` is that
      blank line. */
  lemma NoEarlyTerminator(j: string, rest: seq<u8>)
    requires CrlfShaped(j)
    ensures FindTerminator(Utf8(j) + [13, 10, 13, 10] + rest) == Some(|j|)
  {
    var d := Utf8(j) + [13, 10, 13, 10] + rest;
    Utf8OfAscii(j);
    assert forall i :: 0 <= i < |j| ==> d[i] == j[i] as int;
    forall p | 0 <= p < |j|
      ensures !TerminatorAt(d, p)
    {
      if p == |j| - 1 {
        assert d[p] != 13;
      } else if p == |j| - 2 {
        assert d[p + 1] != 10;
      } else if d[p + 1] == 10 {
        assert j[p + 1] == '\n';
        assert d[p + 2] != 13;
      }
    }
    assert TerminatorAt(d, |j|);
    FindTerminatorIs(d, |j|);
  }

  /** A line without CR or LF, then CRLF, is the first of the lines. */
  lemma LinesCons(l: string, r: string)
    requires NoCrLf(l)
    ensures Lines(l + "\r\n" + r) == [l] + Lines(r)
  {
    var j := l + "\r\n" + r;
    assert forall q :: 0 <= q < |l| ==> j[q] == l[q];
    assert j[..|l| + 1] == l + "\r";
    IndexOfIs(j, '\n', |l| + 1);
    assert StripCr(l + "\r") == l by {
      assert (l + "\r")[..|l|] == l;
    }
    assert j[|l| + 2..] == r;
  }

  lemma {:induction false} LinesOfJoin(ls: seq<string>)
    requires |ls| > 0
    requires forall i :: 0 <= i < |ls| ==> LineSafe(ls[i])
    ensures Lines(JoinCrlf(ls)) == ls
  {
    var l := ls[0];
    assert LineSafe(l);
    if |ls| == 1 {
      IndexOfSpec(l, '\n');
    } else {
      var r := JoinCrlf(ls[1..]);
      assert JoinCrlf(ls) == l + "\r\n" + r;
      LinesCons(l, r);
      LinesOfJoin(ls[1..]);
      assert [l] + ls[1..] == ls;
    }
  }

  /** The bytes `to_bytes` writes before the body are one CRLF-joined text
      followed by the blank line. */
  lemma FramedText(first: string, fields: seq<string>, rest: seq<u8>)
    ensures Utf8(first + "\r\n" + Terminated(fields) + "\r\n") + rest
         == Utf8(JoinCrlf([first] + fields)) + [13, 10, 13, 10] + rest
  {
    var j := JoinCrlf([first] + fields);
    TerminatedJoin(first, fields);
    assert first + "\r\n" + Terminated(fields) + "\r\n" == j + "\r\n\r\n";
    Utf8Append(j, "\r\n\r\n");
    assert Utf8("\r\n\r\n") == [13, 10, 13, 10];
  }

  /** ASCII text before the blank line decodes back to itself. */
  lemma AsciiFramed(j: string, rest: seq<u8>)
    requires AsciiString(j)
    ensures var d := Utf8(j) + [13, 10, 13, 10] + rest;
      && |j| + 4 <= |d| && IsAscii(d[..|j|]) && AsciiDecode(d[..|j|]) == j
      && d[|j| + 4..] == rest
  {
    var d := Utf8(j) + [13, 10, 13, 10] + rest;
    Utf8OfAscii(j);
    AsciiDecodeUtf8(j);
    assert d[..|j|] == Utf8(j);
    assert d[|j| + 4..] == rest;
  }

  /** A start line and header lines written with CRLFs and a final blank
      line, then a body and whatever follows it: the parser finds the blank
      line where it was written, decodes the head as it was written, splits
      it back into the same lines, and finds the body right after it. */
  lemma WrittenMessage(first: string, fields: seq<string>, body: seq<u8>, tail: seq<u8>)
    requires LineSafe(first)
    requires forall i :: 0 <= i < |fields| ==> LineSafe(fields[i])
    ensures
      var head := Utf8(first + "\r\n" + Terminated(fields) + "\r\n");
      var d := head + body + tail;
      var t := |JoinCrlf([first] + fields)|;
      && FindTerminator(d) == Some(t) && |head| == t + 4 && IsAscii(d[..t])
      && HeadLines(d, t) == [first] + fields && d[t + 4..t + 4 + |body|] == body
  {
    var ls := [first] + fields;
    var j := JoinCrlf(ls);
    var rest := body + tail;
    FramedText(first, fields, rest);
    assert forall i :: 0 <= i < |ls| ==> LineSafe(ls[i]);
    JoinCrlfShape(ls);
    NoEarlyTerminator(j, rest);
    AsciiFramed(j, rest);
    LinesOfJoin(ls);
    var head := Utf8(first + "\r\n" + Terminated(fields) + "\r\n");
    assert head + body + tail == head + rest;
    assert (head + rest)[|j| + 4..|j| + 4 + |body|] == body;
  }

  lemma TokenSafe(s: string)
    requires Token(s)
    ensures LineSafe(s)
  {
    forall i | 0 <= i < |s|
      ensures s[i] != '\r' && s[i] != '\n'
    {
      assert !IsWhitespace(s[i]);
    }
  }

  /** Three safe pieces separated by blanks make a safe line. */
  lemma SpacedLineSafe(a: string, b: string, c: string)
    requires LineSafe(a) && LineSafe(b) && NoCrLf(c) && AsciiString(c)
    ensures LineSafe(a + " " + b + " " + c)
  {
    var s := a + " " + b + " " + c;
    forall i | 0 <= i < |s|
      ensures s[i] != '\r' && s[i] != '\n' && (s[i] as int) < 0x80
    {
      if i < |a| {
        assert s[i] == a[i];
      } else if i == |a| {
      } else if i < |a| + 1 + |b| {
        assert s[i] == b[i - |a| - 1];
      } else if i == |a| + 1 + |b| {
      } else {
        assert s[i] == c[i - |a| - |b| - 2];
      }
    }
  }

  /** The first two tokens of `a b c` are `a` and `b`. */
  lemma StartTokens(a: string, b: string, c: string)
    requires Word(a) && Word(b)
    ensures SplitWhitespace(a + " " + b + " " + c) == [a, b] + SplitWhitespace(c)
  {
    assert a + " " + b + " " + c == a + (" " + (b + (" " + c)));
    SplitWhitespaceWord(a, " " + (b + (" " + c)));
    SplitWhitespaceBlank(b + (" " + c));
    SplitWhitespaceWord(b, " " + c);
    SplitWhitespaceBlank(c);
  }

  lemma SingleToken(c: string)
    requires Word(c)
    ensures SplitWhitespace(c) == [c]
  {
    SplitWhitespaceWord(c, "");
    assert c + "" == c;
  }

  /** A written header line is safe to frame and reads back as its entry. */
  lemma FieldLineReadsBack(k: string, v: string)
    requires FieldOk(k, v)
    ensures LineSafe(FieldLine(k, v))
    ensures Field(FieldLine(k, v)) == Some((k, v))
  {
    var line := FieldLine(k, v);
    assert line == k + ": " + v;
    forall i | 0 <= i < |line|
      ensures line[i] != '\r' && line[i] != '\n' && (line[i] as int) < 0x80
      ensures i < |k| ==> line[i] != ':'
    {
      if i < |k| {
        assert line[i] == k[i];
      } else if i >= |k| + 2 {
        assert line[i] == v[i - |k| - 2];
      }
    }
    IndexOfIs(line, ':', |k|);
    assert line[..|k|] == k;
    assert line[|k| + 1..] == " " + v;
    TrimOfTrimmed(k);
    TrimAfterBlank(v);
  }

  lemma {:induction false} HeaderMapOfFields(h: map<string, string>, order: seq<string>, n: nat)
    requires HeadersOk(h)
    requires forall k :: k in order ==> k in h
    requires n <= |order|
    ensures HeaderMap(FieldLines(h, order)[..n]) == map k | k in order[..n] :: h[k]
  {
    var fl := FieldLines(h, order);
    if n == 0 {
      assert fl[..0] == [];
      assert order[..0] == [];
    } else {
      var key := order[n - 1];
      HeaderMapOfFields(h, order, n - 1);
      HeaderMapSnoc(fl, n);
      FieldLineReadsBack(key, h[key]);
      KeysSnoc(h, order, n);
    }
  }

  /** The header map of one more line: the map so far, updated by its entry. */
  lemma HeaderMapSnoc(lines: seq<string>, n: nat)
    requires 0 < n <= |lines|
    ensures HeaderMap(lines[..n]) ==
      match Field(lines[n - 1])
      case None => HeaderMap(lines[..n - 1])
      case Some((k, v)) => HeaderMap(lines[..n - 1])[k := v]
  {
    assert lines[..n][..n - 1] == lines[..n - 1];
  }

  lemma KeysSnoc(h: map<string, string>, order: seq<string>, n: nat)
    requires forall k :: k in order ==> k in h
    requires 0 < n <= |order|
    ensures (map k | k in order[..n] :: h[k]) == (map k | k in order[..n - 1] :: h[k])[order[n - 1] := h[order[n - 1]]]
  {
    assert order[..n] == order[..n - 1] + [order[n - 1]];
  }

  /** Writing a well-formed header map in any iteration order and reading the
      lines back yields the same map. */
  lemma HeadersRoundTrip(h: map<string, string>, order: seq<string>)
    requires HeadersOk(h) && IsEnumeration(order, h)
    ensures HeaderMap(FieldLines(h, order)) == h
    ensures forall i :: 0 <= i < |order| ==> LineSafe(FieldLines(h, order)[i])
  {
    HeaderMapOfFields(h, order, |order|);
    assert FieldLines(h, order)[..|order|] == FieldLines(h, order);
    assert order[..|order|] == order;
    forall i | 0 <= i < |order|
      ensures LineSafe(FieldLines(h, order)[i])
    {
      FieldLineReadsBack(order[i], h[order[i]]);
    }
  }

  lemma RequestLineSafe(m: Request)
    requires RequestWellFormed(m)
    ensures LineSafe(RequestLine(m))
  {
    TokenSafe(m.methodName);
    TokenSafe(m.path);
    TokenSafe(m.version);
    SpacedLineSafe(m.methodName, m.path, m.version);
  }

  lemma StatusLineSafe(m: Response)
    requires ResponseWellFormed(m)
    ensures LineSafe(StatusLine(m))
  {
    TokenSafe(m.version);
    DecimalDigits(m.statusCode);
    TokenSafe(Decimal(m.statusCode));
    SplitWhitespaceWords(m.reason);
    JoinSpaceNoCrLf(SplitWhitespace(m.reason));
    SpacedLineSafe(m.version, Decimal(m.statusCode), m.reason);
  }

  /** A head whose request line splits into `m`'s method, path and version
      and whose header lines build `m`'s headers, followed by `m`'s body,
      is read as `m`. */
  lemma RequestAtComplete(data: seq<u8>, t: nat, lines: seq<string>, m: Request)
    requires t + 4 <= |data| && |lines| > 0
    requires var parts := SplitWhitespace(lines[0]);
      |parts| >= 3 && parts[0] == m.methodName && parts[1] == m.path && parts[2] == m.version
    requires HeaderMap(lines[1..]) == m.headers && ContentLength(m.headers) == |m.body|
    requires t + 4 + |m.body| <= |data| && data[t + 4..t + 4 + |m.body|] == m.body
    ensures RequestAt(data, t, lines) == Parsed(m, t + 4 + |m.body|)
  {
  }

  /** A well-formed request's start line and written header lines, followed
      by its body, parse back to the request. */
  lemma RequestAtWritten(m: Request, data: seq<u8>, t: nat, fields: seq<string>)
    requires RequestWellFormed(m) && HeaderMap(fields) == m.headers
    requires t + 4 + |m.body| <= |data| && data[t + 4..t + 4 + |m.body|] == m.body
    ensures RequestAt(data, t, [RequestLine(m)] + fields) == Parsed(m, t + 4 + |m.body|)
  {
    var lines := [RequestLine(m)] + fields;
    assert lines[0] == RequestLine(m) && lines[1..] == fields;
    StartTokens(m.methodName, m.path, m.version);
    SingleToken(m.version);
    RequestAtComplete(data, t, lines, m);
  }

  /** The tokens of a well-formed status line give back its version, code
      and reason. */
  lemma StatusTokens(m: Response)
    requires ResponseWellFormed(m)
    ensures var parts := SplitWhitespace(StatusLine(m));
      && |parts| >= 3 && parts[0] == m.version
      && ParseUnsigned(parts[1], U16Limit) == Some(m.statusCode)
      && JoinSpace(parts[2..]) == m.reason
  {
    DecimalDigits(m.statusCode);
    StartTokens(m.version, Decimal(m.statusCode), m.reason);
    var parts := SplitWhitespace(StatusLine(m));
    assert parts[2..] == SplitWhitespace(m.reason);
    DecimalRoundTrip(m.statusCode, U16Limit);
  }

  /** A head whose status line splits into `m`'s version, code and reason
      and whose header lines build `m`'s headers, followed by `m`'s body,
      is read as `m`. */
  lemma ResponseAtComplete(data: seq<u8>, t: nat, lines: seq<string>, m: Response)
    requires t + 4 <= |data| && |lines| > 0
    requires var parts := SplitWhitespace(lines[0]);
      && |parts| >= 3 && parts[0] == m.version
      && ParseUnsigned(parts[1], U16Limit) == Some(m.statusCode)
      && JoinSpace(parts[2..]) == m.reason
    requires HeaderMap(lines[1..]) == m.headers && ContentLength(m.headers) == |m.body|
    requires t + 4 + |m.body| <= |data| && data[t + 4..t + 4 + |m.body|] == m.body
    ensures ResponseAt(data, t, lines) == Parsed(m, t + 4 + |m.body|)
  {
  }

  /** A well-formed response's status line and written header lines,
      followed by its body, parse back to the response. */
  lemma ResponseAtWritten(m: Response, data: seq<u8>, t: nat, fields: seq<string>)
    requires ResponseWellFormed(m) && HeaderMap(fields) == m.headers
    requires t + 4 + |m.body| <= |data| && data[t + 4..t + 4 + |m.body|] == m.body
    ensures ResponseAt(data, t, [StatusLine(m)] + fields) == Parsed(m, t + 4 + |m.body|)
  {
    var lines := [StatusLine(m)] + fields;
    assert lines[0] == StatusLine(m) && lines[1..] == fields;
    StatusTokens(m);
    ResponseAtComplete(data, t, lines, m);
  }

  /** Parsing the bytes `to_bytes` writes gives back the request and consumes
      exactly those bytes, whatever follows them and whatever the order in
      which the header map is iterated. */
  lemma RequestRoundTrip(m: Request, order: seq<string>, tail: seq<u8>)
    requires RequestWellFormed(m) && IsEnumeration(order, m.headers)
    ensures AsciiHead(SerializeRequest(m, order) + tail)
    ensures ParseRequest(SerializeRequest(m, order) + tail) == Parsed(m, |SerializeRequest(m, order)|)
  {
    var fields := FieldLines(m.headers, order);
    HeadersRoundTrip(m.headers, order);
    RequestLineSafe(m);
    WrittenMessage(RequestLine(m), fields, m.body, tail);
    var t := |JoinCrlf([RequestLine(m)] + fields)|;
    RequestAtWritten(m, SerializeRequest(m, order) + tail, t, fields);
  }

  /** Parsing the bytes `to_bytes` writes gives back the response and
      consumes exactly those bytes. */
  lemma ResponseRoundTrip(m: Response, order: seq<string>, tail: seq<u8>)
    requires ResponseWellFormed(m) && IsEnumeration(order, m.headers)
    ensures AsciiHead(SerializeResponse(m, order) + tail)
    ensures ParseResponse(SerializeResponse(m, order) + tail) == Parsed(m, |SerializeResponse(m, order)|)
  {
    var fields := FieldLines(m.headers, order);
    HeadersRoundTrip(m.headers, order);
    StatusLineSafe(m);
    WrittenMessage(StatusLine(m), fields, m.body, tail);
    var t := |JoinCrlf([StatusLine(m)] + fields)|;
    ResponseAtWritten(m, SerializeResponse(m, order) + tail, t, fields);
  }

  // ---------------------------------------------------------------------------
  // Message boundaries
  // ---------------------------------------------------------------------------

  lemma TerminatorInPrefix(data: seq<u8>, t: nat, k: nat)
    requires FindTerminator(data) == Some(t) && k <= |data|
    ensures k < t + 4 ==> FindTerminator(data[..k]) == None
    ensures t + 4 <= k ==> FindTerminator(data[..k]) == Some(t)
  {
    var p := data[..k];
    assert forall j :: 0 <= j && TerminatorAt(p, j) ==> TerminatorAt(data, j);
    if k < t + 4 {
      FindTerminatorAbsent(p);
    } else {
      assert TerminatorAt(p, t);
      FindTerminatorIs(p, t);
    }
  }

  lemma TerminatorInExtension(data: seq<u8>, more: seq<u8>, t: nat)
    requires FindTerminator(data) == Some(t)
    ensures FindTerminator(data + more) == Some(t)
  {
    var d := data + more;
    assert forall j :: 0 <= j < t ==> (TerminatorAt(d, j) ==> TerminatorAt(data, j));
    assert TerminatorAt(d, t);
    FindTerminatorIs(d, t);
  }

  /** A prefix of the buffer that still holds the blank line has the same head. */
  lemma HeadOfPrefix(data: seq<u8>, t: nat, k: nat)
    requires FindTerminator(data) == Some(t) && IsAscii(data[..t]) && t + 4 <= k <= |data|
    ensures FindTerminator(data[..k]) == Some(t) && IsAscii(data[..k][..t])
    ensures HeadLines(data[..k], t) == HeadLines(data, t)
  {
    TerminatorInPrefix(data, t, k);
    assert data[..k][..t] == data[..t];
  }

  lemma RequestAtPrefix(data: seq<u8>, t: nat, lines: seq<string>, k: nat)
    requires t + 4 <= k <= |data| && RequestAt(data, t, lines).Parsed?
    ensures RequestAt(data[..k], t, lines) ==
      if k < RequestAt(data, t, lines).consumed then Incomplete else RequestAt(data, t, lines)
  {
    var c := RequestAt(data, t, lines).consumed;
    if c <= k {
      assert data[..k][t + 4..c] == data[t + 4..c];
    }
  }

  lemma ResponseAtPrefix(data: seq<u8>, t: nat, lines: seq<string>, k: nat)
    requires t + 4 <= k <= |data| && ResponseAt(data, t, lines).Parsed?
    ensures ResponseAt(data[..k], t, lines) ==
      if k < ResponseAt(data, t, lines).consumed then Incomplete else ResponseAt(data, t, lines)
  {
    var c := ResponseAt(data, t, lines).consumed;
    if c <= k {
      assert data[..k][t + 4..c] == data[t + 4..c];
    }
  }

  /** The number of bytes a parsed request consumes is exactly its extent:
      every shorter prefix is incomplete, and the prefix of that length
      parses to the same request. */
  lemma RequestBoundary(data: seq<u8>)
    requires AsciiHead(data) && ParseRequest(data).Parsed?
    ensures
      var c := ParseRequest(data).consumed;
      AsciiHead(data[..c]) && ParseRequest(data[..c]) == ParseRequest(data)
    ensures forall k :: 0 <= k < ParseRequest(data).consumed ==>
      AsciiHead(data[..k]) && ParseRequest(data[..k]) == Incomplete
  {
    var c := ParseRequest(data).consumed;
    var t := FindTerminator(data).value;
    forall k | 0 <= k <= c
      ensures AsciiHead(data[..k])
      ensures ParseRequest(data[..k]) == if k < c then Incomplete else ParseRequest(data)
    {
      TerminatorInPrefix(data, t, k);
      if t + 4 <= k {
        HeadOfPrefix(data, t, k);
        RequestAtPrefix(data, t, HeadLines(data, t), k);
      }
    }
  }

  /** The number of bytes a parsed response consumes is exactly its extent. */
  lemma ResponseBoundary(data: seq<u8>)
    requires AsciiHead(data) && ParseResponse(data).Parsed?
    ensures
      var c := ParseResponse(data).consumed;
      AsciiHead(data[..c]) && ParseResponse(data[..c]) == ParseResponse(data)
    ensures forall k :: 0 <= k < ParseResponse(data).consumed ==>
      AsciiHead(data[..k]) && ParseResponse(data[..k]) == Incomplete
  {
    var c := ParseResponse(data).consumed;
    var t := FindTerminator(data).value;
    forall k | 0 <= k <= c
      ensures AsciiHead(data[..k])
      ensures ParseResponse(data[..k]) == if k < c then Incomplete else ParseResponse(data)
    {
      TerminatorInPrefix(data, t, k);
      if t + 4 <= k {
        HeadOfPrefix(data, t, k);
        ResponseAtPrefix(data, t, HeadLines(data, t), k);
      }
    }
  }

  lemma RequestAtExtension(data: seq<u8>, more: seq<u8>, t: nat, lines: seq<string>)
    requires t + 4 <= |data| && !RequestAt(data, t, lines).Incomplete?
    ensures RequestAt(data + more, t, lines) == RequestAt(data, t, lines)
  {
    if RequestAt(data, t, lines).Parsed? {
      var c := RequestAt(data, t, lines).consumed;
      assert (data + more)[t + 4..c] == data[t + 4..c];
    }
  }

  lemma ResponseAtExtension(data: seq<u8>, more: seq<u8>, t: nat, lines: seq<string>)
    requires t + 4 <= |data| && !ResponseAt(data, t, lines).Incomplete?
    ensures ResponseAt(data + more, t, lines) == ResponseAt(data, t, lines)
  {
    if ResponseAt(data, t, lines).Parsed? {
      var c := ResponseAt(data, t, lines).consumed;
      assert (data + more)[t + 4..c] == data[t + 4..c];
    }
  }

  /** Once a request parses or fails, more bytes arriving behind it change
      nothing: the incremental parser never revises a verdict. */
  lemma RequestStable(data: seq<u8>, more: seq<u8>)
    requires AsciiHead(data) && !ParseRequest(data).Incomplete?
    ensures AsciiHead(data + more) && ParseRequest(data + more) == ParseRequest(data)
  {
    var t := FindTerminator(data).value;
    TerminatorInExtension(data, more, t);
    assert (data + more)[..t] == data[..t];
    RequestAtExtension(data, more, t, HeadLines(data, t));
  }

  /** Once a response parses or fails, more bytes behind it change nothing. */
  lemma ResponseStable(data: seq<u8>, more: seq<u8>)
    requires AsciiHead(data) && !ParseResponse(data).Incomplete?
    ensures AsciiHead(data + more) && ParseResponse(data + more) == ParseResponse(data)
  {
    var t := FindTerminator(data).value;
    TerminatorInExtension(data, more, t);
    assert (data + more)[..t] == data[..t];
    ResponseAtExtension(data, more, t, HeadLines(data, t));
  }
}
