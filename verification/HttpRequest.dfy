/** The request that `Request::send` writes, and what a header reader makes of it. */
module HttpRequest {
  import opened Text
  import opened HttpReader
  import opened HttpHeaders
  import HttpChunked

  function HostLine(domain: string): string { "Host: " + domain }

  function LengthLine(n: nat): string { "Content-Length: " + Decimal(n) }

  function RequestLine(verb: string, path: string): string { verb + " " + path + " HTTP/1.1" }

  /** All header lines of a request: the caller's, then Host, then Content-Length. */
  function RequestHeaders(headers: seq<string>, domain: string, length: nat): seq<string> {
    headers + [HostLine(domain), LengthLine(length)]
  }

  function Serialised(verb: string, path: string, headers: seq<string>, domain: string, body: string): string {
    RequestLine(verb, path) + CRLF + Block(RequestHeaders(headers, domain, |body|), body)
  }

  function Lines(lines: seq<string>): string {
    if lines == [] then "" else Lines(lines[..|lines| - 1]) + lines[|lines| - 1] + CRLF
  }

  lemma {:induction false} BlockIsLines(lines: seq<string>, more: seq<string>, rest: string)
    ensures Block(lines + more, rest) == Lines(lines) + Block(more, rest)
    decreases |lines|
  {
    if lines == [] {
      assert lines + more == more;
    } else {
      var front, last := lines[..|lines| - 1], lines[|lines| - 1];
      assert lines + more == front + ([last] + more);
      BlockIsLines(front, [last] + more, rest);
      assert ([last] + more)[1..] == more;
    }
  }

  lemma LinesNext(headers: seq<string>, i: nat)
    requires i < |headers|
    ensures Lines(headers[..i + 1]) == Lines(headers[..i]) + headers[i] + CRLF
  {
    assert headers[..i + 1][..i] == headers[..i];
  }

  lemma SerialisedIs(verb: string, path: string, headers: seq<string>, domain: string, body: string)
    ensures Serialised(verb, path, headers, domain, body)
         == RequestLine(verb, path) + CRLF
            + (Lines(headers) + (HostLine(domain) + CRLF + (LengthLine(|body|) + CRLF + (CRLF + body))))
  {
    var host, length := HostLine(domain), LengthLine(|body|);
    BlockIsLines(headers, [host, length], body);
    assert [host, length][1..] == [length] && [length][1..] == [];
    assert Block([host, length], body) == host + CRLF + Block([length], body);
  }

  lemma Regroup(start: string, lines: string, host: string, length: string, body: string)
    ensures start + lines + (host + CRLF + length + CRLF + CRLF) + body
         == start + (lines + (host + CRLF + (length + CRLF + (CRLF + body))))
  {
  }

  /** The serialiser of the source: text is appended piece by piece. */
  method Serialise(verb: string, path: string, headers: seq<string>, domain: string, body: string)
    returns (requestData: string)
    ensures requestData == Serialised(verb, path, headers, domain, body)
  {
    var headerData := verb + " " + path + " HTTP/1.1\r\n";
    ghost var start := headerData;
    for i := 0 to |headers|
      invariant headerData == start + Lines(headers[..i])
    {
      LinesNext(headers, i);
      headerData := headerData + (headers[i] + "\r\n");
    }
    assert headers[..|headers|] == headers;
    assert start == RequestLine(verb, path) + CRLF;
    SerialisedIs(verb, path, headers, domain, body);
    Regroup(start, Lines(headers), HostLine(domain), LengthLine(|body|), body);
    headerData := headerData + (HostLine(domain) + CRLF + LengthLine(|body|) + CRLF + CRLF);
    requestData := headerData + body;
  }

  /** The length printed is the length parsed. */
  lemma LengthLineReads(n: nat)
    requires n <= MAX_SIZE
    ensures FieldOf(LengthLine(n)) == Length(n)
  {
    var value := Decimal(n);
    DigitsRead(n, 10);
    assert LengthLine(n) == "Content-Length" + ":" + (" " + value);
    NamedField("Content-Length", " " + value);
    TrimsTo(value);
    assert value + "" == value;
    HttpChunked.StoulOfDigits(value, "", 10);
  }

  lemma TrimsTo(value: string)
    requires value != "" && !IsSpace(value[0]) && !IsSpace(value[|value| - 1])
    ensures Trim(" " + value) == value
  {
    assert (" " + value)[1..] == value;
    assert TrimLeft(value) == value;
    assert TrimLeft(" " + value) == value;
  }

  lemma HostLineIsOther(domain: string)
    ensures FieldOf(HostLine(domain)) == Other
  {
    NamesAreExact(HostLine(domain));
    assert HostLine(domain)[0] == 'H';
  }

  lemma LengthLineIsPlain(n: nat)
    ensures IsPlain(LengthLine(n))
  {
    hide Decimal;
    DecimalIsNot(n, '\r');
    WithoutCr(LengthLine(n));
  }

  lemma HostLineIsPlain(domain: string)
    ensures IsPlain(HostLine(domain)) <==> !Contains(domain, CRLF)
  {
    var line := HostLine(domain);
    forall j | 0 <= j ensures At(domain, CRLF, j) <==> At(line, CRLF, j + 6) {
      if j <= |domain| - 2 {
        assert domain[j..j + 2] == line[j + 6..j + 8];
      }
    }
    forall j | j < 6 ensures !At(line, CRLF, j) {
      if 0 <= j < |line| - 1 {
        assert line[j..j + 2][0] == line[j];
      }
    }
    if Contains(line, CRLF) {
      var j :| At(line, CRLF, j);
      assert At(domain, CRLF, j - 6);
    }
  }

  lemma LineIsKept(h: Head, line: string)
    requires ArePlain(h.headers) && !Contains(line, CRLF)
    ensures ArePlain(HeadAfter(h, line).head.headers)
  {
    var longer := h.headers + [line];
    forall i | 0 <= i < |longer| && line != "" ensures IsPlain(longer[i]) {
      assert i < |h.headers| ==> IsPlain(h.headers[i]);
    }
  }

  /** Every header line read is plain, whatever the stream. */
  lemma {:induction false} HeadersReadArePlain(r: Reader)
    requires ArePlain(r.head.headers)
    ensures ArePlain(ReadHeaders(r).head.headers)
    decreases |r.buffer|
  {
    if !r.head.parsedHeaders && r.outcome == Reading {
      match Find(r.buffer, CRLF)
      case None =>
      case Some(i) =>
        FoundLineIsPlain(r.buffer);
        LineIsKept(r.head, r.buffer[..i]);
        HeadersReadArePlain(Line(Drop(r, i + 2), r.buffer[..i]));
    }
  }

  /** A reader that has taken the request line, with the rest of a request waiting. */
  function BehindRequestLine(headers: seq<string>, domain: string, body: string): Reader {
    INITIAL.(head := INITIAL.head.(firstLine := false), buffer := Block(RequestHeaders(headers, domain, |body|), body))
  }

  /** The request read back: all the header lines in order, the length of the body, and the body left in the buffer. */
  predicate ReadsBack(h: Reader, headers: seq<string>, domain: string, body: string) {
    && h.outcome == Reading && h.head.parsedHeaders && h.head.headers == RequestHeaders(headers, domain, |body|)
    && h.head.contentLengthReceived && h.head.contentLength == |body| && h.buffer == body
  }

  /** A request reads back if and only if the caller's headers are non-empty lines that a reader accepts
      and neither they nor the domain hold a CRLF. */
  lemma RequestReadBack(headers: seq<string>, domain: string, body: string)
    requires |body| <= MAX_SIZE
    ensures ReadsBack(ReadHeaders(BehindRequestLine(headers, domain, body)), headers, domain, body)
       <==> ArePlain(headers) && Acceptable(headers) && !Contains(domain, CRLF)
  {
    var r, lines := BehindRequestLine(headers, domain, body), RequestHeaders(headers, domain, |body|);
    var h := ReadHeaders(r);
    PlainLines(headers, domain, |body|);
    AcceptableLines(headers, domain, |body|);
    LengthComesLast(headers, domain, |body|);
    HeadersReadArePlain(r);
    if ArePlain(lines) {
      ReadBlock(r, lines, body);
      assert [] + lines == lines;
    }
  }

  lemma PlainLines(headers: seq<string>, domain: string, n: nat)
    ensures ArePlain(RequestHeaders(headers, domain, n)) <==> ArePlain(headers) && !Contains(domain, CRLF)
  {
    var lines := RequestHeaders(headers, domain, n);
    HostLineIsPlain(domain);
    LengthLineIsPlain(n);
    assert lines[|headers|] == HostLine(domain) && lines[|headers| + 1] == LengthLine(n);
    assert forall i | 0 <= i < |headers| :: lines[i] == headers[i];
  }

  lemma AcceptableNext(lines: seq<string>, line: string)
    ensures Acceptable(lines + [line]) <==> Acceptable(lines) && ThrownBy(FieldOf(line)).None?
  {
    hide ThrownBy, FieldOf;
    var longer := lines + [line];
    assert longer[|lines|] == line;
    assert forall i | 0 <= i < |lines| :: longer[i] == lines[i];
  }

  lemma AcceptableLines(headers: seq<string>, domain: string, n: nat)
    requires n <= MAX_SIZE
    ensures Acceptable(RequestHeaders(headers, domain, n)) <==> Acceptable(headers)
  {
    hide FieldOf, Acceptable, HostLine, LengthLine;
    HostLineIsOther(domain);
    LengthLineReads(n);
    AcceptableNext(headers, HostLine(domain));
    AcceptableNext(headers + [HostLine(domain)], LengthLine(n));
    assert RequestHeaders(headers, domain, n) == headers + [HostLine(domain)] + [LengthLine(n)];
  }

  lemma LengthComesLast(headers: seq<string>, domain: string, n: nat)
    requires n <= MAX_SIZE
    ensures LastLength(RequestHeaders(headers, domain, n)) == Some(n)
  {
    hide FieldOf, LengthLine;
    LengthLineReads(n);
    assert RequestHeaders(headers, domain, n)[|headers| + 1] == LengthLine(n);
  }

  // The text of a request

  /** Every request, letter for letter. */
  lemma RequestText(verb: string, path: string, headers: seq<string>, domain: string, body: string)
    ensures Serialised(verb, path, headers, domain, body)
         == verb + " " + path + " HTTP/1.1\r\n" + Lines(headers)
            + "Host: " + domain + "\r\nContent-Length: " + Decimal(|body|) + "\r\n\r\n" + body
  {
    hide Decimal, Lines, Block;
    SerialisedIs(verb, path, headers, domain, body);
    var start, lines := verb + " " + path + " HTTP/1.1", Lines(headers);
    assert start + CRLF == verb + " " + path + " HTTP/1.1\r\n";
    Spelled(start + CRLF, lines, domain, Decimal(|body|), body);
  }

  lemma Spelled(start: string, lines: string, domain: string, length: string, body: string)
    ensures start + lines + "Host: " + domain + "\r\nContent-Length: " + length + "\r\n\r\n" + body
         == start + (lines + (("Host: " + domain) + CRLF + (("Content-Length: " + length) + CRLF + (CRLF + body))))
  {
    assert "\r\nContent-Length: " == CRLF + "Content-Length: " && "\r\n\r\n" == CRLF + CRLF;
  }

  /** The request line comes first. */
  lemma StartsWithRequestLine(verb: string, path: string, headers: seq<string>, domain: string, body: string)
    ensures verb + " " + path + " HTTP/1.1\r\n" <= Serialised(verb, path, headers, domain, body)
  {
    RequestText(verb, path, headers, domain, body);
  }

  lemma SpaceKeepsPlain(a: string, b: string)
    requires !Contains(a, CRLF) && !Contains(b, CRLF)
    ensures !Contains(a + " " + b, CRLF)
  {
    var s, n := a + " " + b, |a|;
    forall j ensures !At(s, CRLF, j) {
      assert !At(a, CRLF, j) && !At(b, CRLF, j - n - 1);
      if 0 <= j <= |s| - 2 {
        if j + 2 <= n {
          assert s[j..j + 2] == a[j..j + 2];
        } else if j > n {
          assert s[j..j + 2] == b[j - n - 1..j - n + 1];
        } else {
          assert s[j..j + 2][n - j] == ' ';
        }
      }
    }
  }

  lemma ThreeWords(a: string, b: string, c: string)
    requires ' ' !in a && ' ' !in b && ' ' !in c
    ensures Split(a + " " + b + " " + c, ' ') == [a, b, c]
  {
    hide Split;
    var rest := b + [' '] + c;
    assert a + " " + b + " " + c == a + [' '] + rest;
    SplitAtSeparator(a, ' ', rest);
    SplitAtSeparator(b, ' ', c);
    SplitPlain(a, ' ');
    SplitPlain(b, ' ');
    SplitPlain(c, ' ');
    assert [a] + ([b] + [c]) == [a, b, c];
  }

  /** The request line read back: the text before the first CRLF is the method, the path and the version. */
  lemma RequestLineReadBack(verb: string, path: string, headers: seq<string>, domain: string, body: string)
    requires ' ' !in verb && ' ' !in path && !Contains(verb, CRLF) && !Contains(path, CRLF)
    ensures var text := Serialised(verb, path, headers, domain, body);
            var end := Find(text, CRLF);
            end.Some? && Split(text[..end.value], ' ') == [verb, path, "HTTP/1.1"]
  {
    hide Serialised, Lines, Decimal, Find, Split;
    var text, line := Serialised(verb, path, headers, domain, body), verb + " " + path + " HTTP/1.1";
    StartsWithRequestLine(verb, path, headers, domain, body);
    SpaceKeepsPlain(verb, path);
    WithoutCr("HTTP/1.1");
    SpaceKeepsPlain(verb + " " + path, "HTTP/1.1");
    assert line == verb + " " + path + " " + "HTTP/1.1";
    assert line + CRLF == verb + " " + path + " HTTP/1.1\r\n";
    var rest := text[|line| + 2..];
    assert text == line + CRLF + rest;
    FindLineEnd(line, rest);
    assert text[..|line|] == line;
    ThreeWords(verb, path, "HTTP/1.1");
  }

  /** Host and Content-Length read back by name: the two lines behind the caller's. */
  lemma HostReadBack(headers: seq<string>, domain: string, n: nat)
    ensures var lines := RequestHeaders(headers, domain, n);
            var host, length := lines[|headers|], lines[|headers| + 1];
            && FindChar(host, ':') == Some(4) && host[..4] == "Host" && host[5..] == " " + domain
            && FindChar(length, ':') == Some(14) && length[..14] == "Content-Length" && length[15..] == " " + Decimal(n)
  {
    hide FindChar, Decimal;
    var host, length := "Host: " + domain, "Content-Length: " + Decimal(n);
    var lines := RequestHeaders(headers, domain, n);
    assert lines[|headers|] == host && lines[|headers| + 1] == length;
    assert host == "Host" + [':'] + (" " + domain) && length == "Content-Length" + [':'] + (" " + Decimal(n));
    FindCharAfter("Host", ':', " " + domain);
    FindCharAfter("Content-Length", ':', " " + Decimal(n));
    assert host[..4] == "Host" && host[5..] == " " + domain;
    assert length[..14] == "Content-Length" && length[15..] == " " + Decimal(n);
  }
}
