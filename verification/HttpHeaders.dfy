/** Header sections: what the reader makes of a block of lines, and the request written and read back. */
module HttpHeaders {
  import opened Text
  import opened HttpReader
  import HttpChunked
  import HttpContentLength

  /** Lines, each ended by CRLF, then the empty line and what follows it. */
  function Block(lines: seq<string>, rest: string): string {
    if lines == [] then CRLF + rest else lines[0] + CRLF + Block(lines[1..], rest)
  }

  ghost predicate IsPlain(line: string) { line != "" && !Contains(line, CRLF) }

  ghost predicate ArePlain(lines: seq<string>) {
    forall i | 0 <= i < |lines| :: IsPlain(lines[i])
  }

  /** None of the lines makes the reader throw. */
  predicate Acceptable(lines: seq<string>) {
    forall i | 0 <= i < |lines| :: ThrownBy(FieldOf(lines[i])).None?
  }

  predicate HasChunked(lines: seq<string>) {
    exists i | 0 <= i < |lines| :: FieldOf(lines[i]).Chunked?
  }

  /** The length announced last. */
  function LastLength(lines: seq<string>): Option<nat> {
    if lines == [] then None
    else
      var last := FieldOf(lines[|lines| - 1]);
      if last.Length? then Some(last.length) else LastLength(lines[..|lines| - 1])
  }

  /** The head behind a block of acceptable lines. */
  function HeadBehind(h: Head, lines: seq<string>): Head {
    var n := LastLength(lines);
    h.(parsedHeaders := true, headers := h.headers + lines, chunked := h.chunked || HasChunked(lines),
       contentLengthReceived := h.contentLengthReceived || n.Some?,
       contentLength := if n.Some? then n.value else h.contentLength)
  }

  lemma {:induction false} LastLengthHead(lines: seq<string>)
    requires lines != []
    ensures var n, field := LastLength(lines[1..]), FieldOf(lines[0]);
            LastLength(lines) == if n.Some? then n else if field.Length? then Some(field.length) else None
  {
    if |lines| == 1 {
      assert lines[..0] == [] && lines[1..] == [];
    } else {
      assert lines[1..][|lines| - 2] == lines[|lines| - 1];
      assert lines[1..][..|lines| - 2] == lines[..|lines| - 1][1..];
      LastLengthHead(lines[..|lines| - 1]);
    }
  }

  lemma HeadBehindHead(h: Head, lines: seq<string>)
    requires lines != []
    ensures HeadBehind(HeaderLine(h, lines[0]).head, lines[1..]) == HeadBehind(h, lines)
  {
    LastLengthHead(lines);
    assert h.headers + [lines[0]] + lines[1..] == h.headers + lines;
    assert HasChunked(lines) <==> FieldOf(lines[0]).Chunked? || HasChunked(lines[1..]) by {
      forall i | 0 <= i < |lines| ensures i > 0 ==> lines[i] == lines[1..][i - 1] {}
    }
  }

  lemma AcceptableTail(lines: seq<string>)
    requires lines != []
    ensures Acceptable(lines) <==> ThrownBy(FieldOf(lines[0])).None? && Acceptable(lines[1..])
  {
    forall i | 0 <= i < |lines| ensures i > 0 ==> lines[i] == lines[1..][i - 1] {}
  }

  /** The first line of the buffer is taken off. */
  lemma TakesLine(r: Reader, line: string, rest: string)
    requires r.outcome == Reading && !r.head.parsedHeaders && !Contains(line, CRLF) && r.buffer == line + CRLF + rest
    ensures var r' := Drop(r, |line| + 2);
            r'.buffer == rest && ReadHeaders(r) == ReadHeaders(Line(r', line))
  {
    FindLineEnd(line, rest);
    assert (line + CRLF + rest)[|line| + 2..] == rest;
    assert (line + CRLF + rest)[..|line|] == line;
  }

  /** What may differ between two readers that have read the same header section is only the history. */
  predicate Behind(r: Reader, h: Reader, head: Head, rest: string) {
    && h.outcome == Reading && h.head == head && h.buffer == rest && h.body == r.body
    && h.expectedChunkSize == r.expectedChunkSize && h.removeCrlf == r.removeCrlf
  }

  /** A block of plain lines is read line by line, and fails exactly when a line is refused. */
  lemma {:induction false} ReadBlock(r: Reader, lines: seq<string>, rest: string)
    requires r.outcome == Reading && !r.head.parsedHeaders && !r.head.firstLine
    requires ArePlain(lines) && r.buffer == Block(lines, rest)
    ensures var h := ReadHeaders(r);
            if Acceptable(lines) then Behind(r, h, HeadBehind(r.head, lines), rest) else h.outcome.Failed?
    decreases |lines|
  {
    if lines == [] {
      ReadEmptyLine(r, rest);
    } else {
      var line := lines[0];
      assert IsPlain(line);
      TakesLine(r, line, Block(lines[1..], rest));
      AcceptableTail(lines);
      var r' := Line(Drop(r, |line| + 2), line);
      if ThrownBy(FieldOf(line)).None? {
        HeadBehindHead(r.head, lines);
        ReadBlock(r', lines[1..], rest);
      }
    }
  }

  lemma ReadEmptyLine(r: Reader, rest: string)
    requires r.outcome == Reading && !r.head.parsedHeaders && r.buffer == CRLF + rest
    ensures Behind(r, ReadHeaders(r), HeadBehind(r.head, []), rest)
  {
    assert "" + CRLF + rest == CRLF + rest;
    TakesLine(r, "", rest);
  }

  lemma LengthNameIsExact(line: string)
    ensures FieldOf(line).Length? || (FieldOf(line).Refused? && !FieldOf(line).failure.UnsupportedEncoding?)
       <==> "Content-Length:" <= line
  {
    hide Stoul, Trim, FindChar;
    NameIs(line, "Content-Length");
  }

  lemma EncodingNameIsExact(line: string)
    ensures FieldOf(line).Chunked? || (FieldOf(line).Refused? && FieldOf(line).failure.UnsupportedEncoding?)
       <==> "Transfer-Encoding:" <= line
  {
    hide Stoul, Trim, FindChar;
    NameIs(line, "Transfer-Encoding");
  }

  /** A line is one of the two headers the reader knows exactly when it starts with that name, letter for letter. */
  lemma NamesAreExact(line: string)
    ensures FieldOf(line) == Other <==> !("Content-Length:" <= line) && !("Transfer-Encoding:" <= line)
    ensures FieldOf(line).Length? ==> "Content-Length:" <= line
    ensures FieldOf(line).Chunked? ==> "Transfer-Encoding:" <= line
  {
    LengthNameIsExact(line);
    EncodingNameIsExact(line);
  }

  lemma NameIs(line: string, name: string)
    requires ':' !in name
    ensures (var colon := FindChar(line, ':'); colon.Some? && line[..colon.value] == name) <==> name + ":" <= line
  {
    if name + ":" <= line {
      assert line == name + [':'] + line[|name| + 1..];
      FindCharAfter(name, ':', line[|name| + 1..]);
    }
  }

  /** A header line by its name and what follows the colon. */
  lemma NamedField(name: string, text: string)
    requires ':' !in name
    ensures FieldOf(name + ":" + text) == FieldNamed(name, Trim(text))
  {
    hide Trim, FindChar, FieldNamed;
    var line := name + ":" + text;
    assert line == name + [':'] + text;
    FindCharAfter(name, ':', text);
    assert line[..|name|] == name && line[|name| + 1..] == text;
  }

  function Lower(c: char): char {
    if 'A' <= c <= 'Z' then c + ('a' - 'A') else c
  }

  predicate SameUpToCase(a: string, b: string) {
    |a| == |b| && forall i | 0 <= i < |a| :: Lower(a[i]) == Lower(b[i])
  }

  predicate IsKnownName(name: string) { name == "Content-Length" || name == "Transfer-Encoding" }

  lemma OtherSpellingHasNoColon(name: string, known: string)
    requires IsKnownName(known) && SameUpToCase(name, known)
    ensures ':' !in name
  {
    assert ':' !in known;
    forall i | 0 <= i < |name| ensures name[i] != ':' {
      assert Lower(name[i]) == Lower(known[i]) && known[i] != ':';
    }
  }

  /** Any other spelling of a name the reader knows is an ordinary header:
      the line is kept, and nothing else happens. */
  lemma OtherSpelling(h: Head, name: string, known: string, text: string)
    requires IsKnownName(known) && SameUpToCase(name, known) && name != known
    ensures FieldOf(name + ":" + text) == Other
    ensures HeaderLine(h, name + ":" + text) == HeadResult(h.(headers := h.headers + [name + ":" + text]), None)
  {
    OtherSpellingHasNoColon(name, known);
    NamedField(name, text);
    assert |name| == |known| && |"Content-Length"| != |"Transfer-Encoding"|;
  }

  /** A response head: the status line and the block of header lines. */
  function ResponseHead(status: string, lines: seq<string>): string {
    status + CRLF + Block(lines, "")
  }

  /** From a fresh reader the head of a response is read line by line. */
  lemma ReadResponseHead(status: string, lines: seq<string>)
    requires IsPlain(status) && ArePlain(lines)
    ensures var r := StatusLine(INITIAL.head, status);
            var h := ReadHeaders(Extend(INITIAL, ResponseHead(status, lines)));
            if r.thrown.None? && Acceptable(lines) then Behind(INITIAL, h, HeadBehind(r.head, lines), "")
            else h.outcome.Failed?
  {
    var start := Extend(INITIAL, ResponseHead(status, lines));
    assert start.buffer == ResponseHead(status, lines);
    TakesLine(start, status, Block(lines, ""));
    var r := Line(Drop(start, |status| + 2), status);
    if r.outcome == Reading {
      ReadBlock(r, lines, "");
    }
  }

  /** Whatever the order of the lines, a chunked transfer coding selects the chunk reader,
      and without one the length announced last delimits the body. */
  lemma FramingSelected(status: string, lines: seq<string>)
    requires IsPlain(status) && StatusLine(INITIAL.head, status).thrown.None? && ArePlain(lines) && Acceptable(lines)
    ensures HasChunked(lines) ==> HttpChunked.SelectsChunks(INITIAL, ResponseHead(status, lines))
    ensures !HasChunked(lines) && LastLength(lines).Some? ==>
              HttpContentLength.Announces(INITIAL, ResponseHead(status, lines), LastLength(lines).value)
  {
    ReadResponseHead(status, lines);
  }
}
