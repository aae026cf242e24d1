/** Complete responses, from the status line to the end of the body, read from a connection cut in any way. */
module HttpResponses {
  import opened Text
  import opened HttpReader
  import opened HttpHeaders
  import HttpChunked
  import HttpContentLength
  import HttpSegmentation

  /** A status line in words. */
  function StatusText(version: string, code: nat, reason: string): string {
    version + " " + (Decimal(code) + " " + reason)
  }

  lemma WordThenRest(word: string, rest: string)
    requires word != "" && ' ' !in word
    ensures Words(word + " " + rest) == [word] + Words(rest)
  {
    SplitPlain(word, ' ');
    SplitAtSeparator(word, ' ', rest);
    assert ([word] + Split(rest, ' '))[1..] == Split(rest, ' ');
  }

  lemma StoiOfDigits(n: nat)
    requires n <= INT_MAX
    ensures Stoi(Decimal(n)) == Number(n)
  {
    var s := Decimal(n);
    DigitsRead(n, 10);
    assert IsDigit(s[0], 10);
    assert TrimLeft(s) == s && s + "" == s;
    HttpChunked.LeadingDigitsAre(s, "", 10);
  }

  /** The second word of the status line is the status. */
  lemma StatusIsRead(version: string, code: nat, reason: string)
    requires version != "" && ' ' !in version && code <= INT_MAX
    ensures StatusOf(StatusText(version, code, reason)) == Some(Number(code))
  {
    DecimalIsNot(code, ' ');
    WordThenRest(Decimal(code), reason);
    WordThenRest(version, Decimal(code) + " " + reason);
    StoiOfDigits(code);
  }

  /** A status line and header lines that the reader takes without complaint. */
  ghost predicate IsHead(status: string, code: int, lines: seq<string>) {
    IsPlain(status) && StatusOf(status) == Some(Number(code)) && ArePlain(lines) && Acceptable(lines)
  }

  /** A chunked response: status, headers and body arrive as sent, whatever the receives, a Content-Length header
      before or behind the Transfer-Encoding notwithstanding, if and only if every chunk size fits an `int`. */
  lemma ChunkedResponse(status: string, code: int, lines: seq<string>,
                        chunks: seq<HttpChunked.Chunk>, last: HttpChunked.Chunk, tail: string, pieces: seq<string>)
    requires IsHead(status, code, lines) && HasChunked(lines)
    requires HttpChunked.AreChunks(chunks) && HttpChunked.IsLast(last)
    requires Concat(pieces) == ResponseHead(status, lines) + HttpChunked.EncodeBody(chunks, last, tail)
    ensures var s := ReceiveAll(INITIAL, pieces);
            && (HttpChunked.FitsInt(chunks) <==> s.outcome == Finished && s.body == HttpChunked.Payload(chunks))
            && (HttpChunked.FitsInt(chunks) ==> s.head.status == code && s.head.headers == lines)
  {
    FramingSelected(status, lines);
    ReadResponseHead(status, lines);
    HttpChunked.ChunkedRoundTrip(INITIAL, ResponseHead(status, lines), chunks, last, tail, pieces);
    assert "" + HttpChunked.Payload(chunks) == HttpChunked.Payload(chunks);
    assert [] + lines == lines;
  }

  /** A response with Content-Length and no chunked coding: status, headers and body arrive as sent, and the body
      is complete exactly with its last byte. */
  lemma LengthResponse(status: string, code: int, lines: seq<string>, body: string, pieces: seq<string>)
    requires IsHead(status, code, lines) && !HasChunked(lines) && LastLength(lines) == Some(|body|)
    requires pieces != [] && Concat(pieces) == ResponseHead(status, lines) + body
    ensures var s := ReceiveAll(INITIAL, pieces);
            s.outcome == Finished && s.body == body && s.head.status == code && s.head.headers == lines
    ensures forall k | 0 < k < |pieces| && |Concat(pieces[..k])| < |Concat(pieces)| ::
              ReceiveAll(INITIAL, pieces[..k]).outcome == Reading
  {
    FramingSelected(status, lines);
    ReadResponseHead(status, lines);
    var head := ResponseHead(status, lines);
    HttpContentLength.ExactBody(INITIAL, head, |body|, body, pieces);
    HttpContentLength.ReadWhole(INITIAL, head, |body|, body);
    HttpContentLength.SameHead(INITIAL, head, |body|, body, pieces);
    assert [] + lines == lines;
    forall k | 0 < k < |pieces| && |Concat(pieces[..k])| < |Concat(pieces)|
      ensures ReceiveAll(INITIAL, pieces[..k]).outcome == Reading
    {
      HttpContentLength.ConcatSplit(pieces, k);
      HttpContentLength.NeverEarly(INITIAL, head, |body|, body, pieces[..k], Concat(pieces[k..]));
    }
  }

  lemma ReadUndelimited(status: string, code: int, lines: seq<string>, body: string)
    requires IsHead(status, code, lines) && !HasChunked(lines) && LastLength(lines).None?
    ensures var c := Receive(INITIAL, ResponseHead(status, lines) + body);
            && c.outcome == Reading && c.buffer == "" && c.body == body
            && c.head.status == code && c.head.headers == lines
  {
    var head := ResponseHead(status, lines);
    ReadResponseHead(status, lines);
    HttpSegmentation.ReadHeadersExtend(Extend(INITIAL, head), body);
    HttpSegmentation.ExtendTwice(INITIAL, head, body);
    var h := ReadHeaders(Extend(INITIAL, head));
    assert Extend(h, body).buffer == body;
    assert [] + lines == lines;
  }

  /** A response with neither: whatever the receives, everything behind the header section is body, and the reader
      waits for more until the peer disconnects. */
  lemma UndelimitedResponse(status: string, code: int, lines: seq<string>, body: string, pieces: seq<string>)
    requires IsHead(status, code, lines) && !HasChunked(lines) && LastLength(lines).None?
    requires pieces != [] && Concat(pieces) == ResponseHead(status, lines) + body
    ensures var s := ReceiveAll(INITIAL, pieces);
            && s.outcome == Reading && s.buffer == "" && s.body == body
            && s.head.status == code && s.head.headers == lines
  {
    ReadUndelimited(status, code, lines, body);
    HttpSegmentation.AnySegmentation(INITIAL, pieces);
  }
}
