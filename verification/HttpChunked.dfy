/** The chunked coding (section 4.1 of RFC 7230) read back by the reader, cut in any way. */
module HttpChunked {
  import opened Text
  import opened HttpReader
  import opened HttpSegmentation

  /** A chunk: its size in hexadecimal digits of either case with any leading zeros, an optional
      extension, and its data, which may hold any byte. */
  datatype Chunk = Chunk(size: string, extension: string, data: string)

  ghost predicate SizeLineOk(c: Chunk) {
    && c.size != "" && AllDigits(c.size, 16) && Value(c.size, 16) == |c.data|
    && (c.extension == "" || c.extension[0] == ';') && !Contains(c.extension, CRLF)
  }

  ghost predicate IsChunk(c: Chunk) { SizeLineOk(c) && c.data != "" }

  ghost predicate IsLast(c: Chunk) { SizeLineOk(c) && c.data == "" }

  ghost predicate AreChunks(chunks: seq<Chunk>) {
    forall i | 0 <= i < |chunks| :: IsChunk(chunks[i])
  }

  function SizeText(c: Chunk): string { c.size + c.extension }

  function EncodeChunk(c: Chunk, rest: string): string {
    SizeText(c) + CRLF + (c.data + CRLF + rest)
  }

  function Encode(chunks: seq<Chunk>, rest: string): string {
    if chunks == [] then rest else EncodeChunk(chunks[0], Encode(chunks[1..], rest))
  }

  /** A chunked body up to and including the line of its last chunk. */
  function EncodeBody(chunks: seq<Chunk>, last: Chunk, tail: string): string {
    Encode(chunks, SizeText(last) + CRLF + tail)
  }

  function Payload(chunks: seq<Chunk>): string {
    if chunks == [] then "" else chunks[0].data + Payload(chunks[1..])
  }

  /** Chunks whose size survives the conversion to `int`. */
  predicate FitsInt(chunks: seq<Chunk>) {
    forall i | 0 <= i < |chunks| :: |chunks[i].data| <= INT_MAX
  }

  // Reading one size line

  lemma {:induction false} LeadingDigitsAre(digits: string, rest: string, base: nat)
    requires IsBase(base) && AllDigits(digits, base)
    requires rest != "" ==> !IsDigit(rest[0], base)
    ensures LeadingDigits(digits + rest, base) == digits
  {
    if digits != "" {
      assert (digits + rest)[1..] == digits[1..] + rest;
      LeadingDigitsAre(digits[1..], rest, base);
    } else {
      assert digits + rest == rest;
    }
  }

  lemma MagnitudeOfDigits(digits: string, rest: string, base: nat)
    requires IsBase(base) && digits != "" && AllDigits(digits, base)
    requires rest != "" ==> !IsDigit(rest[0], base) && rest[0] != 'x' && rest[0] != 'X'
    ensures Magnitude(digits + rest, base) == Number(Value(digits, base))
  {
    var s := digits + rest;
    assert |s| > 1 ==> s[1] == if |digits| > 1 then digits[1] else rest[0];
    LeadingDigitsAre(digits, rest, base);
  }

  /** A number in digits, followed by something that is neither a digit nor, after a lone zero, an `x`. */
  lemma StoulOfDigits(digits: string, rest: string, base: nat)
    requires IsBase(base) && digits != "" && AllDigits(digits, base)
    requires rest != "" ==> !IsDigit(rest[0], base) && rest[0] != 'x' && rest[0] != 'X'
    ensures var value := Value(digits, base);
            Stoul(digits + rest, base) == if value <= ULONG_MAX then Number(value) else TooLarge
  {
    var s := digits + rest;
    assert s[0] == digits[0] && IsDigit(s[0], base);
    assert TrimLeft(s) == s;
    MagnitudeOfDigits(digits, rest, base);
  }

  lemma SizeTextReads(c: Chunk)
    requires SizeLineOk(c)
    ensures Stoul(SizeText(c), 16) == if |c.data| <= ULONG_MAX then Number(|c.data|) else TooLarge
  {
    StoulOfDigits(c.size, c.extension, 16);
  }

  lemma SizeTextPlain(c: Chunk)
    requires SizeLineOk(c)
    ensures !Contains(SizeText(c), CRLF)
  {
    var s, n := SizeText(c), |c.size|;
    forall j ensures !At(s, CRLF, j) {
      if 0 <= j < n {
        assert s[j] == c.size[j] && IsDigit(c.size[j], 16);
        StartsOtherwise(s, CRLF, j);
      } else if n <= j <= |s| - 2 {
        assert !At(c.extension, CRLF, j - n);
        assert s[j..j + 2] == c.extension[j - n..j - n + 2];
      }
    }
  }

  /** The reader stands between chunks, with `stream` to come. */
  predicate Between(r: Reader, stream: string) {
    && r.outcome == Reading && r.expectedChunkSize == 0
    && r.buffer == if r.removeCrlf then CRLF + stream else stream
  }

  lemma SizeStepReads(r: Reader, c: Chunk, rest: string)
    requires SizeLineOk(c) && Between(r, SizeText(c) + CRLF + rest)
    ensures var (r', more) := SizeStep(r);
            && r'.buffer == rest && r'.body == r.body && !r'.removeCrlf && more == (0 < |c.data| <= ULONG_MAX)
            && r'.outcome == (if c.data == "" then Finished
                              else if |c.data| <= ULONG_MAX then Reading else Failed(OutOfRange))
            && (more ==> r'.expectedChunkSize == |c.data|)
  {
    SizeTextReads(c);
    SizeTextPlain(c);
    FindLineEnd(SizeText(c), rest);
    var stream := SizeText(c) + CRLF + rest;
    assert (CRLF + stream)[2..] == stream;
    var r1 := Trimmed(r);
    assert r1.buffer == stream;
    assert stream[..|SizeText(c)|] == SizeText(c) && stream[|SizeText(c)| + 2..] == rest;
  }

  /** The data of a chunk whose size fits an `int` moves to the body in one iteration. */
  lemma DataStepMoves(r: Reader, data: string, rest: string)
    requires r.outcome == Reading && 0 < r.expectedChunkSize == |data| <= INT_MAX && r.buffer == data + CRLF + rest
    ensures var (r', more) := DataStep(r);
            more && Between(r', rest) && r'.removeCrlf && r'.body == r.body + data
  {
    assert (data + CRLF + rest)[|data|..] == CRLF + rest;
    assert (data + CRLF + rest)[..|data|] == data;
  }

  /** A chunk of 2^31 bytes or more is copied up to a multiple of 2^32 bytes that remain, or not at all. */
  lemma NarrowLeaves(n: nat)
    requires n > INT_MAX
    ensures Narrow(n) > 0 ==> Narrow(n) <= INT_MAX && Narrow(n - Narrow(n)) == 0 && n - Narrow(n) > 0
  {
  }

  lemma NothingMoves(r: Reader)
    requires r.outcome == Reading && r.expectedChunkSize > 0 && Narrow(r.expectedChunkSize) <= 0 && r.buffer != ""
    ensures var broken := if Narrow(r.expectedChunkSize) == 0 then EndlessLoop else ReversedRange;
            ReadChunks(r).outcome == Failed(broken)
  {
  }

  lemma SomeMoves(r: Reader)
    requires r.outcome == Reading && 0 < Narrow(r.expectedChunkSize) < r.expectedChunkSize
    requires Narrow(r.expectedChunkSize) < |r.buffer|
    ensures var (r', more) := DataStep(r);
            && more && r'.outcome == Reading && r'.buffer != "" && ReadChunks(r) == ReadChunks(r')
            && r'.expectedChunkSize == r.expectedChunkSize - Narrow(r.expectedChunkSize)
  {
  }

  /** From 2^31 bytes on, a chunk cannot be read. */
  lemma DataStepBreaks(r: Reader)
    requires r.outcome == Reading && INT_MAX < r.expectedChunkSize <= |r.buffer|
    ensures ReadChunks(r).outcome.Failed?
  {
    hide ReadChunks, DataStep;
    NarrowLeaves(r.expectedChunkSize);
    if Narrow(r.expectedChunkSize) > 0 {
      SomeMoves(r);
      NothingMoves(DataStep(r).0);
    } else {
      NothingMoves(r);
    }
  }

  /** Reading one chunk: the data is appended to the body and the reader stands behind it,
      unless the size is too large. */
  lemma ReadOne(r: Reader, c: Chunk, rest: string) returns (r2: Reader)
    requires IsChunk(c) && Between(r, EncodeChunk(c, rest))
    ensures if |c.data| <= INT_MAX
            then Between(r2, rest) && r2.body == r.body + c.data && ReadChunks(r) == ReadChunks(r2)
            else ReadChunks(r).outcome.Failed?
  {
    SizeStepReads(r, c, c.data + CRLF + rest);
    var (r1, more) := SizeStep(r);
    r2 := r1;
    if |c.data| <= INT_MAX {
      DataStepMoves(r1, c.data, rest);
      r2 := DataStep(r1).0;
    } else if |c.data| <= ULONG_MAX {
      DataStepBreaks(r1);
    }
  }

  lemma ReadLast(r: Reader, last: Chunk, tail: string)
    requires IsLast(last) && Between(r, SizeText(last) + CRLF + tail)
    ensures var c := ReadChunks(r); c.outcome == Finished && c.body == r.body && c.buffer == tail
  {
    SizeStepReads(r, last, tail);
  }

  lemma PayloadHead(body: string, chunks: seq<Chunk>)
    requires chunks != []
    ensures body + chunks[0].data + Payload(chunks[1..]) == body + Payload(chunks)
  {
  }

  lemma FitsIntTail(chunks: seq<Chunk>)
    requires chunks != []
    ensures FitsInt(chunks) <==> |chunks[0].data| <= INT_MAX && FitsInt(chunks[1..])
  {
    if FitsInt(chunks[1..]) && |chunks[0].data| <= INT_MAX {
      forall i | 0 <= i < |chunks| ensures |chunks[i].data| <= INT_MAX {
        assert i > 0 ==> chunks[i] == chunks[1..][i - 1];
      }
    }
  }

  /** Reading the coding of a list of chunks, all in the buffer: it succeeds exactly when every size fits an `int`. */
  lemma {:induction false} ReadEncoded(r: Reader, chunks: seq<Chunk>, last: Chunk, tail: string)
    requires AreChunks(chunks) && IsLast(last) && Between(r, EncodeBody(chunks, last, tail))
    ensures var c := ReadChunks(r);
            if FitsInt(chunks) then c.outcome == Finished && c.body == r.body + Payload(chunks) && c.buffer == tail
            else c.outcome.Failed?
    decreases |chunks|
  {
    if chunks == [] {
      ReadLast(r, last, tail);
    } else {
      var c := chunks[0];
      FitsIntTail(chunks);
      var r2 := ReadOne(r, c, EncodeBody(chunks[1..], last, tail));
      if |c.data| <= INT_MAX {
        ReadEncoded(r2, chunks[1..], last, tail);
        PayloadHead(r.body, chunks);
      }
    }
  }

  // Whole responses

  /** `head` is a header section that selects the chunked coding, for a reader in state `r0`. */
  predicate SelectsChunks(r0: Reader, head: string) {
    var h := ReadHeaders(Extend(r0, head));
    && r0.outcome == Reading && h.outcome == Reading && h.head.parsedHeaders && h.head.chunked
    && h.buffer == "" && h.expectedChunkSize == 0 && !h.removeCrlf
  }

  lemma ReadWhole(r0: Reader, head: string, chunks: seq<Chunk>, last: Chunk, tail: string)
    requires SelectsChunks(r0, head) && AreChunks(chunks) && IsLast(last)
    ensures var h, c := ReadHeaders(Extend(r0, head)), Receive(r0, head + EncodeBody(chunks, last, tail));
            c.head == h.head
            && if FitsInt(chunks) then c.outcome == Finished && c.body == h.body + Payload(chunks) && c.buffer == tail
               else c.outcome.Failed?
  {
    var h, e := ReadHeaders(Extend(r0, head)), EncodeBody(chunks, last, tail);
    ReadHeadersExtend(Extend(r0, head), e);
    ExtendTwice(r0, head, e);
    var started := Extend(h, e);
    assert started.buffer == e;
    ReadEncoded(started, chunks, last, tail);
    ReadChunksKeeps(started);
  }

  /** A chunked response, cut into receives in any way, gives the data of the chunks
      if and only if the size of every chunk fits an `int`. */
  lemma ChunkedRoundTrip(r0: Reader, head: string, chunks: seq<Chunk>, last: Chunk, tail: string, pieces: seq<string>)
    requires SelectsChunks(r0, head) && AreChunks(chunks) && IsLast(last)
    requires Concat(pieces) == head + EncodeBody(chunks, last, tail)
    ensures var h, s := ReadHeaders(Extend(r0, head)), ReceiveAll(r0, pieces);
            && (FitsInt(chunks) <==> s.outcome == Finished && s.body == h.body + Payload(chunks))
            && (FitsInt(chunks) ==> s.head == h.head && s.buffer <= tail)
            && (!FitsInt(chunks) ==> s.outcome.Failed?)
  {
    ReadWhole(r0, head, chunks, last, tail);
    EncodeNonEmpty(chunks, SizeText(last) + CRLF + tail);
    assert pieces != [];
    AnySegmentation(r0, pieces);
  }

  lemma EncodeNonEmpty(chunks: seq<Chunk>, rest: string)
    requires rest != ""
    ensures Encode(chunks, rest) != ""
  {
  }

  /** Before the end of the line of the last chunk nothing is finished, and the body so far is a prefix of the data. */
  lemma NeverEarly(r0: Reader, head: string, chunks: seq<Chunk>, last: Chunk, pieces: seq<string>, missing: string)
    requires SelectsChunks(r0, head) && AreChunks(chunks) && IsLast(last) && FitsInt(chunks)
    requires pieces != [] && missing != "" && Concat(pieces) + missing == head + EncodeBody(chunks, last, "")
    ensures var h, s := ReadHeaders(Extend(r0, head)), ReceiveAll(r0, pieces);
            s.outcome == Reading && s.body <= h.body + Payload(chunks)
  {
    ReadWhole(r0, head, chunks, last, "");
    AnySegmentation(r0, pieces);
    ReceiveSplit(r0, Concat(pieces), missing);
    var s := Receive(r0, Concat(pieces));
    if s.outcome == Reading {
      ReceiveGrows(s, missing);
    }
  }

  /** The size line of every chunk can be written: `Digits` prints it. */
  lemma PrintedChunk(data: string)
    requires data != ""
    ensures IsChunk(Chunk(Digits(|data|, 16), "", data))
  {
    DigitsRead(|data|, 16);
  }

  /** The smallest chunk the reader cannot read: 2^31 bytes, correctly encoded. */
  lemma ChunkTooLarge()
    ensures var c := Chunk(Digits(INT_MAX + 1, 16), "", seq(INT_MAX + 1, i => 'x'));
            IsChunk(c) && forall r, last, tail | IsLast(last) && Between(r, EncodeBody([c], last, tail)) ::
              ReadChunks(r).outcome.Failed?
  {
    var c := Chunk(Digits(INT_MAX + 1, 16), "", seq(INT_MAX + 1, i => 'x'));
    PrintedChunk(c.data);
    assert !FitsInt([c]) by {
      assert |[c][0].data| > INT_MAX;
    }
    forall r, last, tail | IsLast(last) && Between(r, EncodeBody([c], last, tail))
      ensures ReadChunks(r).outcome.Failed?
    {
      ReadEncoded(r, [c], last, tail);
    }
  }
}
