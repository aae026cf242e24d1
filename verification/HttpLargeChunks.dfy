/** What `std::min<int>` makes of large chunk sizes, for arbitrary streams: when the reader breaks,
    and what it computes when it does not. */
module HttpLargeChunks {
  import opened Text
  import opened HttpReader
  import opened HttpSegmentation
  import opened HttpHeaders
  import HttpChunked
  import HttpRequest
  import HttpResponses

  const WORD := 0x1_0000_0000

  predicate IsBroken(outcome: Outcome) {
    outcome == Failed(EndlessLoop) || outcome == Failed(ReversedRange)
  }

  // One iteration

  /** The copy of no bytes is repeated for ever: it leaves everything as it is, with bytes waiting. */
  lemma EndlessIff(r: Reader)
    requires r.outcome == Reading && r.expectedChunkSize > 0
    ensures DataStep(r).0.outcome == Failed(EndlessLoop) <==> r.expectedChunkSize % WORD == 0 && r.buffer != ""
    ensures DataStep(r).0.outcome == Failed(EndlessLoop) ==> DataStep(r).0 == r.(outcome := Failed(EndlessLoop))
  {
    if r.expectedChunkSize % WORD == 0 {
      MoveNothing(r);
    }
  }

  lemma MoveNothing(r: Reader)
    ensures Move(r, 0) == r
  {
    assert Tag(r.buffer[..0], true) == [];
  }

  lemma ReversedIff(r: Reader)
    requires r.outcome == Reading && r.expectedChunkSize > 0
    ensures DataStep(r).0.outcome == Failed(ReversedRange) <==> r.expectedChunkSize % WORD > INT_MAX
  {
  }

  /** An iteration of the chunk loop: it leaves the loop, or shortens the buffer,
      or it copies nothing of a multiple of 2^32 with bytes waiting, and so does the next. */
  lemma IterationShortens(r: Reader)
    requires r.outcome == Reading
    ensures var (r', more) := ChunkStep(r);
            && (more ==> |r'.buffer| < |r.buffer|)
            && (r'.outcome == Failed(EndlessLoop) <==>
                  r.expectedChunkSize > 0 && r.expectedChunkSize % WORD == 0 && r.buffer != "")
  {
    if r.expectedChunkSize > 0 {
      EndlessIff(r);
    }
  }

  // Arbitrary streams

  /** A chunk size line of a stream: the size, and how many bytes of the stream are behind the line. */
  datatype SizeLine = SizeLine(size: nat, behind: nat)

  /** The size lines of a stream that starts with one, every size taken at its full value. */
  function SizeLines(stream: string): seq<SizeLine>
    decreases |stream|
  {
    match Find(stream, CRLF)
    case None => []
    case Some(i) =>
      var n, rest := Stoul(stream[..i], 16), stream[i + 2..];
      if !n.Number? || n.value == 0 then []
      else [SizeLine(n.value, |rest|)] + if |rest| < n.value + 2 then [] else SizeLines(rest[n.value + 2..])
  }

  /** A size that the conversion to `int` makes negative, or whose last 32 bits are used up with bytes still waiting. */
  predicate Breaks(line: SizeLine) {
    line.size > INT_MAX && (line.size % WORD > INT_MAX || line.behind > line.size % WORD)
  }

  predicate AnyBreaks(lines: seq<SizeLine>) {
    exists k | 0 <= k < |lines| :: Breaks(lines[k])
  }

  predicate HasBreak(stream: string) { AnyBreaks(SizeLines(stream)) }

  /** The body and the outcome of a chunked stream, decoded at once and without a conversion of sizes. */
  function Decoded(stream: string): (string, Outcome)
    decreases |stream|
  {
    match Find(stream, CRLF)
    case None => ("", Reading)
    case Some(i) =>
      var n, rest := Stoul(stream[..i], 16), stream[i + 2..];
      if !n.Number? then ("", Failed(NumberFailure(n)))
      else if n.value == 0 then ("", Finished)
      else if |rest| <= n.value then (rest, Reading)
      else if |rest| == n.value + 1 then (rest[..n.value], Reading)
      else
        var (body, outcome) := Decoded(rest[n.value + 2..]);
        (rest[..n.value] + body, outcome)
  }

  /** The reader stands between chunks, with `stream` behind the bytes it is still to drop. */
  predicate Stands(r: Reader, stream: string) {
    && r.outcome == Reading && r.expectedChunkSize == 0 && (r.removeCrlf ==> |r.buffer| >= 2)
    && stream == Trimmed(r).buffer
  }

  /** What is claimed of a reader that has read what is in its buffer. */
  predicate Reads(r: Reader, c: Reader, stream: string) {
    && (IsBroken(c.outcome) <==> HasBreak(stream))
    && (!HasBreak(stream) ==> c.body == r.body + Decoded(stream).0 && c.outcome == Decoded(stream).1)
  }

  lemma AnyBreaksCons(line: SizeLine, more: seq<SizeLine>)
    ensures AnyBreaks([line] + more) <==> Breaks(line) || AnyBreaks(more)
  {
    var lines := [line] + more;
    assert lines[0] == line;
    assert forall k | 0 <= k < |more| :: lines[k + 1] == more[k];
  }

  lemma SizeLinesNext(stream: string, i: nat)
    requires Find(stream, CRLF) == Some(i) && Stoul(stream[..i], 16).Number? && Stoul(stream[..i], 16).value > 0
    ensures var n, rest := Stoul(stream[..i], 16).value, stream[i + 2..];
            HasBreak(stream) <==>
              Breaks(SizeLine(n, |rest|)) || (|rest| >= n + 2 && HasBreak(rest[n + 2..]))
  {
    hide Stoul;
    var n, rest := Stoul(stream[..i], 16).value, stream[i + 2..];
    AnyBreaksCons(SizeLine(n, |rest|), if |rest| < n + 2 then [] else SizeLines(rest[n + 2..]));
  }

  lemma NoLine(stream: string)
    requires Find(stream, CRLF).None?
          || (var n := Stoul(stream[..Find(stream, CRLF).value], 16); !n.Number? || n.value == 0)
    ensures !HasBreak(stream)
  {
  }

  /** A chunk whose size fits an `int`, not all of it or no byte behind it waiting. */
  lemma SmallStarves(r: Reader)
    requires r.outcome == Reading && 0 < r.expectedChunkSize <= INT_MAX && |r.buffer| <= r.expectedChunkSize
    ensures var c := ReadChunks(r); c.outcome == Reading && c.body == r.body + r.buffer
  {
    assert r.buffer[..|r.buffer|] == r.buffer;
  }

  /** A chunk whose size fits an `int`, with more behind it. */
  lemma SmallMoves(r: Reader)
    requires r.outcome == Reading && 0 < r.expectedChunkSize <= INT_MAX && |r.buffer| > r.expectedChunkSize
    ensures var n := r.expectedChunkSize;
            var r' := Move(r, n).(expectedChunkSize := 0, removeCrlf := true);
            ReadChunks(r) == ReadChunks(r')
  {
    assert DataStep(r).1;
  }

  /** Between chunks with one byte waiting, the first of the two to drop. */
  lemma OneByte(r: Reader)
    requires r.outcome == Reading && r.expectedChunkSize == 0 && r.removeCrlf && |r.buffer| == 1
    ensures ReadChunks(r) == r
  {
  }

  /** A chunk whose size does not fit: what is waiting is taken, or the reader breaks. */
  lemma LargeReads(r: Reader)
    requires r.outcome == Reading && r.expectedChunkSize > INT_MAX
    ensures var c, n := ReadChunks(r), r.expectedChunkSize;
            if n % WORD > INT_MAX || |r.buffer| > n % WORD then IsBroken(c.outcome)
            else c.outcome == Reading && c.body == r.body + r.buffer
  {
    var n := r.expectedChunkSize;
    ReversedIff(r);
    if n % WORD <= INT_MAX {
      assert Narrow(n) == n % WORD;
      if |r.buffer| <= n % WORD {
        LargeStarves(r);
      } else {
        LargeMoves(r);
      }
    }
  }

  lemma LargeStarves(r: Reader)
    requires r.outcome == Reading && r.expectedChunkSize > INT_MAX && |r.buffer| <= Narrow(r.expectedChunkSize)
    ensures var c := ReadChunks(r); c.outcome == Reading && c.body == r.body + r.buffer
  {
    assert r.buffer[..|r.buffer|] == r.buffer;
  }

  lemma LargeMoves(r: Reader)
    requires r.outcome == Reading && r.expectedChunkSize > INT_MAX && 0 <= Narrow(r.expectedChunkSize) < |r.buffer|
    ensures IsBroken(ReadChunks(r).outcome)
  {
    hide ReadChunks, DataStep;
    HttpChunked.NarrowLeaves(r.expectedChunkSize);
    if Narrow(r.expectedChunkSize) > 0 {
      HttpChunked.SomeMoves(r);
      HttpChunked.NothingMoves(DataStep(r).0);
    } else {
      HttpChunked.NothingMoves(r);
    }
  }

  lemma StandsBehind(r: Reader)
    requires r.outcome == Reading && 0 < r.expectedChunkSize && |r.buffer| >= r.expectedChunkSize + 2
    ensures var n := r.expectedChunkSize;
            var r' := Move(r, n).(expectedChunkSize := 0, removeCrlf := true);
            Stands(r', r.buffer[n + 2..]) && r'.body == r.body + r.buffer[..n]
  {
    var n := r.expectedChunkSize;
    assert r.buffer[n..][2..] == r.buffer[n + 2..];
  }

  lemma SizeStepTakes(r: Reader, stream: string, i: nat)
    requires Stands(r, stream) && Find(stream, CRLF) == Some(i)
    ensures var n := Stoul(stream[..i], 16);
            var (r', more) := SizeStep(r);
            && r'.body == r.body && r'.buffer == stream[i + 2..] && !r'.removeCrlf
            && more == (n.Number? && n.value > 0) && (more ==> r'.expectedChunkSize == n.value)
            && r'.outcome == if !n.Number? then Failed(NumberFailure(n)) else if n.value == 0 then Finished else Reading
  {
  }

  lemma SizeStepGoesOn(r: Reader)
    requires r.outcome == Reading && r.expectedChunkSize == 0 && SizeStep(r).1
    ensures ReadChunks(r) == ReadChunks(SizeStep(r).0)
  {
  }

  lemma Regroup(a: string, b: string, c: string)
    ensures a + b + c == a + (b + c)
  {
  }

  lemma ReadsNoLine(r: Reader, stream: string)
    requires Stands(r, stream)
    requires Find(stream, CRLF).None?
          || (var n := Stoul(stream[..Find(stream, CRLF).value], 16); !n.Number? || n.value == 0)
    ensures Reads(r, ReadChunks(r), stream)
  {
    NoLine(stream);
    assert r.body + "" == r.body;
    if Find(stream, CRLF).Some? {
      SizeStepTakes(r, stream, Find(stream, CRLF).value);
    }
    assert ReadChunks(r) == SizeStep(r).0;
  }

  lemma DecodedNext(stream: string, i: nat, body: string)
    requires Find(stream, CRLF) == Some(i) && Stoul(stream[..i], 16).Number? && Stoul(stream[..i], 16).value > 0
    requires |stream| - i - 2 >= Stoul(stream[..i], 16).value + 2
    ensures var n, rest := Stoul(stream[..i], 16).value, stream[i + 2..];
            && body + Decoded(stream).0 == body + rest[..n] + Decoded(rest[n + 2..]).0
            && Decoded(stream).1 == Decoded(rest[n + 2..]).1
  {
    var n, rest := Stoul(stream[..i], 16).value, stream[i + 2..];
    Regroup(body, rest[..n], Decoded(rest[n + 2..]).0);
  }

  /** From between two chunks, for every stream. */
  lemma {:induction false} ReadAnyStream(r: Reader, stream: string)
    requires Stands(r, stream)
    ensures Reads(r, ReadChunks(r), stream)
    decreases |stream|
  {
    hide Stoul, ReadChunks, SizeStep, DataStep, Find, Decoded, HasBreak, Move;
    var found := Find(stream, CRLF);
    if found.None? || !Stoul(stream[..found.value], 16).Number? || Stoul(stream[..found.value], 16).value == 0 {
      ReadsNoLine(r, stream);
    } else {
      var i := found.value;
      var n, rest, r1 := Stoul(stream[..i], 16).value, stream[i + 2..], SizeStep(r).0;
      SizeStepTakes(r, stream, i);
      ReadAnyChunk(r1, stream, i);
      SizeStepGoesOn(r);
      if n <= INT_MAX && |rest| >= n + 2 {
        StandsBehind(r1);
        ReadAnyStream(Move(r1, n).(expectedChunkSize := 0, removeCrlf := true), rest[n + 2..]);
        DecodedNext(stream, i, r.body);
      }
    }
  }

  /** Behind a size line: the chunk is read, or the reading goes on behind it. */
  lemma ReadAnyChunk(r: Reader, stream: string, i: nat)
    requires Find(stream, CRLF) == Some(i) && r.outcome == Reading && !r.removeCrlf && r.buffer == stream[i + 2..]
    requires Stoul(stream[..i], 16) == Number(r.expectedChunkSize) && r.expectedChunkSize > 0
    ensures var n := r.expectedChunkSize;
            if n <= INT_MAX && |r.buffer| >= n + 2 then
              var r' := Move(r, n).(expectedChunkSize := 0, removeCrlf := true);
              && ReadChunks(r) == ReadChunks(r') && (HasBreak(stream) <==> HasBreak(r.buffer[n + 2..]))
            else Reads(r, ReadChunks(r), stream)
  {
    hide Stoul, ReadChunks;
    var n := r.expectedChunkSize;
    SizeLinesNext(stream, i);
    if n > INT_MAX {
      LargeReads(r);
    } else if |r.buffer| <= n {
      SmallStarves(r);
    } else {
      SmallMoves(r);
      if |r.buffer| == n + 1 {
        OneByte(Move(r, n).(expectedChunkSize := 0, removeCrlf := true));
      }
    }
  }

  // Whole connections

  lemma LineNotBroken(r: Reader, line: string)
    requires !IsBroken(r.outcome)
    ensures !IsBroken(Line(r, line).outcome)
  {
    hide Stoul, Stoi, Words, Trim, FindChar;
    match FieldOf(line)
    case Refused(failure) => RefusedBecause(line);
    case _ =>
  }

  lemma RefusedBecause(line: string)
    requires FieldOf(line).Refused?
    ensures !IsBroken(Failed(FieldOf(line).failure))
  {
    hide Stoul, Trim, FindChar;
  }

  lemma {:induction false} HeadersNotBroken(r: Reader)
    requires !IsBroken(r.outcome)
    ensures !IsBroken(ReadHeaders(r).outcome)
    decreases |r.buffer|
  {
    if !r.head.parsedHeaders && r.outcome == Reading {
      match Find(r.buffer, CRLF)
      case None =>
      case Some(i) =>
        LineNotBroken(Drop(r, i + 2), r.buffer[..i]);
        HeadersNotBroken(Line(Drop(r, i + 2), r.buffer[..i]));
    }
  }

  /** What a fresh reader makes of the header section at the start of a stream. */
  function HeadOf(stream: string): Reader { ReadHeaders(Extend(INITIAL, stream)) }

  predicate GoesToChunks(h: Reader) { h.outcome == Reading && h.head.parsedHeaders && h.head.chunked }

  lemma EmptyStream()
    ensures !GoesToChunks(HeadOf(""))
  {
    assert Extend(INITIAL, "") == INITIAL;
  }

  lemma ReceiveWhole(stream: string)
    ensures var h, s := HeadOf(stream), Receive(INITIAL, stream);
            if GoesToChunks(h) then s.head == h.head && Reads(h, s, h.buffer) && h.body == ""
            else !IsBroken(s.outcome)
  {
    var h := HeadOf(stream);
    HeadersNotBroken(Extend(INITIAL, stream));
    ReadHeadersKeeps(Extend(INITIAL, stream));
    if GoesToChunks(h) {
      ReadAnyStream(h, h.buffer);
      ReadChunksKeeps(h);
    }
  }

  /** For every stream and every cut: the reader breaks if and only if a chunked body follows the header section
      and has a size line that breaks. */
  lemma BreaksExactly(pieces: seq<string>)
    ensures var h := HeadOf(Concat(pieces));
            IsBroken(ReceiveAll(INITIAL, pieces).outcome) <==> GoesToChunks(h) && HasBreak(h.buffer)
  {
    ReceiveWhole(Concat(pieces));
    if pieces == [] {
      EmptyStream();
    } else {
      AnySegmentation(INITIAL, pieces);
    }
  }

  /** In particular never when all the sizes fit an `int`. */
  lemma SmallSizesNeverBreak(pieces: seq<string>)
    requires forall k | 0 <= k < |SizeLines(HeadOf(Concat(pieces)).buffer)| ::
               SizeLines(HeadOf(Concat(pieces)).buffer)[k].size <= INT_MAX
    ensures !IsBroken(ReceiveAll(INITIAL, pieces).outcome)
  {
    BreaksExactly(pieces);
  }

  /** And otherwise every chunked body, malformed and unfinished ones included, is what the decoder makes of the
      stream at once: the same bytes, finished, waiting for more or failed with the same exception. */
  lemma DecodesExactly(pieces: seq<string>)
    requires var h := HeadOf(Concat(pieces)); GoesToChunks(h) && !HasBreak(h.buffer)
    ensures var h, s := HeadOf(Concat(pieces)), ReceiveAll(INITIAL, pieces);
            s.head == h.head && (s.body, s.outcome) == Decoded(h.buffer)
  {
    var h := HeadOf(Concat(pieces));
    ReceiveWhole(Concat(pieces));
    assert "" + Decoded(h.buffer).0 == Decoded(h.buffer).0;
    EmptyStream();
    AnySegmentation(INITIAL, pieces);
  }

  // The shortest stream that spins

  /** The size 2^32 in hexadecimal. */
  const SPIN := "100000000"

  lemma Shifted(s: string, t: string, value: nat)
    requires AllDigits(s, 16) && Value(s, 16) == value && t == s + "0"
    ensures AllDigits(t, 16) && Value(t, 16) == 16 * value
  {
    assert t[..|s|] == s;
  }

  lemma SpinIsDigits()
    ensures AllDigits(SPIN, 16) && Value(SPIN, 16) == WORD
  {
    assert "1"[..0] == "" && Value("1", 16) == 1;
    Shifted("1", "10", 0x1);
    Shifted("10", "100", 0x10);
    Shifted("100", "1000", 0x100);
    Shifted("1000", "10000", 0x1000);
    Shifted("10000", "100000", 0x1_0000);
    Shifted("100000", "1000000", 0x10_0000);
    Shifted("1000000", "10000000", 0x100_0000);
    Shifted("10000000", "100000000", 0x1000_0000);
  }

  lemma SpinIsWord()
    ensures Stoul(SPIN, 16) == Number(WORD)
  {
    SpinIsDigits();
    assert SPIN + "" == SPIN;
    HttpChunked.StoulOfDigits(SPIN, "", 16);
  }

  lemma SpinSpins(r: Reader, b: char)
    requires r.outcome == Reading && r.expectedChunkSize == 0 && !r.removeCrlf && r.buffer == SPIN + CRLF + [b]
    ensures ReadChunks(r).outcome == Failed(EndlessLoop)
  {
    hide Stoul, Find;
    SpinIsWord();
    WithoutCr(SPIN);
    FindLineEnd(SPIN, [b]);
    assert r.buffer[..|SPIN|] == SPIN && r.buffer[|SPIN| + 2..] == [b];
    SizeStepTakes(r, r.buffer, |SPIN|);
    var (r', more) := SizeStep(r);
    EndlessIff(r');
    assert ReadChunks(r) == ReadChunks(r') == DataStep(r').0;
  }

  /** Behind any header section with a chunked coding, one byte behind the size 2^32 keeps the reader busy for ever,
      however the stream is cut. */
  lemma OneByteSpins(status: string, code: int, lines: seq<string>, b: char, pieces: seq<string>)
    requires HttpResponses.IsHead(status, code, lines) && HasChunked(lines)
    requires pieces != [] && Concat(pieces) == ResponseHead(status, lines) + (SPIN + CRLF + [b])
    ensures ReceiveAll(INITIAL, pieces).outcome == Failed(EndlessLoop)
  {
    var head, stream := ResponseHead(status, lines), SPIN + CRLF + [b];
    FramingSelected(status, lines);
    ReadHeadersExtend(Extend(INITIAL, head), stream);
    ExtendTwice(INITIAL, head, stream);
    SpinSpins(HeadOf(head + stream), b);
    AnySegmentation(INITIAL, pieces);
  }

  const CODING := "Transfer-Encoding: chunked"

  lemma CodingIsChunked()
    ensures FieldOf(CODING).Chunked?
  {
    hide Stoul, Trim, FindChar;
    var name, value := "Transfer-Encoding", "chunked";
    assert CODING == name + ":" + (" " + value);
    NamedField(name, " " + value);
    HttpRequest.TrimsTo(value);
  }

  lemma StatusIsPlain(version: string, code: nat, reason: string)
    requires version != "" && '\r' !in version && '\r' !in reason
    ensures IsPlain(HttpResponses.StatusText(version, code, reason))
  {
    DecimalIsNot(code, '\r');
    WithoutCr(HttpResponses.StatusText(version, code, reason));
  }

  lemma SpinHead()
    ensures HttpResponses.IsHead(HttpResponses.StatusText("HTTP/1.1", 200, "OK"), 200, [CODING]) && HasChunked([CODING])
  {
    hide FieldOf, StatusOf, HttpResponses.StatusText, Decimal;
    CodingIsChunked();
    WithoutCr(CODING);
    StatusIsPlain("HTTP/1.1", 200, "OK");
    HttpResponses.StatusIsRead("HTTP/1.1", 200, "OK");
    assert FieldOf([CODING][0]).Chunked?;
  }

  /** Such a response, complete with its header section. */
  lemma ShortestSpin(b: char)
    ensures var status := HttpResponses.StatusText("HTTP/1.1", 200, "OK");
            var response := ResponseHead(status, [CODING]) + (SPIN + CRLF + [b]);
            ReceiveAll(INITIAL, [response]).outcome == Failed(EndlessLoop)
  {
    hide *;
    var status := HttpResponses.StatusText("HTTP/1.1", 200, "OK");
    var response := ResponseHead(status, [CODING]) + (SPIN + CRLF + [b]);
    SpinHead();
    ConcatOne(response);
    OneByteSpins(status, 200, [CODING], b, [response]);
  }

  lemma ConcatOne(s: string)
    ensures Concat([s]) == s
  {
    assert [s][1..] == [] && s + "" == s;
  }
}
