/** The receive loop of `Request::send` in the form of the source: fields updated in place by nested loops.
    Each method is proved equal to the function of HttpReader it carries out. */
module HttpReaderLoops {
  import opened Text
  import opened HttpReader

  /** `line.find(' ', from)`, with the end of the line for `npos`. */
  function NextSpace(line: string, from: nat): (pos: nat)
    requires from <= |line|
    ensures from <= pos <= |line|
  {
    var found := FindChar(line[from..], ' ');
    if found.None? then |line| else from + found.value
  }

  lemma NextSpaceIsFirst(line: string, from: nat)
    requires from <= |line|
    ensures var pos := NextSpace(line, from);
            ' ' !in line[from..pos] && (pos < |line| ==> line[pos] == ' ')
  {
    var found := FindChar(line[from..], ' ');
    if found.None? {
      assert line[from..|line|] == line[from..];
    } else {
      assert line[from..from + found.value] == line[from..][..found.value];
    }
  }

  function WordsFrom(line: string, from: nat): seq<string> {
    if from <= |line| then Words(line[from..]) else []
  }

  lemma WordsFromNext(line: string, from: nat)
    requires from <= |line|
    ensures var pos := NextSpace(line, from);
            WordsFrom(line, from) == NonEmpty([line[from..pos]]) + WordsFrom(line, pos + 1)
  {
    hide NextSpace, FindChar;
    var pos := NextSpace(line, from);
    var word := line[from..pos];
    NextSpaceIsFirst(line, from);
    SplitPlain(word, ' ');
    if pos < |line| {
      var rest := line[pos + 1..];
      assert line[from..] == word + [' '] + rest;
      SplitAtSeparator(word, ' ', rest);
      assert ([word] + Split(rest, ' '))[1..] == Split(rest, ' ');
    } else {
      assert line[from..] == word;
    }
  }

  lemma KeepWord(parts: seq<string>, word: string, rest: seq<string>)
    ensures parts + (NonEmpty([word]) + rest) == (if word == "" then parts else parts + [word]) + rest
  {
    assert [word][1..] == [];
    assert NonEmpty([word]) == if word == "" then [] else [word];
  }

  /** One round of the tokenizer. */
  lemma TakeWord(line: string, from: nat, parts: seq<string>)
    requires from <= |line|
    ensures var pos := NextSpace(line, from);
            (if pos != from then parts + [line[from..pos]] else parts) + WordsFrom(line, pos + 1)
            == parts + WordsFrom(line, from)
  {
    hide Words, WordsFrom, NextSpace, NonEmpty;
    var pos := NextSpace(line, from);
    WordsFromNext(line, from);
    KeepWord(parts, line[from..pos], WordsFrom(line, pos + 1));
  }

  lemma WordsFromEnds(line: string, parts: seq<string>)
    ensures [] + WordsFrom(line, 0) == Words(line)
    ensures parts + WordsFrom(line, |line| + 1) == parts
  {
    assert line[0..] == line;
  }

  /** The tokenizer of the first line, position by position. */
  method Tokenize(line: string) returns (parts: seq<string>)
    ensures parts == Words(line)
  {
    hide Words, WordsFrom, NextSpace;
    var lastPos := 0;
    parts := [];
    WordsFromEnds(line, parts);
    while lastPos < |line| + 1
      invariant lastPos <= |line| + 1
      invariant parts + WordsFrom(line, lastPos) == Words(line)
    {
      var pos := NextSpace(line, lastPos);
      TakeWord(line, lastPos, parts);
      if pos != lastPos {
        parts := parts + [line[lastPos..pos]];
      }
      lastPos := pos + 1;
    }
    WordsFromEnds(line, parts);
  }

  class ResponseReader {
    var responseData: string
    var firstLine: bool
    var parsedHeaders: bool
    var contentLengthReceived: bool
    var contentLength: nat
    var chunkedResponse: bool
    var expectedChunkSize: nat
    var removeCrlfAfterChunk: bool
    var status: int
    var headers: seq<string>
    var body: string
    var outcome: Outcome
    ghost var taken: seq<Taken>

    ghost function HeadView(): Head
      reads this
    {
      Head(firstLine, parsedHeaders, contentLengthReceived, contentLength, chunkedResponse, status, headers)
    }

    ghost function View(): Reader
      reads this
    {
      Reader(responseData, HeadView(), expectedChunkSize, removeCrlfAfterChunk, body, outcome, taken)
    }

    constructor ()
      ensures View() == INITIAL
    {
      responseData, firstLine, parsedHeaders := "", true, false;
      contentLengthReceived, contentLength, chunkedResponse := false, 0, false;
      expectedChunkSize, removeCrlfAfterChunk := 0, false;
      status, headers, body, outcome, taken := 0, [], "", Reading, [];
    }

    method EraseFront(n: nat)
      requires n <= |responseData|
      modifies this
      ensures View() == Drop(old(View()), n)
    {
      taken := taken + Tag(responseData[..n], false);
      responseData := responseData[n..];
    }

    method MoveFront(n: nat)
      requires n <= |responseData|
      modifies this
      ensures View() == Move(old(View()), n)
    {
      taken := taken + Tag(responseData[..n], true);
      body := body + responseData[..n];
      responseData := responseData[n..];
    }

    method ParseFirstLine(line: string)
      requires outcome == Reading
      modifies this
      ensures var result := StatusLine(old(HeadView()), line);
              View() == Apply(old(View()), result)
    {
      firstLine := false;
      var parts := Tokenize(line);
      if |parts| >= 2 {
        var n := Stoi(parts[1]);
        if n.Number? {
          status := n.value;
        } else {
          outcome := Failed(NumberFailure(n));
        }
      }
    }

    method ParseHeader(line: string)
      requires outcome == Reading
      modifies this
      ensures View() == Apply(old(View()), HeaderLine(old(HeadView()), line))
    {
      headers := headers + [line];
      var pos := FindChar(line, ':');
      if pos.Some? {
        ParseField(line[..pos.value], Trim(line[pos.value + 1..]));
      }
    }

    method ParseField(headerName: string, headerValue: string)
      requires outcome == Reading
      modifies this
      ensures View() == Apply(old(View()), ApplyField(old(HeadView()), FieldNamed(headerName, headerValue)))
    {
      if headerName == "Content-Length" {
        var n := Stoul(headerValue, 10);
        if n.Number? {
          contentLength, contentLengthReceived := n.value, true;
          if contentLength > MAX_SIZE {
            outcome := Failed(LengthError);
          }
        } else {
          outcome := Failed(NumberFailure(n));
        }
      } else if headerName == "Transfer-Encoding" {
        if headerValue == "chunked" {
          chunkedResponse := true;
        } else {
          outcome := Failed(UnsupportedEncoding(headerValue));
        }
      }
    }

    method HeaderLoop()
      requires outcome == Reading
      modifies this
      ensures View() == ReadHeaders(old(View()))
    {
      while !parsedHeaders && outcome == Reading
        invariant ReadHeaders(View()) == ReadHeaders(old(View()))
        decreases |responseData|
      {
        var i := Find(responseData, CRLF);
        if i.None? {
          break;
        }
        var line := responseData[..i.value];
        EraseFront(i.value + 2);
        if line == "" {
          parsedHeaders := true;
        } else if firstLine {
          ParseFirstLine(line);
        } else {
          ParseHeader(line);
        }
      }
    }

    /** The branch of the chunk loop inside a chunk; where the loop of the source would spin
        without progress, it stops as `EndlessLoop`. */
    method CopyData() returns (more: bool)
      requires outcome == Reading && expectedChunkSize > 0
      modifies this
      ensures (View(), more) == DataStep(old(View()))
    {
      var limit := Narrow(expectedChunkSize);
      var toWrite := if limit <= |responseData| then limit else |responseData|;
      if toWrite < 0 {
        outcome := Failed(ReversedRange);
        return false;
      }
      MoveFront(toWrite);
      expectedChunkSize := expectedChunkSize - toWrite;
      if expectedChunkSize == 0 {
        removeCrlfAfterChunk := true;
      }
      if responseData == "" {
        return false;
      }
      if toWrite == 0 {
        outcome := Failed(EndlessLoop);
      }
      return toWrite != 0;
    }

    /** The branch of the chunk loop between chunks. */
    method NextChunk() returns (more: bool)
      requires outcome == Reading && expectedChunkSize == 0
      modifies this
      ensures (View(), more) == SizeStep(old(View()))
    {
      if removeCrlfAfterChunk {
        if |responseData| >= 2 {
          removeCrlfAfterChunk := false;
          EraseFront(2);
        } else {
          return false;
        }
      }
      var i := Find(responseData, CRLF);
      if i.None? {
        return false;
      }
      var n := Stoul(responseData[..i.value], 16);
      EraseFront(i.value + 2);
      if !n.Number? {
        outcome := Failed(NumberFailure(n));
        return false;
      }
      expectedChunkSize := n.value;
      if expectedChunkSize == 0 {
        outcome := Finished;
        return false;
      }
      return true;
    }

    method ChunkLoop()
      requires outcome == Reading
      modifies this
      ensures View() == ReadChunks(old(View()))
    {
      var more := true;
      while more
        invariant if more then outcome == Reading && ReadChunks(View()) == ReadChunks(old(View()))
                  else View() == ReadChunks(old(View()))
        decreases more, |responseData|
      {
        if expectedChunkSize > 0 {
          more := CopyData();
        } else {
          more := NextChunk();
        }
      }
    }

    /** One pass of the outer loop. */
    method Receive(data: string)
      requires outcome == Reading
      modifies this
      ensures View() == HttpReader.Receive(old(View()), data)
    {
      responseData := responseData + data;
      if !parsedHeaders {
        HeaderLoop();
      }
      if outcome == Reading && parsedHeaders {
        if chunkedResponse {
          ChunkLoop();
        } else {
          MoveFront(|responseData|);
          if contentLengthReceived && |body| >= contentLength {
            outcome := Finished;
          }
        }
      }
    }

    /** The outer loop over the receives of a connection; after the last one the peer disconnects. */
    method ReceiveLoop(pieces: seq<string>)
      requires outcome == Reading
      modifies this
      ensures View() == ReceiveAll(old(View()), pieces)
    {
      var k := 0;
      while k < |pieces| && outcome == Reading
        invariant k <= |pieces|
        invariant ReceiveAll(View(), pieces[k..]) == ReceiveAll(old(View()), pieces)
      {
        assert pieces[k..][1..] == pieces[k + 1..];
        Receive(pieces[k]);
        k := k + 1;
      }
    }
  }
}
