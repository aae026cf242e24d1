/** The two header lines the reader knows and the status line, by their text: what they set, what they refuse,
    and the responses that fail with them. */
module HttpRefusals {
  import opened Text
  import opened HttpReader
  import opened HttpSegmentation
  import opened HttpHeaders
  import opened HttpResponses
  import HttpNumbers

  // One line

  /** A transfer coding is chunked, or it is refused; either way nothing else changes but the list of headers. */
  lemma CodingLine(h: Head, text: string)
    ensures var line, coding := "Transfer-Encoding:" + text, Trim(text);
            HeaderLine(h, line)
            == if coding == "chunked" then HeadResult(h.(headers := h.headers + [line], chunked := true), None)
               else HeadResult(h.(headers := h.headers + [line]), Some(UnsupportedEncoding(coding)))
  {
    hide Trim, FieldOf;
    NamedField("Transfer-Encoding", text);
    assert "Transfer-Encoding:" + text == "Transfer-Encoding" + ":" + text;
  }

  /** The value of a Content-Length line as a number sets the length, which only a number can; a length
      that no vector can have is set before it is refused. */
  lemma LengthHeader(h: Head, text: string)
    ensures var line, n := "Content-Length:" + text, Stoul(Trim(text), 10);
            var longer := h.(headers := h.headers + [line]);
            HeaderLine(h, line)
            == match n
               case NoDigits => HeadResult(longer, Some(InvalidArgument))
               case TooLarge => HeadResult(longer, Some(OutOfRange))
               case Number(value) =>
                 HeadResult(longer.(contentLength := value, contentLengthReceived := true),
                            if value >= 0x8000_0000_0000_0000 then Some(LengthError) else None)
  {
    hide Trim, FieldOf, Stoul;
    NamedField("Content-Length", text);
    assert "Content-Length:" + text == "Content-Length" + ":" + text;
    var n := Stoul(Trim(text), 10);
  }

  lemma TightTrims(text: string)
    requires text != "" && IsTight(text)
    ensures Trim(" " + text) == text
  {
    hide Trim;
    TrimOf(" ", text, "");
    assert " " + text + "" == " " + text;
  }

  /** A coding written behind the colon and a space. */
  lemma CodingNamed(h: Head, coding: string)
    requires coding != "" && IsTight(coding)
    ensures var line := "Transfer-Encoding: " + coding;
            && HeaderLine(h, line).head
               == h.(headers := h.headers + [line], chunked := h.chunked || coding == "chunked")
            && HeaderLine(h, line).thrown == if coding == "chunked" then None else Some(UnsupportedEncoding(coding))
  {
    hide Trim, HeaderLine;
    TightTrims(coding);
    CodingLine(h, " " + coding);
    assert "Transfer-Encoding: " + coding == "Transfer-Encoding:" + (" " + coding);
  }

  /** A length written behind the colon and a space. */
  lemma LengthNamed(h: Head, digits: string)
    requires digits != "" && AllDigits(digits, 10)
    ensures var line, value := "Content-Length: " + digits, Value(digits, 10);
            HeaderLine(h, line)
            == if value >= 0x1_0000_0000_0000_0000 then HeadResult(h.(headers := h.headers + [line]), Some(OutOfRange))
               else HeadResult(h.(headers := h.headers + [line], contentLength := value, contentLengthReceived := true),
                               if value >= 0x8000_0000_0000_0000 then Some(LengthError) else None)
  {
    hide Trim, HeaderLine, Stoul, Value;
    assert IsDigit(digits[0], 10) && IsDigit(digits[|digits| - 1], 10);
    TightTrims(digits);
    LengthHeader(h, " " + digits);
    HttpNumbers.StoulReads("", "", "", digits, "", 10);
    assert "" + ("" + ("" + digits + "")) == digits;
    assert "Content-Length: " + digits == "Content-Length:" + (" " + digits);
  }

  // Responses that fail

  /** Lines, each ended by CRLF, and what follows them. */
  function OpenBlock(lines: seq<string>, rest: string): string {
    if lines == [] then rest else lines[0] + CRLF + OpenBlock(lines[1..], rest)
  }

  /** The head behind acceptable lines, the header section going on. */
  function HeadWithin(h: Head, lines: seq<string>): Head {
    HeadBehind(h, lines).(parsedHeaders := h.parsedHeaders)
  }

  lemma WithinNext(h: Head, lines: seq<string>)
    requires lines != []
    ensures HeadWithin(HeaderLine(h, lines[0]).head, lines[1..]) == HeadWithin(h, lines)
  {
    hide HeadBehind, FieldOf;
    HeadBehindHead(h, lines);
    assert HeaderLine(h, lines[0]).head.parsedHeaders == h.parsedHeaders;
  }

  lemma WithinNothing(h: Head)
    ensures HeadWithin(h, []) == h
  {
    assert h.headers + [] == h.headers;
  }

  lemma {:induction false} ReadWithin(r: Reader, lines: seq<string>, rest: string) returns (r': Reader)
    requires r.outcome == Reading && !r.head.parsedHeaders && !r.head.firstLine
    requires ArePlain(lines) && Acceptable(lines) && r.buffer == OpenBlock(lines, rest)
    ensures ReadHeaders(r) == ReadHeaders(r') && r'.outcome == Reading && r'.buffer == rest && r'.body == r.body
    ensures r'.head == HeadWithin(r.head, lines)
    decreases |lines|
  {
    hide HeadWithin, FieldOf, ReadHeaders;
    if lines == [] {
      r' := r;
      WithinNothing(r.head);
    } else {
      var line := lines[0];
      assert IsPlain(line);
      TakesLine(r, line, OpenBlock(lines[1..], rest));
      AcceptableTail(lines);
      WithinNext(r.head, lines);
      r' := ReadWithin(Line(Drop(r, |line| + 2), line), lines[1..], rest);
    }
  }

  lemma FailsAtLine(r: Reader, line: string, rest: string, failure: Failure)
    requires r.outcome == Reading && !r.head.parsedHeaders && !r.head.firstLine && IsPlain(line)
    requires r.buffer == line + CRLF + rest && HeaderLine(r.head, line).thrown == Some(failure)
    ensures ReadHeaders(r).outcome == Failed(failure) && ReadHeaders(r).head == HeaderLine(r.head, line).head
    ensures ReadHeaders(r).body == r.body
  {
    hide HeaderLine;
    TakesLine(r, line, rest);
  }

  lemma BehindStatus(status: string, code: int, rest: string)
    requires IsPlain(status) && StatusOf(status) == Some(Number(code))
    ensures var start := Extend(INITIAL, status + CRLF + rest);
            var r := Line(Drop(start, |status| + 2), status);
            && ReadHeaders(start) == ReadHeaders(r) && r.buffer == rest && r.outcome == Reading && r.body == ""
            && r.head == INITIAL.head.(firstLine := false, status := code)
  {
    hide StatusOf;
    assert Extend(INITIAL, status + CRLF + rest).buffer == status + CRLF + rest;
    TakesLine(Extend(INITIAL, status + CRLF + rest), status, rest);
  }

  /** A response in which a line behind acceptable ones throws: it fails with that exception, whatever follows and
      however the stream is cut, having kept the status and the lines up to there. */
  lemma RefusedLine(status: string, code: int, lines: seq<string>, line: string, rest: string, failure: Failure,
                    pieces: seq<string>)
    requires IsHead(status, code, lines) && IsPlain(line)
    requires var h := HeadWithin(INITIAL.head.(firstLine := false, status := code), lines);
             HeaderLine(h, line).thrown == Some(failure)
    requires Concat(pieces) == status + CRLF + OpenBlock(lines, line + CRLF + rest)
    ensures var s := ReceiveAll(INITIAL, pieces);
            && s.outcome == Failed(failure) && s.body == "" && s.head.status == code && s.head.headers == lines + [line]
  {
    hide HeaderLine, HeadWithin, ReadHeaders, Line, StatusOf, FieldOf, IsPlain;
    var stream := status + CRLF + OpenBlock(lines, line + CRLF + rest);
    BehindStatus(status, code, OpenBlock(lines, line + CRLF + rest));
    var r := Line(Drop(Extend(INITIAL, stream), |status| + 2), status);
    var r' := ReadWithin(r, lines, line + CRLF + rest);
    WithinKeeps(r.head, lines, line);
    FailsAtLine(r', line, rest, failure);
    assert [] + lines == lines;
    assert pieces != [];
    AnySegmentation(INITIAL, pieces);
  }

  lemma WithinKeeps(h: Head, lines: seq<string>, line: string)
    ensures var within := HeadWithin(h, lines);
            && within.status == h.status && within.headers == h.headers + lines && within.firstLine == h.firstLine
            && within.parsedHeaders == h.parsedHeaders
    ensures var head := HeaderLine(HeadWithin(h, lines), line).head;
            head.status == h.status && head.headers == h.headers + lines + [line]
  {
    hide FieldOf, LastLength, HasChunked;
  }

  /** A coding other than chunked fails with exactly that coding. */
  lemma UnsupportedCoding(status: string, code: int, lines: seq<string>, coding: string, rest: string,
                          pieces: seq<string>)
    requires IsHead(status, code, lines) && !Contains(coding, CRLF)
    requires coding != "" && IsTight(coding) && coding != "chunked"
    requires Concat(pieces) == status + CRLF + OpenBlock(lines, "Transfer-Encoding: " + coding + CRLF + rest)
    ensures var s := ReceiveAll(INITIAL, pieces);
            && s.outcome == Failed(UnsupportedEncoding(coding)) && s.body == ""
            && s.head.status == code && s.head.headers == lines + ["Transfer-Encoding: " + coding]
  {
    hide IsHead, HeaderLine, HeadWithin, Contains, OpenBlock;
    var line := "Transfer-Encoding: " + coding;
    CodingNamed(HeadWithin(INITIAL.head.(firstLine := false, status := code), lines), coding);
    PlainBehind("Transfer-Encoding: ", coding);
    RefusedLine(status, code, lines, line, rest, UnsupportedEncoding(coding), pieces);
  }

  lemma PlainBehind(prefix: string, text: string)
    requires '\r' !in prefix && '\n' !in prefix && prefix != "" && !Contains(text, CRLF)
    ensures IsPlain(prefix + text)
  {
    var s, n := prefix + text, |prefix|;
    forall j ensures !At(s, CRLF, j) {
      if 0 <= j < n {
        assert s[j] == prefix[j];
        StartsOtherwise(s, CRLF, j);
      } else if n <= j <= |s| - 2 {
        assert !At(text, CRLF, j - n);
        assert s[j..j + 2] == text[j - n..j - n + 2];
      }
    }
  }

  /** A length that is no number fails as an invalid argument. */
  lemma BadLength(status: string, code: int, lines: seq<string>, text: string, rest: string, pieces: seq<string>)
    requires IsHead(status, code, lines) && !Contains(text, CRLF)
    requires text != "" && IsTight(text) && !IsDigit(text[0], 10) && text[0] != '+' && text[0] != '-'
    requires Concat(pieces) == status + CRLF + OpenBlock(lines, "Content-Length: " + text + CRLF + rest)
    ensures var s := ReceiveAll(INITIAL, pieces);
            && s.outcome == Failed(InvalidArgument) && s.body == ""
            && s.head.status == code && s.head.headers == lines + ["Content-Length: " + text]
  {
    hide IsHead, HeaderLine, HeadWithin, Contains, OpenBlock, Stoul, Trim;
    var line, head := "Content-Length: " + text, HeadWithin(INITIAL.head.(firstLine := false, status := code), lines);
    TightTrims(text);
    HttpNumbers.StoulRefuses("", "", text, 10);
    assert "" + ("" + text) == text;
    LengthHeader(head, " " + text);
    assert line == "Content-Length:" + (" " + text);
    PlainBehind("Content-Length: ", text);
    RefusedLine(status, code, lines, line, rest, InvalidArgument, pieces);
  }

  // The status line

  /** Spaces before a word do not count, and the second word alone is the status. */
  lemma SpacesIgnored(line: string)
    ensures Words(" " + line) == Words(line)
  {
    SplitAtSeparator("", ' ', line);
    SplitPlain("", ' ');
    assert "" + [' '] + line == " " + line;
    assert ([""] + Split(line, ' '))[1..] == Split(line, ' ');
  }

  lemma OneWord(word: string)
    requires word != "" && ' ' !in word
    ensures Words(word) == [word]
  {
    SplitPlain(word, ' ');
    var rest := [word][1..];
    assert rest == [] && NonEmpty(rest) == [];
    assert Split(word, ' ') == [word];
  }

  /** The second word is read as a number, whatever the words around it. */
  lemma StatusWord(first: string, second: string, rest: string)
    requires first != "" && ' ' !in first && second != "" && ' ' !in second
    ensures StatusOf(first + " " + (second + " " + rest)) == Some(Stoi(second))
    ensures StatusOf(first + " " + second) == Some(Stoi(second)) && StatusOf(first) == None
  {
    hide Words, Stoi;
    WordThenRest(second, rest);
    WordThenRest(first, second + " " + rest);
    WordThenRest(first, second);
    OneWord(second);
    OneWord(first);
  }

  /** A status line without a second word leaves the status alone; a second word that is no number, or none
      that an `int` holds, fails at once with the exception of `std::stoi`. */
  lemma StatusLineEffect(h: Head, line: string)
    ensures StatusLine(h, line)
         == match StatusOf(line)
            case None => HeadResult(h.(firstLine := false), None)
            case Some(Number(status)) => HeadResult(h.(firstLine := false, status := status), None)
            case Some(NoDigits) => HeadResult(h.(firstLine := false), Some(InvalidArgument))
            case Some(TooLarge) => HeadResult(h.(firstLine := false), Some(OutOfRange))
  {
    hide StatusOf;
    match StatusOf(line)
    case None =>
    case Some(n) => match n { case Number(_) => case NoDigits => case TooLarge => }
  }

  /** Such a response fails whatever follows and however the stream is cut. */
  lemma RefusedStatus(first: string, second: string, reason: string, rest: string, pieces: seq<string>)
    requires first != "" && ' ' !in first && second != "" && ' ' !in second && !Stoi(second).Number?
    requires IsPlain(first + " " + (second + " " + reason))
    requires Concat(pieces) == first + " " + (second + " " + reason) + CRLF + rest
    ensures var s := ReceiveAll(INITIAL, pieces);
            && s.outcome == Failed(if Stoi(second).NoDigits? then InvalidArgument else OutOfRange)
            && s.head.status == 0 && s.head.headers == [] && s.body == ""
  {
    hide StatusOf, IsPlain, Stoi;
    var line := first + " " + (second + " " + reason);
    StatusWord(first, second, reason);
    var start := Extend(INITIAL, line + CRLF + rest);
    assert start.buffer == line + CRLF + rest;
    PlainHasNoBreak(line);
    TakesLine(start, line, rest);
    assert pieces != [];
    AnySegmentation(INITIAL, pieces);
  }

  lemma PlainHasNoBreak(line: string)
    requires IsPlain(line)
    ensures line != "" && !Contains(line, CRLF)
  {
  }
}
