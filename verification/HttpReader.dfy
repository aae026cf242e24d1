/** The response reader of `Request::send` (httprequest.h): its state between two receives,
    what one receive does to it, and what a whole connection does.
    `ResponseReader` in HttpReaderLoops.dfy is the same reader as the loops of the source. */
module HttpReader {
  import opened Text

  const ULONG_MAX := 0xFFFF_FFFF_FFFF_FFFF
  const MAX_SIZE := 0x7FFF_FFFF_FFFF_FFFF  // std::vector<std::uint8_t>::max_size()

  /** Why the reader gives up: the exceptions of the source, and the two ways in which
      `std::min<int>` breaks a chunk of 2^31 bytes or more. */
  datatype Failure =
    | InvalidArgument
    | OutOfRange
    | LengthError
    | UnsupportedEncoding(value: string)
    | ReversedRange  // a negative count of bytes to copy: undefined behaviour
    | EndlessLoop    // a count of zero with bytes waiting: the loop repeats itself for ever

  datatype Outcome = Reading | Finished | Failed(failure: Failure)

  /** A byte removed from `responseData`, either as framing or as a byte of the body. */
  datatype Taken = Taken(b: char, payload: bool)

  /** What the header section has told the reader. */
  datatype Head = Head(
    firstLine: bool,
    parsedHeaders: bool,
    contentLengthReceived: bool,
    contentLength: nat,
    chunked: bool,
    status: int,
    headers: seq<string>)

  /** The reader between two receives: `buffer` is `responseData`, and `taken` is a history,
      every byte removed from `buffer` in order. */
  datatype Reader = Reader(
    buffer: string,
    head: Head,
    expectedChunkSize: nat,
    removeCrlf: bool,
    body: string,
    outcome: Outcome,
    taken: seq<Taken>)

  const INITIAL := Reader("", Head(true, false, false, 0, false, 0, []), 0, false, "", Reading, [])

  function Tag(s: string, payload: bool): (t: seq<Taken>)
    ensures |t| == |s|
  {
    seq(|s|, i requires 0 <= i < |s| => Taken(s[i], payload))
  }

  function Extend(r: Reader, data: string): Reader {
    r.(buffer := r.buffer + data)
  }

  /** `responseData.erase(begin, begin + n)` of framing bytes. */
  function Drop(r: Reader, n: nat): Reader
    requires n <= |r.buffer|
  {
    r.(buffer := r.buffer[n..], taken := r.taken + Tag(r.buffer[..n], false))
  }

  /** Moving the first `n` bytes of `responseData` to the body. */
  function Move(r: Reader, n: nat): Reader
    requires n <= |r.buffer|
  {
    r.(buffer := r.buffer[n..], body := r.body + r.buffer[..n], taken := r.taken + Tag(r.buffer[..n], true))
  }

  // std::stoul and std::stoi

  datatype Number = Number(value: int) | NoDigits | TooLarge

  function LeadingDigits(s: string, base: nat): (d: string)
    requires IsBase(base)
    ensures AllDigits(d, base) && d <= s
    ensures |d| < |s| ==> !IsDigit(s[|d|], base)
  {
    if s == "" || !IsDigit(s[0], base) then ""
    else
      assert s == [s[0]] + s[1..];
      [s[0]] + LeadingDigits(s[1..], base)
  }

  function Magnitude(s: string, base: nat): Number
    requires IsBase(base)
  {
    var t := if base == 16 && |s| > 2 && s[0] == '0' && (s[1] == 'x' || s[1] == 'X') && IsDigit(s[2], 16)
             then s[2..] else s;
    var digits := LeadingDigits(t, base);
    if digits == "" then NoDigits else Number(Value(digits, base))
  }

  function Stoul(text: string, base: nat): (n: Number)
    requires IsBase(base)
    ensures n.Number? ==> 0 <= n.value <= ULONG_MAX
  {
    var s := TrimLeft(text);
    var signed := s != "" && (s[0] == '-' || s[0] == '+');
    var m := Magnitude(if signed then s[1..] else s, base);
    if !m.Number? then m
    else if m.value > ULONG_MAX then TooLarge
    else if signed && s[0] == '-' then Number((ULONG_MAX + 1 - m.value) % (ULONG_MAX + 1))
    else m
  }

  function Stoi(text: string): Number {
    var s := TrimLeft(text);
    var signed := s != "" && (s[0] == '-' || s[0] == '+');
    var m := Magnitude(if signed then s[1..] else s, 10);
    if !m.Number? then m
    else
      var value := if signed && s[0] == '-' then -m.value else m.value;
      if -INT_MAX - 1 <= value <= INT_MAX then Number(value) else TooLarge
  }

  function NumberFailure(n: Number): Failure
    requires !n.Number?
  {
    if n.NoDigits? then InvalidArgument else OutOfRange
  }

  // The header section

  /** The parts of the first line: the pieces between spaces, without the empty ones. */
  function NonEmpty(parts: seq<string>): seq<string> {
    if parts == [] then []
    else (if parts[0] == "" then [] else [parts[0]]) + NonEmpty(parts[1..])
  }

  function Words(line: string): seq<string> { NonEmpty(Split(line, ' ')) }

  /** The status in the first line, or why it cannot be read; nothing when there are fewer than two words. */
  function StatusOf(line: string): Option<Number> {
    var words := Words(line);
    if |words| < 2 then None else Some(Stoi(words[1]))
  }

  /** What a line of the header section does to the head, and the exception it raises, if any. */
  datatype HeadResult = HeadResult(head: Head, thrown: Option<Failure>)

  function StatusLine(h: Head, line: string): HeadResult {
    match StatusOf(line)
    case None => HeadResult(h.(firstLine := false), None)
    case Some(Number(status)) => HeadResult(h.(firstLine := false, status := status), None)
    case Some(n) => HeadResult(h.(firstLine := false), Some(NumberFailure(n)))
  }

  /** What a header line means to the reader. */
  datatype Field = Other | Length(length: nat) | Chunked | Refused(failure: Failure)

  function FieldNamed(name: string, value: string): Field {
    if name == "Content-Length" then
      var n := Stoul(value, 10);
      if n.Number? then Length(n.value) else Refused(NumberFailure(n))
    else if name == "Transfer-Encoding" then
      if value == "chunked" then Chunked else Refused(UnsupportedEncoding(value))
    else Other
  }

  function FieldOf(line: string): Field {
    match FindChar(line, ':')
    case None => Other
    case Some(colon) => FieldNamed(line[..colon], Trim(line[colon + 1..]))
  }

  /** The exception a header line raises; `reserve` refuses a length no vector can have. */
  function ThrownBy(field: Field): Option<Failure> {
    if field.Refused? then Some(field.failure)
    else if field.Length? && field.length > MAX_SIZE then Some(LengthError)
    else None
  }

  function ApplyField(h: Head, field: Field): HeadResult {
    HeadResult(
      match field
      case Length(n) => h.(contentLength := n, contentLengthReceived := true)
      case Chunked => h.(chunked := true)
      case _ => h,
      ThrownBy(field))
  }

  function HeaderLine(h: Head, line: string): HeadResult {
    ApplyField(h.(headers := h.headers + [line]), FieldOf(line))
  }

  function HeadAfter(h: Head, line: string): HeadResult {
    if line == "" then HeadResult(h.(parsedHeaders := true), None)
    else if h.firstLine then StatusLine(h, line)
    else HeaderLine(h, line)
  }

  function Apply(r: Reader, result: HeadResult): Reader {
    r.(head := result.head, outcome := if result.thrown.Some? then Failed(result.thrown.value) else r.outcome)
  }

  /** One line of the header section, already removed from the buffer. */
  function Line(r: Reader, line: string): (r': Reader)
    ensures r'.buffer == r.buffer
  {
    Apply(r, HeadAfter(r.head, line))
  }

  function ReadHeaders(r: Reader): (h: Reader)
    ensures |h.buffer| <= |r.buffer|
    decreases |r.buffer|
  {
    if r.head.parsedHeaders || r.outcome != Reading then r
    else match Find(r.buffer, CRLF)
      case None => r
      case Some(i) => ReadHeaders(Line(Drop(r, i + 2), r.buffer[..i]))
  }

  // The body

  /** The conversion of a size to `int`. */
  function Narrow(n: nat): (k: int)
    ensures k <= n
    ensures n <= INT_MAX ==> k == n
  {
    var m := n % 0x1_0000_0000;
    if m <= INT_MAX then m else m - 0x1_0000_0000
  }

  /** One iteration of the chunk loop inside a chunk, and whether the loop goes on. */
  function DataStep(r: Reader): (next: (Reader, bool))
    requires r.expectedChunkSize > 0
    ensures next.1 ==> |next.0.buffer| < |r.buffer| && next.0.outcome == r.outcome
  {
    var limit := Narrow(r.expectedChunkSize);
    var toWrite := if limit <= |r.buffer| then limit else |r.buffer|;
    if toWrite < 0 then (r.(outcome := Failed(ReversedRange)), false)
    else
      var rest := r.expectedChunkSize - toWrite;
      var r' := Move(r, toWrite).(expectedChunkSize := rest, removeCrlf := r.removeCrlf || rest == 0);
      if r'.buffer == "" then (r', false)
      else if toWrite == 0 then (r'.(outcome := Failed(EndlessLoop)), false)
      else (r', true)
  }

  /** A chunk size line, already removed from the buffer. */
  function SizeLine(r: Reader, line: string): (next: (Reader, bool))
    ensures next.0 == r.(expectedChunkSize := next.0.expectedChunkSize, outcome := next.0.outcome)
  {
    var n := Stoul(line, 16);
    if !n.Number? then (r.(outcome := Failed(NumberFailure(n))), false)
    else if n.value == 0 then (r.(outcome := Finished), false)
    else (r.(expectedChunkSize := n.value), true)
  }

  /** Dropping the CRLF that follows a chunk, if it is due. */
  function Trimmed(r: Reader): Reader
    requires r.removeCrlf ==> |r.buffer| >= 2
  {
    if r.removeCrlf then Drop(r, 2).(removeCrlf := false) else r
  }

  /** One iteration of the chunk loop between chunks. */
  function SizeStep(r: Reader): (next: (Reader, bool))
    requires r.expectedChunkSize == 0
    ensures next.1 ==> |next.0.buffer| < |r.buffer| && next.0.outcome == r.outcome
  {
    if r.removeCrlf && |r.buffer| < 2 then (r, false)
    else
      var r' := Trimmed(r);
      match Find(r'.buffer, CRLF)
      case None => (r', false)
      case Some(i) => SizeLine(Drop(r', i + 2), r'.buffer[..i])
  }

  function ChunkStep(r: Reader): (next: (Reader, bool))
    ensures next.1 ==> |next.0.buffer| < |r.buffer| && next.0.outcome == r.outcome
  {
    if r.expectedChunkSize > 0 then DataStep(r) else SizeStep(r)
  }

  function ReadChunks(r: Reader): Reader
    decreases |r.buffer|
  {
    if r.outcome != Reading then r
    else
      var (r', more) := ChunkStep(r);
      if more then ReadChunks(r') else r'
  }

  /** Without chunks everything received belongs to the body. */
  function ReadRest(r: Reader): Reader {
    var r' := Move(r, |r.buffer|);
    if r'.head.contentLengthReceived && |r'.body| >= r'.head.contentLength then r'.(outcome := Finished) else r'
  }

  function ReadBody(r: Reader): Reader {
    if r.head.chunked then ReadChunks(r) else ReadRest(r)
  }

  /** What one pass of the outer loop does with the bytes of one `recv`. */
  function Receive(r: Reader, data: string): Reader
    requires r.outcome == Reading
  {
    var h := ReadHeaders(Extend(r, data));
    if h.outcome == Reading && h.head.parsedHeaders then ReadBody(h) else h
  }

  /** The outer loop: receives are taken until the reader is finished, fails, or the peer disconnects. */
  function ReceiveAll(r: Reader, pieces: seq<string>): Reader
    decreases |pieces|
  {
    if pieces == [] || r.outcome != Reading then r
    else ReceiveAll(Receive(r, pieces[0]), pieces[1..])
  }
}
