/** The response does not depend on how the stream was cut into receives. */
module HttpSegmentation {
  import opened Text
  import opened HttpReader

  // Bytes behind the buffer are not looked at.

  lemma DropExtend(r: Reader, n: nat, y: string)
    requires n <= |r.buffer|
    ensures Drop(Extend(r, y), n) == Extend(Drop(r, n), y)
    ensures Move(Extend(r, y), n) == Extend(Move(r, n), y)
  {
    assert (r.buffer + y)[n..] == r.buffer[n..] + y;
    assert (r.buffer + y)[..n] == r.buffer[..n];
  }

  lemma ExtendTwice(r: Reader, x: string, y: string)
    ensures Extend(Extend(r, x), y) == Extend(r, x + y)
  {
    assert r.buffer + x + y == r.buffer + (x + y);
  }

  lemma LineExtend(r: Reader, line: string, y: string)
    ensures Line(Extend(r, y), line) == Extend(Line(r, line), y)
  {
  }

  /** Header lines: stopping and resuming is the same as reading on. */
  lemma {:induction false} ReadHeadersExtend(r: Reader, y: string)
    ensures ReadHeaders(Extend(r, y)) == ReadHeaders(Extend(ReadHeaders(r), y))
    decreases |r.buffer|
  {
    if !r.head.parsedHeaders && r.outcome == Reading {
      match Find(r.buffer, CRLF)
      case None =>
      case Some(i) =>
        var line, r' := r.buffer[..i], Line(Drop(r, i + 2), r.buffer[..i]);
        FindExtend(r.buffer, y, CRLF);
        DropExtend(r, i + 2, y);
        assert (r.buffer + y)[..i] == line;
        LineExtend(Drop(r, i + 2), line, y);
        ReadHeadersExtend(r', y);
    }
  }

  /** An iteration that goes on, finishes or fails does the same with more bytes behind. */
  lemma DataStepExtend(r: Reader, y: string)
    requires r.expectedChunkSize > 0
    ensures var (r', more) := DataStep(r);
            more || r'.outcome != r.outcome ==> DataStep(Extend(r, y)) == (Extend(r', y), more)
  {
    var limit := Narrow(r.expectedChunkSize);
    if 0 <= limit <= |r.buffer| {
      DropExtend(r, limit, y);
    }
  }

  lemma SizeLineExtend(r: Reader, line: string, y: string)
    ensures var (r', more) := SizeLine(r, line);
            SizeLine(Extend(r, y), line) == (Extend(r', y), more)
  {
    var n := Stoul(line, 16);
  }

  lemma TrimmedExtend(r: Reader, y: string)
    requires r.removeCrlf ==> |r.buffer| >= 2
    ensures Trimmed(Extend(r, y)) == Extend(Trimmed(r), y)
  {
    if r.removeCrlf {
      DropExtend(r, 2, y);
    }
  }

  /** Between chunks: an iteration that cannot complete leaves a state that resumes exactly there. */
  lemma SizeStepExtend(r: Reader, y: string)
    requires r.expectedChunkSize == 0 && r.outcome == Reading
    ensures var (r', more) := SizeStep(r);
            if more || r'.outcome != r.outcome then SizeStep(Extend(r, y)) == (Extend(r', y), more)
            else r'.expectedChunkSize == 0 && SizeStep(Extend(r, y)) == SizeStep(Extend(r', y))
  {
    if !r.removeCrlf || |r.buffer| >= 2 {
      TrimmedExtend(r, y);
      var r1 := Trimmed(r);
      match Find(r1.buffer, CRLF) {
        case None =>
        case Some(i) =>
          FindExtend(r1.buffer, y, CRLF);
          DropExtend(r1, i + 2, y);
          assert (r1.buffer + y)[..i] == r1.buffer[..i];
          SizeLineExtend(Drop(r1, i + 2), r1.buffer[..i], y);
      }
    }
  }

  /** Moving a chunk in two parts is moving it at once. */
  lemma MoveTwice(r: Reader, y: string, m: nat)
    requires m <= |y|
    ensures Move(Extend(r, y), |r.buffer| + m) == Move(Extend(Move(r, |r.buffer|), y), m)
  {
    var n := |r.buffer|;
    assert (r.buffer + y)[n + m..] == y[m..];
    assert (r.buffer + y)[..n + m] == r.buffer + y[..m];
    assert r.buffer[..n] == r.buffer && r.buffer[n..] + y == y;
    assert r.body + (r.buffer + y[..m]) == r.body + r.buffer + y[..m];
    assert Tag(r.buffer + y[..m], true) == Tag(r.buffer, true) + Tag(y[..m], true);
    assert r.taken + (Tag(r.buffer, true) + Tag(y[..m], true)) == r.taken + Tag(r.buffer, true) + Tag(y[..m], true);
  }

  /** Inside a chunk with too few bytes waiting: all of them are moved, and the rest on resumption. */
  lemma StarvedSplit(r: Reader, y: string)
    requires r.expectedChunkSize > 0 && |r.buffer| < Narrow(r.expectedChunkSize)
    ensures var r' := Move(r, |r.buffer|).(expectedChunkSize := r.expectedChunkSize - |r.buffer|);
            DataStep(r) == (r', false) && DataStep(Extend(r, y)) == DataStep(Extend(r', y))
  {
    hide Tag;
    var n := |r.buffer|;
    var limit := Narrow(r.expectedChunkSize);
    assert Narrow(r.expectedChunkSize - n) == limit - n;
    MoveTwice(r, y, if limit - n <= |y| then limit - n else |y|);
  }

  /** Resuming a reader whose last copy took exactly what was waiting, with nothing, changes nothing. */
  lemma StarvedStays(r: Reader)
    requires r.expectedChunkSize > 0 && Narrow(r.expectedChunkSize) == |r.buffer|
    ensures var (r', more) := DataStep(r); !more && ChunkStep(r') == (r', false)
  {
    var r' := DataStep(r).0;
    assert Move(r', 0) == r' by {
      assert Tag(r'.buffer[..0], true) == [];
    }
  }

  /** The reader `r'` that stopped, given `y`, goes on as `r` does with `y` already behind it. */
  predicate Resumes(r: Reader, r': Reader, y: string) {
    var (r1, more) := ChunkStep(Extend(r, y));
    || ChunkStep(Extend(r', y)) == (r1, more)
    || (more && r1 == Extend(r', y))
    || (!more && r1 == Extend(r', y) == r' && ChunkStep(r') == (r', false))
  }

  lemma StarvedResumes(r: Reader, y: string)
    requires r.expectedChunkSize > 0 && r.outcome == Reading
    requires !DataStep(r).1 && DataStep(r).0.outcome == Reading
    ensures Resumes(r, DataStep(r).0, y)
  {
    var r', limit := DataStep(r).0, Narrow(r.expectedChunkSize);
    if |r.buffer| < limit {
      StarvedSplit(r, y);
    } else if y == "" {
      StarvedStays(r);
      assert Extend(r, y) == r && Extend(r', y) == r';
    } else {
      StarvedExactly(r, y);
    }
  }

  lemma StarvedExactly(r: Reader, y: string)
    requires r.expectedChunkSize > 0 && Narrow(r.expectedChunkSize) == |r.buffer| && y != ""
    ensures if r.buffer == "" then DataStep(r).0 == r else DataStep(Extend(r, y)) == (Extend(DataStep(r).0, y), true)
  {
    DropExtend(r, |r.buffer|, y);
    if r.buffer == "" {
      assert Move(r, 0) == r by {
        assert Tag(r.buffer[..0], true) == [];
      }
    }
  }

  /** One iteration: either it is the same with more bytes behind, or it resumes where it stopped. */
  lemma ChunkStepExtend(r: Reader, y: string)
    requires r.outcome == Reading
    ensures var (r', more) := ChunkStep(r);
            if more || r'.outcome != Reading then ChunkStep(Extend(r, y)) == (Extend(r', y), more)
            else Resumes(r, r', y)
  {
    if r.expectedChunkSize == 0 {
      SizeStepExtend(r, y);
    } else {
      DataStepExtend(r, y);
      var (r', more) := DataStep(r);
      if !more && r'.outcome == Reading {
        StarvedResumes(r, y);
      }
    }
  }

  /** Chunks: stopping and resuming is the same as reading on. */
  lemma {:induction false} ReadChunksExtend(r: Reader, y: string)
    ensures ReadChunks(Extend(r, y)) == ReadChunks(Extend(ReadChunks(r), y))
    decreases |r.buffer|
  {
    if r.outcome == Reading {
      ChunkStepExtend(r, y);
      var (r', more) := ChunkStep(r);
      var (e', more') := ChunkStep(Extend(r, y));
      assert ReadChunks(Extend(r, y)) == if more' then ReadChunks(e') else e';
      if more {
        ReadChunksExtend(r', y);
      }
    }
  }

  lemma {:induction false} ReadHeadersKeeps(r: Reader)
    requires r.outcome == Reading
    ensures var h := ReadHeaders(r);
            && !h.outcome.Finished? && h.body == r.body
            && h.expectedChunkSize == r.expectedChunkSize && h.removeCrlf == r.removeCrlf
    decreases |r.buffer|
  {
    if !r.head.parsedHeaders {
      match Find(r.buffer, CRLF)
      case None =>
      case Some(i) =>
        var r' := Line(Drop(r, i + 2), r.buffer[..i]);
        if r'.outcome == Reading {
          ReadHeadersKeeps(r');
        }
    }
  }

  lemma SizeStepKeeps(r: Reader)
    requires r.expectedChunkSize == 0
    ensures var r' := SizeStep(r).0; r'.head == r.head && r'.body == r.body
  {
    if !r.removeCrlf || |r.buffer| >= 2 {
      var r1 := Trimmed(r);
      match Find(r1.buffer, CRLF)
      case None =>
      case Some(i) =>
    }
  }

  lemma {:induction false} ReadChunksKeeps(r: Reader)
    ensures var c := ReadChunks(r); c.head == r.head && r.body <= c.body
    decreases |r.buffer|
  {
    if r.outcome == Reading {
      if r.expectedChunkSize == 0 {
        SizeStepKeeps(r);
      }
      var (r', more) := ChunkStep(r);
      if more {
        ReadChunksKeeps(r');
      }
    }
  }

  /** Content-Length mode appends whatever the last receive held. */
  function KeepSurplus(r: Reader, y: string): Reader {
    r.(body := r.body + y, taken := r.taken + Tag(y, true))
  }

  lemma ReadRestExtend(r: Reader, y: string)
    requires r.outcome == Reading && !r.head.chunked
    ensures var s := ReadRest(r);
            s.buffer == ""
            && (if s.outcome == Reading then ReadRest(Extend(s, y)) == ReadRest(Extend(r, y))
                else s.outcome == Finished && ReadRest(Extend(r, y)) == KeepSurplus(s, y))
  {
    MoveTwice(r, y, |y|);
    var s := Move(r, |r.buffer|);
    assert Extend(s, y).buffer == y;
    assert y[..|y|] == y && y[|y|..] == "";
  }

  /** Two receives against one receive of the same bytes, from any state. */
  lemma ReceiveSplit(r: Reader, x: string, y: string)
    requires r.outcome == Reading
    ensures var s, whole := Receive(r, x), Receive(r, x + y);
            match s.outcome
            case Reading => Receive(s, y) == whole
            case Failed(_) => whole == Extend(s, y)
            case Finished => whole == if s.head.chunked then Extend(s, y) else KeepSurplus(s, y)
  {
    ExtendTwice(r, x, y);
    ReadHeadersExtend(Extend(r, x), y);
    ReadHeadersKeeps(Extend(r, x));
    var h := ReadHeaders(Extend(r, x));
    if h.outcome == Reading && h.head.parsedHeaders {
      if h.head.chunked {
        ReadChunksKeeps(h);
        ReadChunksExtend(h, y);
      } else {
        ReadRestExtend(h, y);
      }
    }
  }

  /** How many receives the outer loop makes. */
  function Received(r: Reader, pieces: seq<string>): (n: nat)
    ensures n <= |pieces|
    decreases |pieces|
  {
    if pieces == [] || r.outcome != Reading then 0
    else 1 + Received(Receive(r, pieces[0]), pieces[1..])
  }

  /** Any number of receives against one receive of the whole stream. */
  lemma {:induction false} AnySegmentation(r: Reader, pieces: seq<string>)
    requires r.outcome == Reading && pieces != []
    ensures var s, whole := ReceiveAll(r, pieces), Receive(r, Concat(pieces));
            var unread := Concat(pieces[Received(r, pieces)..]);
            match s.outcome
            case Reading => whole == s && Received(r, pieces) == |pieces|
            case Failed(_) => whole == Extend(s, unread)
            case Finished => whole == if s.head.chunked then Extend(s, unread) else KeepSurplus(s, unread)
    decreases |pieces|
  {
    var x, rest := pieces[0], pieces[1..];
    var s := Receive(r, x);
    ReceiveSplit(r, x, Concat(rest));
    if s.outcome != Reading {
      assert Received(s, rest) == 0 && ReceiveAll(s, rest) == s;
    } else if rest == [] {
      assert Concat(pieces) == x;
    } else {
      AnySegmentation(s, rest);
      assert pieces[Received(r, pieces)..] == rest[Received(s, rest)..];
    }
  }

  /** Nothing is ever removed from the body. */
  lemma ReceiveGrows(r: Reader, data: string)
    requires r.outcome == Reading
    ensures r.body <= Receive(r, data).body
  {
    ReadHeadersKeeps(Extend(r, data));
    ReadChunksKeeps(ReadHeaders(Extend(r, data)));
  }

  /** What the caller of `send` can see. */
  predicate SameResponse(a: Reader, b: Reader) {
    a.outcome == b.outcome && a.head == b.head && a.body == b.body
  }

  /** Two ways of cutting the same stream give the same response, the same error or the same wait for more;
      in Content-Length mode they may differ in how much surplus is kept, and in nothing else. */
  lemma CutsAgree(r: Reader, a: seq<string>, b: seq<string>)
    requires r.outcome == Reading && a != [] && b != [] && Concat(a) == Concat(b)
    ensures var s, t := ReceiveAll(r, a), ReceiveAll(r, b);
            if s.outcome == Finished && !s.head.chunked
            then t.outcome == Finished && t.head == s.head && (s.body <= t.body || t.body <= s.body)
            else SameResponse(s, t) && s.expectedChunkSize == t.expectedChunkSize && s.removeCrlf == t.removeCrlf
  {
    AnySegmentation(r, a);
    AnySegmentation(r, b);
    var s, t := ReceiveAll(r, a), ReceiveAll(r, b);
    if s.outcome == Finished && !s.head.chunked && t.outcome == Finished {
      PrefixesAgree(s.body, t.body, Receive(r, Concat(a)).body);
    }
  }

  lemma PrefixesAgree(a: string, b: string, whole: string)
    requires a <= whole && b <= whole
    ensures a <= b || b <= a
  {
    assert a == whole[..|a|] && b == whole[..|b|];
  }
}
