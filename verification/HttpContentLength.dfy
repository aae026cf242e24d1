/** Responses delimited by Content-Length. */
module HttpContentLength {
  import opened Text
  import opened HttpReader
  import opened HttpSegmentation

  /** `head` is a header section that announces `n` bytes of body and no chunked coding. */
  predicate Announces(r0: Reader, head: string, n: nat) {
    var h := ReadHeaders(Extend(r0, head));
    && r0.outcome == Reading && h.outcome == Reading && h.head.parsedHeaders && !h.head.chunked
    && h.head.contentLengthReceived && h.head.contentLength == n && h.buffer == "" && h.body == ""
  }

  lemma ReadWhole(r0: Reader, head: string, n: nat, body: string)
    requires Announces(r0, head, n)
    ensures var h, c := ReadHeaders(Extend(r0, head)), Receive(r0, head + body);
            c.body == body && c.head == h.head && c.outcome == if |body| >= n then Finished else Reading
  {
    ReadHeadersExtend(Extend(r0, head), body);
    ExtendTwice(r0, head, body);
    var h := ReadHeaders(Extend(r0, head));
    assert Extend(h, body).buffer == body;
  }

  /** Content-Length mode is finished by nothing but a complete body. */
  lemma {:induction false} FinishedHasBody(r: Reader, pieces: seq<string>)
    requires r.outcome == Reading
    ensures var s := ReceiveAll(r, pieces);
            s.outcome == Finished && !s.head.chunked ==>
              s.head.contentLengthReceived && |s.body| >= s.head.contentLength
    decreases |pieces|
  {
    if pieces != [] {
      var h, s := ReadHeaders(Extend(r, pieces[0])), Receive(r, pieces[0]);
      ReadHeadersKeeps(Extend(r, pieces[0]));
      ReadChunksKeeps(h);
      if s.outcome == Reading {
        FinishedHasBody(s, pieces[1..]);
      }
    }
  }

  /** As long as bytes of the header section or of the announced body are missing, the reader waits. */
  lemma NeverEarly(r0: Reader, head: string, n: nat, body: string, pieces: seq<string>, missing: string)
    requires Announces(r0, head, n) && |body| == n
    requires pieces != [] && missing != "" && Concat(pieces) + missing == head + body
    ensures ReceiveAll(r0, pieces).outcome == Reading
  {
    ReadWhole(r0, head, n, body);
    AnySegmentation(r0, pieces);
    ReceiveSplit(r0, Concat(pieces), missing);
    AnySegmentation(r0, [Concat(pieces)]);
    assert Concat([Concat(pieces)]) == Concat(pieces);
    FinishedHasBody(r0, [Concat(pieces)]);
    ReceiveOne(r0, Concat(pieces));
  }

  lemma ReceiveOne(r: Reader, data: string)
    requires r.outcome == Reading
    ensures ReceiveAll(r, [data]) == Receive(r, data)
  {
  }

  /** Until the outer loop stops, every receive before has left it reading. */
  lemma {:induction false} ReadingBefore(r: Reader, pieces: seq<string>, j: nat)
    requires r.outcome == Reading && j < Received(r, pieces)
    ensures ReceiveAll(r, pieces[..j]).outcome == Reading
    decreases |pieces|
  {
    if j > 0 {
      assert pieces[..j][1..] == pieces[1..][..j - 1] && pieces[..j][0] == pieces[0];
      ReadingBefore(Receive(r, pieces[0]), pieces[1..], j - 1);
    }
  }

  lemma ConcatSplit(pieces: seq<string>, k: nat)
    requires k <= |pieces|
    ensures Concat(pieces) == Concat(pieces[..k]) + Concat(pieces[k..])
  {
    ConcatAppend(pieces[..k], pieces[k..]);
    assert pieces == pieces[..k] + pieces[k..];
  }

  /** The end of the stream after `j` receives. */
  function Boundary(pieces: seq<string>, j: nat): nat
    requires j <= |pieces|
  {
    |Concat(pieces[..j])|
  }

  lemma BoundaryMonotone(pieces: seq<string>, j: nat, k: nat)
    requires j <= k <= |pieces|
    ensures Boundary(pieces, j) <= Boundary(pieces, k)
  {
    ConcatSplit(pieces[..k], j);
    assert pieces[..k][..j] == pieces[..j];
  }

  lemma PrefixLonger(a: string, b: string, head: string, data: string)
    requires a + b == head + data && |a| >= |head|
    ensures a == head + a[|head|..]
  {
    assert a == (head + data)[..|a|];
  }

  /** A reader still reading after `j` receives has not received the announced length. */
  lemma NotYet(r0: Reader, head: string, n: nat, data: string, pieces: seq<string>, j: nat)
    requires Announces(r0, head, n) && Concat(pieces) == head + data
    requires 0 < j <= |pieces| && ReceiveAll(r0, pieces[..j]).outcome == Reading
    ensures Boundary(pieces, j) < |head| + n
  {
    AnySegmentation(r0, pieces[..j]);
    ConcatSplit(pieces, j);
    var front := Concat(pieces[..j]);
    if |front| >= |head| {
      PrefixLonger(front, Concat(pieces[j..]), head, data);
      ReadWhole(r0, head, n, front[|head|..]);
    }
  }

  lemma BodyAtStop(r0: Reader, head: string, n: nat, data: string, pieces: seq<string>)
    requires Announces(r0, head, n) && |data| >= n
    requires pieces != [] && Concat(pieces) == head + data
    ensures var s, k := ReceiveAll(r0, pieces), Received(r0, pieces);
            s.outcome == Finished && |s.body| >= n && s.body + Concat(pieces[k..]) == data
  {
    ReadWhole(r0, head, n, data);
    AnySegmentation(r0, pieces);
    FinishedHasBody(r0, pieces);
  }

  /** The reader stops at the first boundary between receives at or behind the announced length,
      and the body is everything up to there. */
  lemma StopsAtBoundary(r0: Reader, head: string, n: nat, data: string, pieces: seq<string>)
    requires Announces(r0, head, n) && |data| >= n
    requires pieces != [] && Concat(pieces) == head + data
    ensures var s, k := ReceiveAll(r0, pieces), Received(r0, pieces);
            && s.outcome == Finished && |s.body| >= n && Boundary(pieces, k) == |head| + |s.body| && s.body <= data
            && forall j | 0 < j < k :: Boundary(pieces, j) < |head| + n
  {
    BodyAtStop(r0, head, n, data, pieces);
    ConcatSplit(pieces, Received(r0, pieces));
    forall j | 0 < j < Received(r0, pieces) ensures Boundary(pieces, j) < |head| + n {
      ReadingBefore(r0, pieces, j);
      NotYet(r0, head, n, data, pieces, j);
    }
  }

  lemma SameHead(r0: Reader, head: string, n: nat, body: string, pieces: seq<string>)
    requires Announces(r0, head, n) && |body| >= n && pieces != [] && Concat(pieces) == head + body
    ensures ReceiveAll(r0, pieces).head == ReadHeaders(Extend(r0, head)).head
  {
    ReadWhole(r0, head, n, body);
    AnySegmentation(r0, pieces);
  }

  /** Exactly the announced bytes, cut in any way, are the body; the reader finishes with the last of them. */
  lemma ExactBody(r0: Reader, head: string, n: nat, body: string, pieces: seq<string>)
    requires Announces(r0, head, n) && |body| == n
    requires pieces != [] && Concat(pieces) == head + body
    ensures var s := ReceiveAll(r0, pieces); s.outcome == Finished && s.body == body
  {
    StopsAtBoundary(r0, head, n, body, pieces);
  }

  /** With more bytes behind the announced ones, the body is the announced one
      if and only if some receive ends exactly with it. */
  lemma SurplusKept(r0: Reader, head: string, n: nat, data: string, pieces: seq<string>)
    requires Announces(r0, head, n) && |data| >= n
    requires pieces != [] && Concat(pieces) == head + data
    ensures ReceiveAll(r0, pieces).body == data[..n]
       <==> exists j | 0 < j <= |pieces| :: Boundary(pieces, j) == |head| + n
  {
    StopsAtBoundary(r0, head, n, data, pieces);
    var s, k := ReceiveAll(r0, pieces), Received(r0, pieces);
    assert k > 0;
    if s.body == data[..n] {
      assert Boundary(pieces, k) == |head| + n;
    }
    forall j | 0 < j <= |pieces| && Boundary(pieces, j) == |head| + n ensures |s.body| == n {
      if j >= k {
        BoundaryMonotone(pieces, k, j);
      }
    }
  }
}
