/** No byte of the stream is lost, repeated or reordered by the reader. */
module HttpConservation {
  import opened Text
  import opened HttpReader
  import opened HttpSegmentation

  /** The bytes taken from the buffer, in order. */
  function Spell(t: seq<Taken>): string {
    seq(|t|, i requires 0 <= i < |t| => t[i].b)
  }

  /** Those of them that went to the body. */
  function PayloadOf(t: seq<Taken>): string {
    if t == [] then ""
    else PayloadOf(t[..|t| - 1]) + if t[|t| - 1].payload then [t[|t| - 1].b] else ""
  }

  /** What was taken and what waits in the buffer spell the stream received so far,
      and the body is the part of it taken as payload. */
  predicate Accounts(r: Reader, stream: string) {
    Spell(r.taken) + r.buffer == stream && PayloadOf(r.taken) == r.body
  }

  lemma {:induction false} PayloadTag(t: seq<Taken>, s: string, payload: bool)
    ensures PayloadOf(t + Tag(s, payload)) == PayloadOf(t) + if payload then s else ""
  {
    if s == "" {
      assert t + Tag(s, payload) == t;
    } else {
      var front, last := s[..|s| - 1], s[|s| - 1];
      assert (t + Tag(s, payload))[..|t| + |s| - 1] == t + Tag(front, payload);
      PayloadTag(t, front, payload);
      assert s == front + [last];
    }
  }

  lemma TakeAccounts(r: Reader, n: nat, stream: string)
    requires n <= |r.buffer| && Accounts(r, stream)
    ensures Accounts(Drop(r, n), stream) && Accounts(Move(r, n), stream)
  {
    PayloadTag(r.taken, r.buffer[..n], true);
    PayloadTag(r.taken, r.buffer[..n], false);
    forall payload: bool ensures Spell(r.taken + Tag(r.buffer[..n], payload)) + r.buffer[n..] == stream {
      assert Spell(r.taken + Tag(r.buffer[..n], payload)) == Spell(r.taken) + r.buffer[..n];
      assert r.buffer == r.buffer[..n] + r.buffer[n..];
    }
  }

  lemma {:induction false} HeadersAccount(r: Reader, stream: string)
    requires Accounts(r, stream)
    ensures Accounts(ReadHeaders(r), stream)
    decreases |r.buffer|
  {
    if !r.head.parsedHeaders && r.outcome == Reading {
      match Find(r.buffer, CRLF)
      case None =>
      case Some(i) =>
        TakeAccounts(r, i + 2, stream);
        HeadersAccount(Line(Drop(r, i + 2), r.buffer[..i]), stream);
    }
  }

  lemma SizeStepAccounts(r: Reader, stream: string)
    requires r.expectedChunkSize == 0 && Accounts(r, stream)
    ensures Accounts(SizeStep(r).0, stream)
  {
    hide Spell, PayloadOf, Stoul, Find, Tag;
    if !r.removeCrlf || |r.buffer| >= 2 {
      if r.removeCrlf {
        TakeAccounts(r, 2, stream);
      }
      var r1 := Trimmed(r);
      match Find(r1.buffer, CRLF)
      case None =>
      case Some(i) => TakeAccounts(r1, i + 2, stream);
    }
  }

  lemma {:induction false} ChunksAccount(r: Reader, stream: string)
    requires Accounts(r, stream)
    ensures Accounts(ReadChunks(r), stream)
    decreases |r.buffer|
  {
    if r.outcome == Reading {
      if r.expectedChunkSize == 0 {
        SizeStepAccounts(r, stream);
      } else {
        var limit := Narrow(r.expectedChunkSize);
        if limit >= 0 {
          TakeAccounts(r, if limit <= |r.buffer| then limit else |r.buffer|, stream);
        }
      }
      var (r', more) := ChunkStep(r);
      if more {
        ChunksAccount(r', stream);
      }
    }
  }

  lemma ReceiveAccounts(r: Reader, data: string, stream: string)
    requires r.outcome == Reading && Accounts(r, stream)
    ensures Accounts(Receive(r, data), stream + data)
  {
    assert Spell(r.taken) + (r.buffer + data) == Spell(r.taken) + r.buffer + data;
    HeadersAccount(Extend(r, data), stream + data);
    var h := ReadHeaders(Extend(r, data));
    ChunksAccount(h, stream + data);
    TakeAccounts(h, |h.buffer|, stream + data);
  }

  lemma ConcatPrefix(stream: string, pieces: seq<string>, n: nat)
    requires n < |pieces|
    ensures stream + Concat(pieces[..n + 1]) == stream + pieces[0] + Concat(pieces[1..][..n])
  {
    assert pieces[..n + 1] == [pieces[0]] + pieces[1..][..n];
  }

  /** After any number of receives, everything received is accounted for. */
  lemma {:induction false} Conservation(r: Reader, pieces: seq<string>, stream: string)
    requires Accounts(r, stream)
    ensures Accounts(ReceiveAll(r, pieces), stream + Concat(pieces[..Received(r, pieces)]))
    decreases |pieces|
  {
    if pieces == [] || r.outcome != Reading {
      assert stream + "" == stream;
    } else {
      var s, rest := Receive(r, pieces[0]), pieces[1..];
      ReceiveAccounts(r, pieces[0], stream);
      Conservation(s, rest, stream + pieces[0]);
      ConcatPrefix(stream, pieces, Received(s, rest));
    }
  }
}
