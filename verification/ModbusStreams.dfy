/** What a `Modbus` object publishes: framing, conservation over its calls, and the numbers read back. */
module ModbusStreams {
  import opened Text
  import opened Modbus

  // Framing (section 3.1.3 of MODBUS Messaging on TCP/IP Implementation Guide V1.0b)

  /** A frame: a header of six bytes, and as many bytes as its length field says. */
  predicate IsFrame(f: seq<byte>) { |f| >= 6 && |f| == 6 + LengthField(f) }

  predicate AreFrames(fs: seq<seq<byte>>) {
    forall i | 0 <= i < |fs| :: IsFrame(fs[i])
  }

  function Flatten(fs: seq<seq<byte>>): seq<byte> {
    if fs == [] then [] else fs[0] + Flatten(fs[1..])
  }

  /** What remains of a packet behind its complete frames: nothing, or the start of a frame. */
  predicate IsRest(rest: seq<byte>) {
    |rest| < 6 || |rest| < 6 + LengthField(rest)
  }

  /** The complete frames at the start of a packet, and the rest. */
  function Frames(packet: seq<byte>): (fs: seq<seq<byte>>)
    ensures AreFrames(fs)
    decreases |packet|
  {
    if IsRest(packet) then []
    else [packet[..6 + LengthField(packet)]] + Frames(packet[6 + LengthField(packet)..])
  }

  function Rest(packet: seq<byte>): (rest: seq<byte>)
    decreases |packet|
  {
    if IsRest(packet) then packet else Rest(packet[6 + LengthField(packet)..])
  }

  lemma FirstFrame(f: seq<byte>, behind: seq<byte>)
    requires IsFrame(f)
    ensures var p := f + behind;
            !IsRest(p) && p[..6 + LengthField(p)] == f && p[6 + LengthField(p)..] == behind
  {
  }

  lemma FlattenCons(fs: seq<seq<byte>>, rest: seq<byte>)
    requires fs != []
    ensures Flatten(fs) + rest == fs[0] + (Flatten(fs[1..]) + rest)
  {
  }

  /** Cutting a packet into frames and a rest is unique. */
  lemma {:induction false} FramesAreUnique(fs: seq<seq<byte>>, rest: seq<byte>)
    requires AreFrames(fs) && IsRest(rest)
    ensures Frames(Flatten(fs) + rest) == fs && Rest(Flatten(fs) + rest) == rest
  {
    if fs == [] {
      assert Flatten(fs) + rest == rest;
    } else {
      FlattenCons(fs, rest);
      FirstFrame(fs[0], Flatten(fs[1..]) + rest);
      FramesAreUnique(fs[1..], rest);
      assert [fs[0]] + fs[1..] == fs;
    }
  }

  lemma {:induction false} FramesSpell(packet: seq<byte>)
    ensures IsRest(Rest(packet)) && Flatten(Frames(packet)) + Rest(packet) == packet
    decreases |packet|
  {
    if !IsRest(packet) {
      var n := 6 + LengthField(packet);
      FramesSpell(packet[n..]);
      FlattenCons(Frames(packet), Rest(packet));
      assert packet == packet[..n] + packet[n..];
    }
  }

  /** The packet consists of complete frames, at least one. */
  ghost predicate Tiles(packet: seq<byte>) {
    exists fs :: fs != [] && AreFrames(fs) && Flatten(fs) == packet
  }

  lemma TilesIff(packet: seq<byte>)
    ensures Tiles(packet) <==> packet != [] && Rest(packet) == []
  {
    FramesSpell(packet);
    if packet != [] && Rest(packet) == [] {
      assert Flatten(Frames(packet)) + [] == Flatten(Frames(packet));
      assert Frames(packet) != [] && Flatten(Frames(packet)) == packet;
    }
    forall fs | fs != [] && AreFrames(fs) && Flatten(fs) == packet ensures packet != [] && Rest(packet) == [] {
      assert Flatten(fs) + [] == packet;
      FramesAreUnique(fs, []);
      assert IsFrame(fs[0]) && |Flatten(fs)| >= |fs[0]|;
    }
  }

  // What a list of frames amounts to

  predicate RegistersInside(pdu: seq<byte>)
    requires |pdu| > 8
  {
    && (pdu[0] == 3 || pdu[0] == 4 ==> 2 + 2 * (pdu[1] / 2) <= |pdu|)
    && (pdu[0] == 16 ==> 6 + 2 * (pdu[5] / 2) <= |pdu|)
  }

  /** The analysis of a PDU is defined: no exception response, and no register outside the PDU. */
  predicate IsDefined(pdu: seq<byte>) {
    |pdu| < 5 || (pdu[0] < 128 && (|pdu| > 8 ==> RegistersInside(pdu)))
  }

  lemma DefinedIff(lastAddress: nat, pdu: seq<byte>)
    ensures Analyze(lastAddress, pdu).Undefined? <==> !IsDefined(pdu)
  {
  }

  predicate AreDefined(fs: seq<seq<byte>>)
    requires AreFrames(fs)
  {
    forall i | 0 <= i < |fs| :: IsDefined(PduOf(fs[i]))
  }

  function FrameGroup(lastAddress: nat, f: seq<byte>): seq<string>
    requires IsFrame(f)
  {
    Group(f, Analyze(lastAddress, PduOf(f)))
  }

  /** The entries of the frames, in order; each frame is analysed with the address its predecessors left. */
  function Groups(lastAddress: nat, fs: seq<seq<byte>>): seq<string>
    requires AreFrames(fs)
    decreases |fs|
  {
    if fs == [] then []
    else
      var pdu := PduOf(fs[0]);
      assert AreFrames(fs[1..]);
      FrameGroup(lastAddress, fs[0]) + Groups(LastAddressAfter(lastAddress, pdu), fs[1..])
  }

  function LastAddress(lastAddress: nat, fs: seq<seq<byte>>): nat
    requires AreFrames(fs)
    decreases |fs|
  {
    if fs == [] then lastAddress
    else
      assert AreFrames(fs[1..]);
      LastAddress(LastAddressAfter(lastAddress, PduOf(fs[0])), fs[1..])
  }

  /** Nothing undefined happens in a call: every frame is defined and no header reaches behind the packet. */
  predicate IsSound(packet: seq<byte>) {
    packet != [] && AreDefined(Frames(packet)) && (Rest(packet) == [] || |Rest(packet)| >= 6)
  }

  lemma SameGroup(packet: seq<byte>, report: Report)
    requires !IsRest(packet)
    ensures var f := packet[..6 + LengthField(packet)];
            IsFrame(f) && PduOf(f) == PduOf(packet) && Group(f, report) == Group(packet, report)
  {
  }

  lemma SoundTail(packet: seq<byte>)
    requires !IsRest(packet)
    ensures var rest := packet[6 + LengthField(packet)..];
            IsSound(packet) <==> IsDefined(PduOf(packet)) && (rest == [] || IsSound(rest))
  {
    var n := 6 + LengthField(packet);
    SameGroup(packet, Null);
    FramesSpell(packet);
    FramesSpell(packet[n..]);
    var fs, tail := Frames(packet), Frames(packet[n..]);
    assert fs == [packet[..n]] + tail;
    assert forall i | 0 <= i < |tail| :: tail[i] == fs[i + 1];
    assert AreDefined(fs) <==> IsDefined(PduOf(packet)) && AreDefined(tail) by {
      assert forall i | 0 <= i < |fs| :: fs[i] == if i == 0 then packet[..n] else tail[i - 1];
    }
  }

  /** What a call does, for every packet: the groups of its complete frames are added to `data`; when the frames
      make up the whole packet everything gathered so far is published, and otherwise it is kept. */
  lemma {:induction false} ProcessIs(d: State, packet: seq<byte>)
    requires packet != []
    ensures var (d', outcome) := Process(d, packet);
            var fs := Frames(packet);
            if !IsSound(packet) then outcome == Faulty
            else
              var data := d.data + Groups(d.lastAddress, fs);
              && d'.lastAddress == LastAddress(d.lastAddress, fs)
              && if Rest(packet) == [] then d'.data == [] && data != [] && outcome == Published(Join(data, ';'))
                 else d'.data == data && outcome == Withheld
    decreases |packet|
  {
    FramesSpell(packet);
    if IsRest(packet) {
      assert d.data + [] == d.data;
    } else {
      var n, pdu := 6 + LengthField(packet), PduOf(packet);
      var report := Analyze(d.lastAddress, pdu);
      SameGroup(packet, report);
      SoundTail(packet);
      DefinedIff(d.lastAddress, pdu);
      if !report.Undefined? {
        var d1 := State(d.data + Group(packet, report), LastAddressAfter(d.lastAddress, pdu));
        GroupsOfPacket(d, packet);
        if packet[n..] == [] {
          assert d1.data + [] == d1.data;
        } else {
          ProcessIs(d1, packet[n..]);
        }
      }
    }
  }

  lemma GroupsOfPacket(d: State, packet: seq<byte>)
    requires !IsRest(packet)
    ensures var n, pdu := 6 + LengthField(packet), PduOf(packet);
            var rest := packet[n..];
            var last := LastAddressAfter(d.lastAddress, pdu);
            && d.data + Groups(d.lastAddress, Frames(packet))
               == d.data + Group(packet, Analyze(d.lastAddress, pdu)) + Groups(last, Frames(rest))
            && LastAddress(d.lastAddress, Frames(packet)) == LastAddress(last, Frames(rest))
            && Rest(packet) == Rest(rest)
  {
    FramesSpell(packet);
    SameGroup(packet, Analyze(d.lastAddress, PduOf(packet)));
    FramesSpell(packet[6 + LengthField(packet)..]);
    assert Frames(packet)[1..] == Frames(packet[6 + LengthField(packet)..]);
  }

  /** A call publishes exactly when its payload tiles into complete frames, provided nothing undefined happens. */
  lemma PublishesIff(d: State, packet: seq<byte>)
    requires IsSound(packet)
    ensures Process(d, packet).1.Published? <==> Tiles(packet)
  {
    ProcessIs(d, packet);
    TilesIff(packet);
  }

  // Runs of calls on one object

  function Run(d: State, packets: seq<seq<byte>>): State
    decreases |packets|
  {
    if packets == [] then d else Run(Process(d, packets[0]).0, packets[1..])
  }

  /** The fields of all texts published in a run, each text split at its semicolons. */
  function PublishedFields(d: State, packets: seq<seq<byte>>): seq<string>
    decreases |packets|
  {
    if packets == [] then []
    else
      var (d', outcome) := Process(d, packets[0]);
      (if outcome.Published? then Split(outcome.text, ';') else []) + PublishedFields(d', packets[1..])
  }

  predicate AreSound(packets: seq<seq<byte>>) {
    forall i | 0 <= i < |packets| :: IsSound(packets[i])
  }

  /** The complete frames of all packets, in order. */
  function AllFrames(packets: seq<seq<byte>>): (fs: seq<seq<byte>>)
    ensures AreFrames(fs)
  {
    if packets == [] then [] else Frames(packets[0]) + AllFrames(packets[1..])
  }

  lemma Associative(a: seq<string>, b: seq<string>, c: seq<string>)
    ensures a + b + c == a + (b + c)
  {
  }

  lemma GroupsOfCons(lastAddress: nat, a: seq<seq<byte>>, b: seq<seq<byte>>)
    requires AreFrames(a) && AreFrames(b) && a != []
    ensures AreFrames(a + b) && AreFrames(a[1..]) && AreFrames(a[1..] + b)
    ensures var last := LastAddressAfter(lastAddress, PduOf(a[0]));
            && Groups(lastAddress, a + b) == FrameGroup(lastAddress, a[0]) + Groups(last, a[1..] + b)
            && LastAddress(lastAddress, a + b) == LastAddress(last, a[1..] + b)
  {
    assert (a + b)[1..] == a[1..] + b && (a + b)[0] == a[0];
  }

  lemma {:induction false} GroupsAppend(lastAddress: nat, a: seq<seq<byte>>, b: seq<seq<byte>>)
    requires AreFrames(a) && AreFrames(b)
    ensures AreFrames(a + b)
    ensures Groups(lastAddress, a + b) == Groups(lastAddress, a) + Groups(LastAddress(lastAddress, a), b)
    ensures LastAddress(lastAddress, a + b) == LastAddress(LastAddress(lastAddress, a), b)
    decreases |a|
  {
    if a == [] {
      assert a + b == b;
      assert [] + Groups(lastAddress, b) == Groups(lastAddress, b);
    } else {
      var last := LastAddressAfter(lastAddress, PduOf(a[0]));
      GroupsOfCons(lastAddress, a, b);
      GroupsAppend(last, a[1..], b);
      Associative(FrameGroup(lastAddress, a[0]), Groups(last, a[1..]), Groups(LastAddress(last, a[1..]), b));
    }
  }

  /** One call: the fields published and those still in `data` are the old ones and the new ones, in order. */
  lemma CallConserves(d: State, packet: seq<byte>)
    requires IsSound(packet)
    ensures var (d', outcome) := Process(d, packet);
            && (if outcome.Published? then Split(outcome.text, ';') else []) + SplitEach(d'.data, ';')
               == SplitEach(d.data + Groups(d.lastAddress, Frames(packet)), ';')
            && d'.lastAddress == LastAddress(d.lastAddress, Frames(packet))
  {
    ProcessIs(d, packet);
    var data := d.data + Groups(d.lastAddress, Frames(packet));
    if Rest(packet) == [] {
      SplitJoin(data, ';');
      assert SplitEach(data, ';') + [] == SplitEach(data, ';');
    }
  }

  /** Conservation: over any run of calls in which nothing undefined happens, everything published, then `data`,
      is what was there before, then the groups of all frames of all packets, field by field and in order. */
  lemma {:induction false} RunConserves(d: State, packets: seq<seq<byte>>)
    requires AreSound(packets)
    ensures PublishedFields(d, packets) + SplitEach(Run(d, packets).data, ';')
         == SplitEach(d.data, ';') + SplitEach(Groups(d.lastAddress, AllFrames(packets)), ';')
    ensures Run(d, packets).lastAddress == LastAddress(d.lastAddress, AllFrames(packets))
    decreases |packets|
  {
    if packets != [] {
      var packet, rest := packets[0], packets[1..];
      var (d', outcome) := Process(d, packet);
      assert AreSound(rest) by {
        assert forall i | 0 <= i < |rest| :: rest[i] == packets[i + 1];
      }
      CallConserves(d, packet);
      RunConserves(d', rest);
      var fs, more := Frames(packet), AllFrames(rest);
      GroupsAppend(d.lastAddress, fs, more);
      SplitEachAppend(d.data, Groups(d.lastAddress, fs), ';');
      SplitEachAppend(Groups(d.lastAddress, fs), Groups(d'.lastAddress, more), ';');
      RunStep(if outcome.Published? then Split(outcome.text, ';') else [], SplitEach(d'.data, ';'),
              PublishedFields(d', rest), SplitEach(Run(d', rest).data, ';'),
              SplitEach(d.data, ';'), SplitEach(Groups(d.lastAddress, fs), ';'),
              SplitEach(Groups(d'.lastAddress, more), ';'));
    }
  }

  lemma RunStep(now: seq<string>, held: seq<string>, later: seq<string>, end: seq<string>,
                before: seq<string>, groups: seq<string>, more: seq<string>)
    requires now + held == before + groups && later + end == held + more
    ensures now + later + end == before + (groups + more)
  {
    assert now + later + end == now + (later + end) == now + held + more;
  }

  /** The last query among the PDUs of the frames. */
  function LatestQuery(fs: seq<seq<byte>>): (q: Option<seq<byte>>)
    requires AreFrames(fs)
    ensures q.Some? ==> IsQuery(q.value)
  {
    if fs == [] then None
    else
      var pdu := PduOf(fs[|fs| - 1]);
      assert AreFrames(fs[..|fs| - 1]);
      if IsQuery(pdu) then Some(pdu) else LatestQuery(fs[..|fs| - 1])
  }

  lemma LastAddressNext(lastAddress: nat, fs: seq<seq<byte>>)
    requires AreFrames(fs) && fs != []
    ensures AreFrames(fs[..|fs| - 1])
    ensures LastAddress(lastAddress, fs)
         == LastAddressAfter(LastAddress(lastAddress, fs[..|fs| - 1]), PduOf(fs[|fs| - 1]))
  {
    var front, last := fs[..|fs| - 1], fs[|fs| - 1..];
    assert AreFrames(front) && AreFrames(last);
    GroupsAppend(lastAddress, front, last);
    assert fs == front + last && |last[1..]| == 0;
  }

  /** Responses are numbered from the start address in bytes 1 and 2 of the latest query, over all calls. */
  lemma {:induction false} NumberedFromLatestQuery(lastAddress: nat, fs: seq<seq<byte>>)
    requires AreFrames(fs)
    ensures var q := LatestQuery(fs);
            LastAddress(lastAddress, fs) == if q.Some? then Word(q.value[1], q.value[2]) else lastAddress
    decreases |fs|
  {
    if fs != [] {
      LastAddressNext(lastAddress, fs);
      NumberedFromLatestQuery(lastAddress, fs[..|fs| - 1]);
    }
  }
}
