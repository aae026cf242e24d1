/** The published text read back: transaction ids, PDUs and register values. */
module ModbusReports {
  import opened Text
  import opened Modbus
  import opened ModbusStreams

  // Hexadecimal

  function ParseHexByte(s: string): Option<byte> {
    if |s| == 2 && IsDigit(s[0], 16) && IsDigit(s[1], 16)
    then Some(DigitValue(s[0], 16) * 16 + DigitValue(s[1], 16)) else None
  }

  function ParseHexBytes(parts: seq<string>): Option<seq<byte>> {
    if parts == [] then Some([])
    else
      var first, rest := ParseHexByte(parts[0]), ParseHexBytes(parts[1..]);
      if first.Some? && rest.Some? then Some([first.value] + rest.value) else None
  }

  function ParseHex(s: string): Option<seq<byte>> {
    if s == "" then Some([]) else ParseHexBytes(Split(s, ':'))
  }

  lemma HexByteParses(b: byte)
    ensures ParseHexByte(HexByte(b)) == Some(b)
  {
  }

  lemma {:induction false} HexBytesParse(bytes: seq<byte>)
    ensures ParseHexBytes(HexBytes(bytes)) == Some(bytes)
  {
    if bytes == [] {
      assert HexBytes(bytes) == [];
    } else {
      assert HexBytes(bytes)[1..] == HexBytes(bytes[1..]);
      HexByteParses(bytes[0]);
      HexBytesParse(bytes[1..]);
      assert [bytes[0]] + bytes[1..] == bytes;
    }
  }

  /** Every byte string is recovered from its hexadecimal text. */
  lemma HexRoundTrip(bytes: seq<byte>)
    ensures ParseHex(Hex(bytes)) == Some(bytes)
  {
    if bytes != [] {
      SplitJoin(HexBytes(bytes), ':');
      forall p | p in HexBytes(bytes) ensures ':' !in p {
        assert IsDigit(p[0], 16) && IsDigit(p[1], 16);
      }
      SplitEachPlain(HexBytes(bytes), ':');
      assert Hex(bytes) != "";
      HexBytesParse(bytes);
    }
  }

  lemma {:induction false} JoinAvoids(parts: seq<string>, c: char, avoided: char)
    requires c != avoided && forall p | p in parts :: avoided !in p
    ensures avoided !in Join(parts, c)
  {
    if |parts| > 1 {
      JoinAvoids(parts[1..], c, avoided);
    }
  }

  lemma HexAvoids(bytes: seq<byte>)
    ensures ';' !in Hex(bytes)
  {
    forall p | p in HexBytes(bytes) ensures ';' !in p {
      assert IsDigit(p[0], 16) && IsDigit(p[1], 16);
    }
    JoinAvoids(HexBytes(bytes), ':', ';');
  }

  // The fields of a group

  const ID := "Transaction Id:"
  const HEX := "Hex:"

  /** What stands behind `prefix` in the fields that start with it. */
  function Values(fields: seq<string>, prefix: string): seq<string> {
    if fields == [] then []
    else (if prefix <= fields[0] then [fields[0][|prefix|..]] else []) + Values(fields[1..], prefix)
  }

  lemma {:induction false} ValuesAppend(a: seq<string>, b: seq<string>, prefix: string)
    ensures Values(a + b, prefix) == Values(a, prefix) + Values(b, prefix)
  {
    if a == [] {
      assert a + b == b;
    } else {
      assert (a + b)[1..] == a[1..] + b;
      ValuesAppend(a[1..], b, prefix);
    }
  }

  /** A field of a report: it holds no semicolon and cannot be taken for a transaction id or a Hex field. */
  predicate IsReportField(s: string) {
    ';' !in s && s != "" && s[0] != 'T' && s[0] != 'H'
  }

  lemma EntryIsField(address: nat, value: int)
    ensures IsReportField(Entry(address, value))
  {
    DecimalIsNot(address, ';');
    DecimalIsNot(value, ';');
    DigitsRead(address, 10);
    assert IsDigit(Digits(address, 10)[0], 10);
  }

  lemma StartIsField(pdu: seq<byte>)
    requires |pdu| >= 5
    ensures IsReportField(StartEntry(pdu)) && IsReportField(SubfunctionEntry(pdu))
  {
    DecimalIsNot(Word(pdu[1], pdu[2]), ';');
    DecimalIsNot(Word(pdu[3], pdu[4]), ';');
    DecimalIsNot(|pdu|, ';');
  }

  predicate AreReportFields(fields: seq<string>) {
    forall i | 0 <= i < |fields| :: IsReportField(fields[i])
  }

  lemma RegistersAreFields(words: seq<byte>, address: nat)
    ensures AreReportFields(Registers(words, address))
  {
    var entries := Registers(words, address);
    forall i | 0 <= i < |entries| ensures IsReportField(entries[i]) {
      EntryIsField(address + i, Signed16(Word(words[2 * i], words[2 * i + 1])));
    }
  }

  lemma ShortNameIsPlain(code: nat)
    requires code <= 4
    ensures ';' !in FunctionName(code)
  {
  }

  lemma MiddleNameIsPlain(code: nat)
    requires 4 < code <= 8
    ensures ';' !in FunctionName(code)
  {
  }

  lemma LongNameIsPlain(code: nat)
    requires code > 8
    ensures ';' !in FunctionName(code)
  {
  }

  lemma TitleIsField(code: nat)
    ensures AreReportFields(Title(code))
  {
    if code <= 4 {
      ShortNameIsPlain(code);
    } else if code <= 8 {
      MiddleNameIsPlain(code);
    } else {
      LongNameIsPlain(code);
    }
  }

  lemma TitleAndFields(code: nat, fields: seq<string>)
    requires AreReportFields(fields)
    ensures AreReportFields(Title(code) + fields)
  {
    TitleIsField(code);
    var all := Title(code) + fields;
    assert forall i | 0 < i < |all| :: all[i] == fields[i - 1];
  }

  lemma RegisterReportFields(pdu: seq<byte>, from: nat, count: nat, address: nat)
    requires pdu != []
    ensures var report := RegisterReport(pdu, from, count, address);
            report.Entries? ==> AreReportFields(report.entries)
  {
    if from + 2 * count <= |pdu| {
      RegistersAreFields(pdu[from..from + 2 * count], address);
      TitleAndFields(pdu[0], Registers(pdu[from..from + 2 * count], address));
    }
  }

  lemma ReportFields(lastAddress: nat, pdu: seq<byte>)
    requires Analyze(lastAddress, pdu).Entries?
    ensures Analyze(lastAddress, pdu).entries != [] && AreReportFields(Analyze(lastAddress, pdu).entries)
  {
    StartIsField(pdu);
    TitleIsField(pdu[0]);
    if pdu[0] == 3 || pdu[0] == 4 {
      RegisterReportFields(pdu, 2, pdu[1] / 2, lastAddress);
      TitleAndFields(pdu[0], [StartEntry(pdu)]);
    } else if pdu[0] == 8 {
      TitleAndFields(8, [SubfunctionEntry(pdu)]);
    } else if pdu[0] == 16 {
      RegisterReportFields(pdu, 6, pdu[5] / 2, Word(pdu[1], pdu[2]));
    }
  }

  lemma {:induction false} NoValues(fields: seq<string>, prefix: string)
    requires AreReportFields(fields)
    requires prefix == ID || prefix == HEX
    ensures Values(fields, prefix) == []
  {
    if fields != [] {
      assert forall i | 0 <= i < |fields[1..]| :: fields[1..][i] == fields[i + 1];
      assert ID[0] == 'T' && HEX[0] == 'H';
      NoValues(fields[1..], prefix);
    }
  }

  /** The fields of one group of the published text, in order. */
  lemma GroupFields(f: seq<byte>, report: Report)
    requires IsFrame(f) && (report.Entries? ==> report.entries != [] && AreReportFields(report.entries))
    ensures SplitEach(Group(f, report), ';') ==
            [ID + Decimal(Word(f[0], f[1])), "Lenght:" + Decimal(LengthField(f) - 1), HEX + Hex(PduOf(f))]
            + if report.Entries? then report.entries else []
  {
    var head := [ID + Decimal(Word(f[0], f[1])), "Lenght:" + Decimal(LengthField(f) - 1), HEX + Hex(PduOf(f))];
    DecimalIsNot(Word(f[0], f[1]), ';');
    DecimalIsNot(LengthField(f) - 1, ';');
    HexAvoids(PduOf(f));
    SplitEachPlain(head, ';');
    if report.Entries? {
      var joined := [Join(report.entries, ';')];
      SplitEachAppend(head, joined, ';');
      SplitJoin(report.entries, ';');
      SplitEachPlain(report.entries, ';');
      assert |joined[1..]| == 0;
      assert SplitEach(joined, ';') == report.entries + [];
    } else {
      assert Group(f, report) == head == head + [];
    }
  }

  lemma ValuesOfOne(field: string, prefix: string)
    ensures Values([field], prefix) == if prefix <= field then [field[|prefix|..]] else []
  {
    assert |[field][1..]| == 0;
  }

  lemma HeadValues(id: string, length: string, hex: string)
    ensures Values([ID + id, "Lenght:" + length, HEX + hex], ID) == [id]
    ensures Values([ID + id, "Lenght:" + length, HEX + hex], HEX) == [hex]
  {
    var a, b, c := ID + id, "Lenght:" + length, HEX + hex;
    assert a[0] == ID[0] == 'T' && b[0] == 'L' && c[0] == HEX[0] == 'H';
    assert a[|ID|..] == id && c[|HEX|..] == hex;
    assert [a, b, c] == [a] + ([b] + [c]);
    forall prefix: string
      ensures Values([a, b, c], prefix) == Values([a], prefix) + (Values([b], prefix) + Values([c], prefix))
    {
      ValuesAppend([a], [b] + [c], prefix);
      ValuesAppend([b], [c], prefix);
    }
    ValuesOfOne(a, ID);
    ValuesOfOne(b, ID);
    ValuesOfOne(c, ID);
    ValuesOfOne(a, HEX);
    ValuesOfOne(b, HEX);
    ValuesOfOne(c, HEX);
  }

  /** A group gives back the transaction id and the PDU of its frame. */
  lemma GroupValues(lastAddress: nat, f: seq<byte>)
    requires IsFrame(f)
    ensures var fields := SplitEach(FrameGroup(lastAddress, f), ';');
            Values(fields, ID) == [Decimal(Word(f[0], f[1]))] && Values(fields, HEX) == [Hex(PduOf(f))]
  {
    var report := Analyze(lastAddress, PduOf(f));
    if report.Entries? {
      ReportFields(lastAddress, PduOf(f));
    }
    GroupFields(f, report);
    var id, length, hex := Decimal(Word(f[0], f[1])), Decimal(LengthField(f) - 1), Hex(PduOf(f));
    var head, entries := [ID + id, "Lenght:" + length, HEX + hex], if report.Entries? then report.entries else [];
    HeadValues(id, length, hex);
    ValuesAppend(head, entries, ID);
    ValuesAppend(head, entries, HEX);
    NoValues(entries, ID);
    NoValues(entries, HEX);
  }

  function Ids(fs: seq<seq<byte>>): seq<string>
    requires AreFrames(fs)
  {
    seq(|fs|, i requires 0 <= i < |fs| => Decimal(Word(fs[i][0], fs[i][1])))
  }

  function Hexes(fs: seq<seq<byte>>): seq<string>
    requires AreFrames(fs)
  {
    seq(|fs|, i requires 0 <= i < |fs| => Hex(PduOf(fs[i])))
  }

  lemma ValuesOfTwo(first: seq<string>, rest: seq<string>, prefix: string)
    ensures Values(SplitEach(first + rest, ';'), prefix)
         == Values(SplitEach(first, ';'), prefix) + Values(SplitEach(rest, ';'), prefix)
  {
    SplitEachAppend(first, rest, ';');
    ValuesAppend(SplitEach(first, ';'), SplitEach(rest, ';'), prefix);
  }

  lemma IdsCons(fs: seq<seq<byte>>)
    requires AreFrames(fs) && fs != []
    ensures AreFrames(fs[1..]) && Ids(fs) == [Decimal(Word(fs[0][0], fs[0][1]))] + Ids(fs[1..])
  {
    hide Decimal, Word;
    assert forall i | 0 <= i < |fs[1..]| :: fs[1..][i] == fs[i + 1];
  }

  lemma HexesCons(fs: seq<seq<byte>>)
    requires AreFrames(fs) && fs != []
    ensures AreFrames(fs[1..]) && Hexes(fs) == [Hex(PduOf(fs[0]))] + Hexes(fs[1..])
  {
    hide Hex, PduOf;
    assert forall i | 0 <= i < |fs[1..]| :: fs[1..][i] == fs[i + 1];
  }

  lemma GroupsCons(lastAddress: nat, fs: seq<seq<byte>>)
    requires AreFrames(fs) && fs != []
    ensures AreFrames(fs[1..])
    ensures Groups(lastAddress, fs)
         == FrameGroup(lastAddress, fs[0]) + Groups(LastAddressAfter(lastAddress, PduOf(fs[0])), fs[1..])
  {
  }

  /** The published groups give back the transaction ids and the PDUs of all frames, in order. */
  lemma {:induction false} GroupsValues(lastAddress: nat, fs: seq<seq<byte>>)
    requires AreFrames(fs)
    ensures var fields := SplitEach(Groups(lastAddress, fs), ';');
            Values(fields, ID) == Ids(fs) && Values(fields, HEX) == Hexes(fs)
    decreases |fs|
  {
    if fs != [] {
      var first, last := FrameGroup(lastAddress, fs[0]), LastAddressAfter(lastAddress, PduOf(fs[0]));
      GroupsCons(lastAddress, fs);
      IdsCons(fs);
      HexesCons(fs);
      GroupsValues(last, fs[1..]);
      GroupValues(lastAddress, fs[0]);
      ValuesOfTwo(first, Groups(last, fs[1..]), ID);
      ValuesOfTwo(first, Groups(last, fs[1..]), HEX);
    }
  }

  // Application data units

  datatype Adu = Adu(transaction: nat, protocol: nat, unitId: byte, pdu: seq<byte>)

  predicate IsAdu(a: Adu) {
    a.transaction < 0x1_0000 && a.protocol < 0x1_0000 && |a.pdu| + 1 < 0x1_0000
  }

  predicate AreAdus(adus: seq<Adu>) {
    forall i | 0 <= i < |adus| :: IsAdu(adus[i])
  }

  function EncodeAdu(a: Adu): (f: seq<byte>)
    requires IsAdu(a)
    ensures IsFrame(f) && PduOf(f) == a.pdu && Word(f[0], f[1]) == a.transaction
  {
    var n := |a.pdu| + 1;
    var header := [a.transaction / 256, a.transaction % 256, a.protocol / 256, a.protocol % 256,
                   n / 256, n % 256, a.unitId];
    header + a.pdu
  }

  function EncodeAdus(adus: seq<Adu>): (fs: seq<seq<byte>>)
    requires AreAdus(adus)
    ensures AreFrames(fs) && |fs| == |adus|
    ensures forall i | 0 <= i < |fs| :: fs[i] == EncodeAdu(adus[i])
  {
    seq(|adus|, i requires 0 <= i < |adus| => EncodeAdu(adus[i]))
  }

  /** A list of units sent in one payload to a fresh object is published with all its transaction ids and PDUs,
      in order, whenever the analysis of every PDU is defined. */
  lemma AduRoundTrip(adus: seq<Adu>)
    requires AreAdus(adus) && adus != []
    ensures var outcome := Process(State([], 0), Flatten(EncodeAdus(adus))).1;
            if forall i | 0 <= i < |adus| :: IsDefined(adus[i].pdu) then
              && outcome.Published?
              && var fields := Split(outcome.text, ';');
              && |Values(fields, ID)| == |Values(fields, HEX)| == |adus|
              && forall i | 0 <= i < |adus| ::
                   ParseDecimal(Values(fields, ID)[i]) == Some(adus[i].transaction)
                   && ParseHex(Values(fields, HEX)[i]) == Some(adus[i].pdu)
            else outcome == Faulty
  {
    var fs := EncodeAdus(adus);
    var packet := Flatten(fs);
    assert Flatten(fs) + [] == packet;
    FramesAreUnique(fs, []);
    assert IsFrame(fs[0]) && |packet| >= |fs[0]|;
    ProcessIs(State([], 0), packet);
    assert forall i | 0 <= i < |adus| :: PduOf(fs[i]) == adus[i].pdu;
    assert IsSound(packet) <==> forall i | 0 <= i < |adus| :: IsDefined(adus[i].pdu);
    if IsSound(packet) {
      var data := Groups(0, fs);
      assert [] + data == data;
      SplitJoin(data, ';');
      GroupsValues(0, fs);
      forall i | 0 <= i < |adus|
        ensures ParseDecimal(Ids(fs)[i]) == Some(adus[i].transaction) && ParseHex(Hexes(fs)[i]) == Some(adus[i].pdu)
      {
        DecimalParses(adus[i].transaction);
        HexRoundTrip(adus[i].pdu);
      }
    }
  }

  // Registers (sections 6.3, 6.4 and 6.12 of MODBUS Application Protocol V1.1b3)

  type int16 = v: int | -0x8000 <= v < 0x8000

  /** The big-endian two's complement of a value. */
  function BigEndian(v: int16): seq<byte> {
    var w := if v < 0 then v + 0x1_0000 else v;
    [w / 256, w % 256]
  }

  function BigEndians(values: seq<int16>): (bytes: seq<byte>)
    ensures |bytes| == 2 * |values|
  {
    seq(2 * |values|, i requires 0 <= i < 2 * |values| => BigEndian(values[i / 2])[i % 2])
  }

  /** The values listed at consecutive addresses. */
  function Listed(values: seq<int16>, address: nat): seq<string> {
    seq(|values|, i requires 0 <= i < |values| => Entry(address + i, values[i]))
  }

  lemma BigEndianReads(v: int16)
    ensures Signed16(Word(BigEndian(v)[0], BigEndian(v)[1])) == v
  {
  }

  lemma BigEndiansAt(values: seq<int16>, i: nat)
    requires i < |values|
    ensures [BigEndians(values)[2 * i], BigEndians(values)[2 * i + 1]] == BigEndian(values[i])
  {
    assert 2 * i / 2 == i && (2 * i + 1) / 2 == i && 2 * i % 2 == 0 && (2 * i + 1) % 2 == 1;
  }

  lemma WordAt(values: seq<int16>, i: nat)
    requires i < |values|
    ensures Signed16(Word(BigEndians(values)[2 * i], BigEndians(values)[2 * i + 1])) == values[i]
  {
    BigEndiansAt(values, i);
    BigEndianReads(values[i]);
    var words := BigEndians(values);
    var pair := [words[2 * i], words[2 * i + 1]];
    assert pair[0] == words[2 * i] && pair[1] == words[2 * i + 1];
  }

  lemma RegistersAt(values: seq<int16>, address: nat, i: nat)
    requires i < |values|
    ensures Registers(BigEndians(values), address)[i] == Listed(values, address)[i]
  {
    hide Entry, Word, Signed16;
    WordAt(values, i);
  }

  lemma RegistersAreValues(values: seq<int16>, address: nat)
    ensures Registers(BigEndians(values), address) == Listed(values, address)
  {
    var registers, listed := Registers(BigEndians(values), address), Listed(values, address);
    forall i | 0 <= i < |values| ensures registers[i] == listed[i] {
      RegistersAt(values, address, i);
    }
  }

  /** A response to a register query: function code, byte count, values. */
  function ReadResponse(code: byte, values: seq<int16>): seq<byte>
    requires |values| <= 127
  {
    [code, 2 * |values|] + BigEndians(values)
  }

  /** A request to write registers: function code, address, quantity, byte count, values. */
  function WriteRequest(address: nat, values: seq<int16>): seq<byte>
    requires address < 0x1_0000 && |values| <= 127
  {
    [16, address / 256, address % 256, 0, |values|, 2 * |values|] + BigEndians(values)
  }

  /** A response lists exactly its values from the remembered address if and only if it holds four registers or more. */
  lemma ReadResponseListed(lastAddress: nat, code: byte, values: seq<int16>)
    requires (code == 3 || code == 4) && |values| <= 127
    ensures Analyze(lastAddress, ReadResponse(code, values)) == Entries(Title(code) + Listed(values, lastAddress))
       <==> |values| >= 4
  {
    var pdu := ReadResponse(code, values);
    RegistersAreValues(values, lastAddress);
    assert pdu[1] / 2 == |values|;
    assert pdu[2..2 + 2 * |values|] == BigEndians(values);
    if |values| == 3 {
      assert |Title(code) + [StartEntry(pdu)]| == 2 && |Title(code) + Listed(values, lastAddress)| == 4;
    }
  }

  /** A write request lists exactly its values from its address if and only if it holds two registers or more. */
  lemma WriteRequestListed(lastAddress: nat, address: nat, values: seq<int16>)
    requires address < 0x1_0000 && |values| <= 127
    ensures Analyze(lastAddress, WriteRequest(address, values)) == Entries(Title(16) + Listed(values, address))
       <==> |values| >= 2
  {
    var pdu := WriteRequest(address, values);
    RegistersAreValues(values, address);
    assert Word(pdu[1], pdu[2]) == address && pdu[5] / 2 == |values|;
    assert pdu[6..6 + 2 * |values|] == BigEndians(values);
    if |values| == 1 {
      assert |Title(16)| == 1 && |Title(16) + Listed(values, address)| == 2;
    }
  }

  /** In a run, the group of a frame stands behind the groups of its predecessors, numbered from the latest query
      among them; a response that follows no query in the life of the object is numbered from 0. */
  lemma ResponseInRun(fs: seq<seq<byte>>, k: nat, code: byte, values: seq<int16>)
    requires AreFrames(fs) && k < |fs| && (code == 3 || code == 4) && 4 <= |values| <= 127
    requires PduOf(fs[k]) == ReadResponse(code, values)
    ensures AreFrames(fs[..k]) && AreFrames(fs[k + 1..])
    ensures var q, last := LatestQuery(fs[..k]), LastAddress(0, fs[..k]);
            var start := if q.Some? then Word(q.value[1], q.value[2]) else 0;
            var group := Group(fs[k], Entries(Title(code) + Listed(values, start)));
            Groups(0, fs) == Groups(0, fs[..k]) + (group + Groups(last, fs[k + 1..]))
  {
    var front, rest := fs[..k], fs[k..];
    assert AreFrames(front) && AreFrames(rest) && AreFrames(rest[1..]);
    assert fs == front + rest && rest[1..] == fs[k + 1..];
    GroupsAppend(0, front, rest);
    NumberedFromLatestQuery(0, front);
    ReadResponseListed(LastAddress(0, front), code, values);
    assert !IsQuery(ReadResponse(code, values));
  }

  /** A listed entry read back. */
  function ParseEntry(s: string): Option<(int, int)> {
    match FindChar(s, ':')
    case None => None
    case Some(i) =>
      var address, value := ParseDecimal(s[..i]), ParseDecimal(s[i + 1..]);
      if address.Some? && value.Some? then Some((address.value, value.value)) else None
  }

  lemma EntryParses(address: nat, value: int)
    ensures ParseEntry(Entry(address, value)) == Some((address, value))
  {
    DecimalIsNot(address, ':');
    FindCharAfter(Decimal(address), ':', Decimal(value));
    var s := Entry(address, value);
    assert s[..|Decimal(address)|] == Decimal(address) && s[|Decimal(address)| + 1..] == Decimal(value);
    DecimalParses(address);
    DecimalParses(value);
  }

  // Registers read back from the published text

  /** The pairs of address and value among the fields of a text, in order. */
  function Listing(fields: seq<string>): seq<(int, int)> {
    if fields == [] then []
    else
      var entry := ParseEntry(fields[0]);
      (if entry.Some? then [entry.value] else []) + Listing(fields[1..])
  }

  /** Values at consecutive addresses. */
  function Numbered(values: seq<int16>, address: nat): seq<(int, int)> {
    seq(|values|, i requires 0 <= i < |values| => (address + i, values[i] as int))
  }

  lemma Regroup(a: seq<(int, int)>, b: seq<(int, int)>, c: seq<(int, int)>)
    ensures a + b + c == a + (b + c)
  {
  }

  lemma {:induction false} ListingAppend(a: seq<string>, b: seq<string>)
    ensures Listing(a + b) == Listing(a) + Listing(b)
  {
    hide ParseEntry;
    if a == [] {
      assert a + b == b;
    } else {
      var entry := ParseEntry(a[0]);
      assert (a + b)[1..] == a[1..] + b && (a + b)[0] == a[0];
      ListingAppend(a[1..], b);
      Regroup(if entry.Some? then [entry.value] else [], Listing(a[1..]), Listing(b));
    }
  }

  lemma {:induction false} ListedReads(values: seq<int16>, address: nat)
    ensures Listing(Listed(values, address)) == Numbered(values, address)
    decreases |values|
  {
    hide ParseEntry, Entry;
    if values != [] {
      var listed, rest := Listed(values, address), values[1..];
      EntryParses(address, values[0]);
      ListedReads(rest, address + 1);
      assert listed[1..] == Listed(rest, address + 1);
      assert Numbered(values, address) == [(address as int, values[0] as int)] + Numbered(rest, address + 1);
    }
  }

  /** A field that does not start with a digit or a minus sign is no entry. */
  lemma WordIsNoEntry(field: string)
    requires field != "" && !IsDigit(field[0], 10) && field[0] != '-' && field[0] != ':'
    ensures ParseEntry(field).None?
  {
    match FindChar(field, ':')
    case None =>
    case Some(i) => assert field[..i][0] == field[0];
  }

  lemma NoEntry(field: string, rest: seq<string>)
    requires ParseEntry(field).None?
    ensures Listing([field] + rest) == Listing(rest)
  {
    hide ParseEntry;
    assert ([field] + rest)[1..] == rest;
  }

  /** Of the group of a response, exactly its registers are listed. */
  lemma ResponseListing(f: seq<byte>, code: nat, values: seq<int16>, address: nat)
    requires IsFrame(f)
    ensures var report := Entries(Title(code) + Listed(values, address));
            Listing(SplitEach(Group(f, report), ';')) == Numbered(values, address)
  {
    hide Listing, Listed, Numbered, Decimal, Hex, FunctionName, SplitEach, Group;
    var title, entries := "Function:" + FunctionName(code), Title(code) + Listed(values, address);
    ListedAreFields(values, address);
    TitleAndFields(code, Listed(values, address));
    GroupFields(f, Entries(entries));
    var id, length, hex := ID + Decimal(Word(f[0], f[1])), "Lenght:" + Decimal(LengthField(f) - 1), HEX + Hex(PduOf(f));
    ListingOfGroup(id, length, hex, title, values, address);
    assert [id, length, hex] + entries == [id, length, hex, title] + Listed(values, address);
  }

  lemma ListedAreFields(values: seq<int16>, address: nat)
    ensures AreReportFields(Listed(values, address))
  {
    hide Entry;
    forall i | 0 <= i < |values| ensures IsReportField(Listed(values, address)[i]) {
      EntryIsField(address + i, values[i]);
    }
  }

  lemma ListingOfGroup(id: string, length: string, hex: string, title: string, values: seq<int16>, address: nat)
    requires id != "" && id[0] == 'T' && length != "" && length[0] == 'L'
    requires hex != "" && hex[0] == 'H' && title != "" && title[0] == 'F'
    ensures Listing([id, length, hex, title] + Listed(values, address)) == Numbered(values, address)
  {
    hide ParseEntry, Listed, Listing;
    WordIsNoEntry(id);
    WordIsNoEntry(length);
    WordIsNoEntry(hex);
    WordIsNoEntry(title);
    var listed := Listed(values, address);
    NoEntry(title, listed);
    NoEntry(hex, [title] + listed);
    NoEntry(length, [hex] + ([title] + listed));
    NoEntry(id, [length] + ([hex] + ([title] + listed)));
    ListedReads(values, address);
    assert [id, length, hex, title] + listed == [id] + ([length] + ([hex] + ([title] + listed)));
  }

  /** The registers of a response anywhere in a payload are recovered from the published text: behind those of the
      frames before it, each value with its address, counted from the latest query, and in order. */
  lemma ResponseReadBack(fs: seq<seq<byte>>, k: nat, code: byte, values: seq<int16>)
    requires AreFrames(fs) && AreDefined(fs) && k < |fs| && (code == 3 || code == 4) && 4 <= |values| <= 127
    requires PduOf(fs[k]) == ReadResponse(code, values)
    ensures AreFrames(fs[..k]) && AreFrames(fs[k + 1..])
    ensures var outcome, q := Process(State([], 0), Flatten(fs)).1, LatestQuery(fs[..k]);
            var start := if q.Some? then Word(q.value[1], q.value[2]) else 0;
            && outcome.Published?
            && Listing(Split(outcome.text, ';'))
               == Listing(SplitEach(Groups(0, fs[..k]), ';')) + Numbered(values, start)
                  + Listing(SplitEach(Groups(LastAddress(0, fs[..k]), fs[k + 1..]), ';'))
  {
    hide Listing, Numbered, Groups, Analyze, Group, SplitEach, Split, LatestQuery;
    ResponseInRun(fs, k, code, values);
    PublishesGroups(fs);
    var q, last := LatestQuery(fs[..k]), LastAddress(0, fs[..k]);
    var start := if q.Some? then Word(q.value[1], q.value[2]) else 0;
    var group := Group(fs[k], Entries(Title(code) + Listed(values, start)));
    ResponseListing(fs[k], code, values, start);
    ListingOfThree(Groups(0, fs[..k]), group, Groups(last, fs[k + 1..]));
  }

  lemma ListingOfThree(a: seq<string>, b: seq<string>, c: seq<string>)
    ensures Listing(SplitEach(a + (b + c), ';'))
         == Listing(SplitEach(a, ';')) + Listing(SplitEach(b, ';')) + Listing(SplitEach(c, ';'))
  {
    hide Listing, SplitEach;
    SplitEachAppend(a, b + c, ';');
    SplitEachAppend(b, c, ';');
    ListingAppend(SplitEach(a, ';'), SplitEach(b + c, ';'));
    ListingAppend(SplitEach(b, ';'), SplitEach(c, ';'));
  }

  /** Frames sent in one payload to a fresh object are published with the fields of all their groups. */
  lemma PublishesGroups(fs: seq<seq<byte>>)
    requires AreFrames(fs) && AreDefined(fs) && fs != []
    ensures var outcome := Process(State([], 0), Flatten(fs)).1;
            outcome.Published? && Split(outcome.text, ';') == SplitEach(Groups(0, fs), ';')
  {
    hide Groups, Process, Split, SplitEach, Join;
    var packet := Flatten(fs);
    assert Flatten(fs) + [] == packet;
    FramesAreUnique(fs, []);
    assert IsFrame(fs[0]) && |packet| >= |fs[0]|;
    ProcessIs(State([], 0), packet);
    assert [] + Groups(0, fs) == Groups(0, fs);
    SplitJoin(Groups(0, fs), ';');
  }
}
