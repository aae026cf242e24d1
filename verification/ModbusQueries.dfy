/** What is published for each kind of PDU, letter for letter, and read back: titles, queries, diagnostics,
    and PDUs that report nothing. */
module ModbusQueries {
  import opened Text
  import opened Modbus
  import opened ModbusStreams
  import opened ModbusReports

  // The text of one PDU

  /** The title of each function code. */
  lemma TitlesAre()
    ensures Title(1) == ["Function:" + "Read Coil Status"] && Title(2) == ["Function:" + "Read Input Status"]
    ensures Title(3) == ["Function:" + "Read Holding Registers"] && Title(4) == ["Function:" + "Read Input Registers"]
    ensures Title(5) == ["Function:" + "Force Single Coil"] && Title(6) == ["Function:" + "Preset Single Register"]
    ensures Title(8) == ["Function:" + "Diagnostics"]
    ensures Title(15) == ["Function:" + "Force Multiple Coils"]
    ensures Title(16) == ["Function:" + "Preset Multiple Registers"]
  {
  }

  lemma UnknownTitle(code: nat)
    requires code == 0 || code == 7 || 9 <= code <= 14 || code >= 17
    ensures Title(code) == ["Function:" + "Unknown function"]
  {
  }

  function TwoBytes(w: nat): (bytes: seq<byte>)
    requires w < 0x1_0000
    ensures |bytes| == 2
  {
    [w / 256, w % 256]
  }

  lemma TwoBytesRead(w: nat)
    requires w < 0x1_0000
    ensures Word(TwoBytes(w)[0], TwoBytes(w)[1]) == w
  {
  }

  /** A PDU of five bytes or more: function code, two words, and what follows. */
  function Pdu(code: byte, first: nat, second: nat, tail: seq<byte>): (pdu: seq<byte>)
    requires first < 0x1_0000 && second < 0x1_0000
    ensures |pdu| == 5 + |tail| && pdu[0] == code
    ensures Word(pdu[1], pdu[2]) == first && Word(pdu[3], pdu[4]) == second
  {
    TwoBytesRead(first);
    TwoBytesRead(second);
    [code] + TwoBytes(first) + TwoBytes(second) + tail
  }

  /** A register query: the title, and start address and quantity in this order. */
  lemma QueryReported(lastAddress: nat, code: byte, address: nat, quantity: nat, tail: seq<byte>)
    requires (code == 3 || code == 4) && address < 0x1_0000 && quantity < 0x1_0000 && |tail| == 3
    ensures Analyze(lastAddress, Pdu(code, address, quantity, tail))
         == Entries(["Function:" + (if code == 3 then "Read Holding Registers" else "Read Input Registers"),
                     "Start:" + Decimal(address) + " Length:" + Decimal(quantity)])
  {
    hide Pdu, Word, Decimal, Title;
    TitlesAre();
  }

  /** A query is remembered by its start address; no other PDU is remembered. */
  lemma OnlyQueriesRemembered(lastAddress: nat, code: byte, address: nat, quantity: nat, tail: seq<byte>)
    requires address < 0x1_0000 && quantity < 0x1_0000
    ensures LastAddressAfter(lastAddress, Pdu(code, address, quantity, tail))
         == if (code == 3 || code == 4) && |tail| == 3 then address else lastAddress
  {
    hide Pdu, Word;
  }

  lemma ShortNotRemembered(lastAddress: nat, pdu: seq<byte>)
    requires |pdu| < 5
    ensures LastAddressAfter(lastAddress, pdu) == lastAddress
  {
  }

  /** Diagnostics of eight bytes or more: the title, the subfunction, and the length of the PDU. */
  lemma DiagnosticsReported(lastAddress: nat, subfunction: nat, data: nat, tail: seq<byte>)
    requires subfunction < 0x1_0000 && data < 0x1_0000 && |tail| >= 3
    ensures Analyze(lastAddress, Pdu(8, subfunction, data, tail))
         == Entries(["Function:" + "Diagnostics",
                     "Subfunction:" + Decimal(subfunction) + " Length:" + Decimal(5 + |tail|)])
  {
    hide Pdu, Word, Decimal, Title;
    TitlesAre();
  }

  /** Any other function, and a request to write registers without any, reports its title alone. */
  lemma TitleAlone(lastAddress: nat, pdu: seq<byte>)
    requires |pdu| >= 8 && pdu[0] < 128 && pdu[0] != 3 && pdu[0] != 4 && pdu[0] != 8 && (pdu[0] == 16 ==> |pdu| == 8)
    ensures Analyze(lastAddress, pdu) == Entries(Title(pdu[0]))
  {
    hide Title;
  }

  /** PDUs of less than eight bytes report nothing, exception responses of five or more apart. */
  lemma ShortIsSilent(lastAddress: nat, pdu: seq<byte>)
    requires |pdu| < 5 || (|pdu| < 8 && pdu[0] < 128)
    ensures Analyze(lastAddress, pdu) == Null
  {
  }

  /** A response with registers lists as many as half its byte count says, whatever follows them. */
  lemma RegistersListed(lastAddress: nat, code: byte, count: byte, values: seq<int16>, tail: seq<byte>)
    requires (code == 3 || code == 4) && count / 2 == |values| && 2 + 2 * |values| + |tail| > 8
    ensures Analyze(lastAddress, [code, count] + BigEndians(values) + tail)
         == Entries(Title(code) + Listed(values, lastAddress))
  {
    hide Title, Registers, Listed, BigEndians;
    var pdu := [code, count] + BigEndians(values) + tail;
    RegistersAreValues(values, lastAddress);
    assert pdu[2..2 + 2 * |values|] == BigEndians(values);
  }

  /** A request to write registers likewise, from its own address. */
  lemma WrittenRegistersListed(lastAddress: nat, address: nat, quantity: nat,
                               count: byte, values: seq<int16>, tail: seq<byte>)
    requires address < 0x1_0000 && quantity < 0x1_0000 && count / 2 == |values| && 6 + 2 * |values| + |tail| > 8
    ensures Analyze(lastAddress, Pdu(16, address, quantity, [count] + BigEndians(values) + tail))
         == Entries(Title(16) + Listed(values, address))
  {
    hide Title, Registers, Listed, BigEndians, Word;
    var pdu := Pdu(16, address, quantity, [count] + BigEndians(values) + tail);
    RegistersAreValues(values, address);
    assert pdu[5] == count && pdu[6..6 + 2 * |values|] == BigEndians(values);
  }

  /** An entry is the address, a colon and the value. */
  lemma ListedAre(values: seq<int16>, address: nat, i: nat)
    requires i < |values|
    ensures Listed(values, address)[i] == Decimal(address + i) + ":" + Decimal(values[i])
  {
    hide Decimal;
  }

  // In the published text

  lemma GroupsAround(lastAddress: nat, fs: seq<seq<byte>>, k: nat)
    requires AreFrames(fs) && k < |fs|
    ensures AreFrames(fs[..k]) && AreFrames(fs[k + 1..])
    ensures var before := LastAddress(lastAddress, fs[..k]);
            var behind := LastAddressAfter(before, PduOf(fs[k]));
            Groups(lastAddress, fs)
            == Groups(lastAddress, fs[..k]) + (FrameGroup(before, fs[k]) + Groups(behind, fs[k + 1..]))
  {
    hide FrameGroup, PduOf, LastAddressAfter;
    var front, rest := fs[..k], fs[k..];
    assert AreFrames(front) && AreFrames(rest);
    assert fs == front + rest && rest[1..] == fs[k + 1..];
    GroupsAppend(lastAddress, front, rest);
    GroupsCons(LastAddress(lastAddress, front), rest);
  }

  lemma SplitThree(a: seq<string>, b: seq<string>, c: seq<string>)
    ensures SplitEach(a + (b + c), ';') == SplitEach(a, ';') + (SplitEach(b, ';') + SplitEach(c, ';'))
  {
    hide SplitEach;
    SplitEachAppend(a, b + c, ';');
    SplitEachAppend(b, c, ';');
  }

  /** The fields of a frame: its transaction, the length of its PDU, the PDU, and what its analysis reports. */
  function FieldsOf(f: seq<byte>, entries: seq<string>): seq<string>
    requires IsFrame(f)
  {
    ["Transaction Id:" + Decimal(Word(f[0], f[1])), "Lenght:" + Decimal(Word(f[4], f[5]) - 1), "Hex:" + Hex(PduOf(f))]
    + entries
  }

  /** In the text published for frames sent in one payload to a fresh object, every frame has exactly its own fields,
      between those of the frames before and behind it. */
  lemma FrameInText(fs: seq<seq<byte>>, k: nat)
    requires AreFrames(fs) && AreDefined(fs) && k < |fs|
    ensures AreFrames(fs[..k]) && AreFrames(fs[k + 1..])
    ensures var outcome, before := Process(State([], 0), Flatten(fs)).1, LastAddress(0, fs[..k]);
            var report := Analyze(before, PduOf(fs[k]));
            var entries := if report.Entries? then report.entries else [];
            && outcome.Published?
            && Split(outcome.text, ';')
               == SplitEach(Groups(0, fs[..k]), ';')
                  + (FieldsOf(fs[k], entries)
                     + SplitEach(Groups(LastAddressAfter(before, PduOf(fs[k])), fs[k + 1..]), ';'))
  {
    hide Groups, FrameGroup, Analyze, SplitEach, Split, PduOf, FieldsOf;
    hide LastAddressAfter, LastAddress, Flatten, Process;
    PublishesGroups(fs);
    GroupsAround(0, fs, k);
    var before := LastAddress(0, fs[..k]);
    FieldsOfFrame(before, fs[k]);
    SplitThree(Groups(0, fs[..k]), FrameGroup(before, fs[k]),
               Groups(LastAddressAfter(before, PduOf(fs[k])), fs[k + 1..]));
  }

  lemma FieldsOfFrame(lastAddress: nat, f: seq<byte>)
    requires IsFrame(f)
    ensures var report := Analyze(lastAddress, PduOf(f));
            SplitEach(FrameGroup(lastAddress, f), ';') == FieldsOf(f, if report.Entries? then report.entries else [])
  {
    hide Analyze, SplitEach, Group, PduOf, Hex, Decimal;
    var report := Analyze(lastAddress, PduOf(f));
    if report.Entries? {
      ReportFields(lastAddress, PduOf(f));
    }
    GroupFields(f, report);
  }

  /** A query anywhere in a payload is published with its own start address and quantity. */
  lemma QueryInText(fs: seq<seq<byte>>, k: nat, code: byte, address: nat, quantity: nat, tail: seq<byte>)
    requires AreFrames(fs) && AreDefined(fs) && k < |fs|
    requires (code == 3 || code == 4) && address < 0x1_0000 && quantity < 0x1_0000 && |tail| == 3
    requires PduOf(fs[k]) == Pdu(code, address, quantity, tail)
    ensures AreFrames(fs[..k]) && AreFrames(fs[k + 1..])
    ensures var outcome := Process(State([], 0), Flatten(fs)).1;
            && outcome.Published?
            && Split(outcome.text, ';')
               == SplitEach(Groups(0, fs[..k]), ';')
                  + (FieldsOf(fs[k],
                              ["Function:" + (if code == 3 then "Read Holding Registers" else "Read Input Registers"),
                               "Start:" + Decimal(address) + " Length:" + Decimal(quantity)])
                     + SplitEach(Groups(address, fs[k + 1..]), ';'))
  {
    hide Groups, Analyze, SplitEach, Split, PduOf, Decimal, FieldsOf, Pdu;
    hide LastAddressAfter, LastAddress, Flatten, Process;
    FrameInText(fs, k);
    QueryReported(LastAddress(0, fs[..k]), code, address, quantity, tail);
    OnlyQueriesRemembered(LastAddress(0, fs[..k]), code, address, quantity, tail);
  }

  // Both numbers read back

  /** Two numbers, the first behind `before`, the second behind " Length:". */
  function ReadPair(s: string, before: string): Option<(int, int)> {
    if !(before <= s) then None
    else
      var rest := s[|before|..];
      match FindChar(rest, ' ')
      case None => None
      case Some(i) =>
        if !(" Length:" <= rest[i..]) then None
        else
          var first, second := ParseDecimal(rest[..i]), ParseDecimal(rest[i + 8..]);
          if first.Some? && second.Some? then Some((first.value, second.value)) else None
  }

  lemma PairReads(before: string, first: int, second: int)
    ensures ReadPair(before + Decimal(first) + " Length:" + Decimal(second), before) == Some((first, second))
  {
    hide FindChar, ParseDecimal, Decimal;
    var rest := Decimal(first) + " Length:" + Decimal(second);
    var s, i := before + Decimal(first) + " Length:" + Decimal(second), |Decimal(first)|;
    DecimalIsNot(first, ' ');
    assert s == before + rest && s[|before|..] == rest;
    assert rest == Decimal(first) + [' '] + ("Length:" + Decimal(second));
    FindCharAfter(Decimal(first), ' ', "Length:" + Decimal(second));
    assert rest[..i] == Decimal(first) && rest[i..] == " Length:" + Decimal(second) && rest[i + 8..] == Decimal(second);
    DecimalParses(first);
    DecimalParses(second);
  }

  /** Start address and quantity of a query, and the subfunction of diagnostics with the length of its PDU,
      are recovered from their entries. */
  lemma EntriesReadBack(address: nat, quantity: nat)
    ensures var numbers := Decimal(address) + " Length:" + Decimal(quantity);
            && ReadPair("Start:" + numbers, "Start:") == Some((address, quantity))
            && ReadPair("Subfunction:" + numbers, "Subfunction:") == Some((address, quantity))
  {
    hide Decimal, ReadPair;
    PairReads("Start:", address, quantity);
    PairReads("Subfunction:", address, quantity);
    var numbers := Decimal(address) + " Length:" + Decimal(quantity);
    assert "Start:" + numbers == "Start:" + Decimal(address) + " Length:" + Decimal(quantity);
    assert "Subfunction:" + numbers == "Subfunction:" + Decimal(address) + " Length:" + Decimal(quantity);
  }

  /** A PDU is printed in lower-case hexadecimal, two digits a byte, with colons between. */
  lemma HexAt(bytes: seq<byte>, i: nat)
    requires i < |bytes|
    ensures HexBytes(bytes)[i] == ["0123456789abcdef"[bytes[i] / 16], "0123456789abcdef"[bytes[i] % 16]]
    ensures Split(Hex(bytes), ':') == HexBytes(bytes)
  {
    hide Split, Join;
    SplitJoin(HexBytes(bytes), ':');
    forall p | p in HexBytes(bytes) ensures ':' !in p {
      assert IsDigit(p[0], 16) && IsDigit(p[1], 16);
    }
    SplitEachPlain(HexBytes(bytes), ':');
  }
}
