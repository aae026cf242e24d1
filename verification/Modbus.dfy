/** The Modbus/TCP dissector (modbus.cpp): what one PDU is reported as, and what one payload does to the object. */
module Modbus {
  import opened Text

  function Word(hi: byte, lo: byte): nat { hi * 256 + lo }

  /** The conversion of a 16-bit word to `qint16`. */
  function Signed16(w: nat): int { if w < 0x8000 then w else w - 0x1_0000 }

  function FunctionName(code: nat): string {
    match code
    case 1 => "Read Coil Status"
    case 2 => "Read Input Status"
    case 3 => "Read Holding Registers"
    case 4 => "Read Input Registers"
    case 5 => "Force Single Coil"
    case 6 => "Preset Single Register"
    case 8 => "Diagnostics"
    case 15 => "Force Multiple Coils"
    case 16 => "Preset Multiple Registers"
    case _ => "Unknown function"
  }

  function Entry(address: nat, value: int): string {
    Decimal(address) + ":" + Decimal(value)
  }

  /** One entry for each big-endian word, at consecutive addresses. */
  function Registers(words: seq<byte>, address: nat): seq<string> {
    seq(|words| / 2, i requires 0 <= i < |words| / 2 =>
      Entry(address + i, Signed16(Word(words[2 * i], words[2 * i + 1]))))
  }

  /** What `analyzeModbusPacket` returns: the entries it joins, a null string, or nothing that the
      language defines (no return value in the exception branch, or bytes read behind the PDU). */
  datatype Report = Entries(entries: seq<string>) | Null | Undefined

  function Title(code: nat): seq<string> { ["Function:" + FunctionName(code)] }

  function StartEntry(pdu: seq<byte>): string
    requires |pdu| >= 5
  {
    "Start:" + Decimal(Word(pdu[1], pdu[2])) + " Length:" + Decimal(Word(pdu[3], pdu[4]))
  }

  function SubfunctionEntry(pdu: seq<byte>): string
    requires |pdu| >= 5
  {
    "Subfunction:" + Decimal(Word(pdu[1], pdu[2])) + " Length:" + Decimal(|pdu|)
  }

  /** The register loop of a PDU: `count` words from position `from`, all of them inside the PDU or none. */
  function RegisterReport(pdu: seq<byte>, from: nat, count: nat, address: nat): Report
    requires pdu != []
  {
    if from + 2 * count > |pdu| then Undefined
    else Entries(Title(pdu[0]) + Registers(pdu[from..from + 2 * count], address))
  }

  function Analyze(lastAddress: nat, pdu: seq<byte>): Report {
    if |pdu| < 5 then Null
    else if pdu[0] >= 128 then Undefined
    else if |pdu| < 8 then Null
    else if pdu[0] == 3 || pdu[0] == 4 then
      if |pdu| > 8 then RegisterReport(pdu, 2, pdu[1] / 2, lastAddress)
      else Entries(Title(pdu[0]) + [StartEntry(pdu)])
    else if pdu[0] == 8 then Entries(Title(8) + [SubfunctionEntry(pdu)])
    else if pdu[0] == 16 && |pdu| > 8 then RegisterReport(pdu, 6, pdu[5] / 2, Word(pdu[1], pdu[2]))
    else Entries(Title(pdu[0]))
  }

  /** A PDU taken for a register query: the next responses are numbered from its start address. */
  predicate IsQuery(pdu: seq<byte>) {
    |pdu| == 8 && (pdu[0] == 3 || pdu[0] == 4)
  }

  function LastAddressAfter(lastAddress: nat, pdu: seq<byte>): nat {
    if IsQuery(pdu) then Word(pdu[1], pdu[2]) else lastAddress
  }

  // Payloads

  function HexByte(b: byte): string { [Digit(b / 16), Digit(b % 16)] }

  function HexBytes(bytes: seq<byte>): seq<string> {
    seq(|bytes|, i requires 0 <= i < |bytes| => HexByte(bytes[i]))
  }

  /** `QByteArray::toHex(':')`. */
  function Hex(bytes: seq<byte>): string { Join(HexBytes(bytes), ':') }

  function LengthField(packet: seq<byte>): nat
    requires |packet| >= 6
  {
    Word(packet[4], packet[5])
  }

  /** The bytes behind the header of a frame; none for a length field of 0. */
  function PduOf(packet: seq<byte>): seq<byte>
    requires |packet| >= 6 && |packet| >= 6 + LengthField(packet)
  {
    if LengthField(packet) == 0 then [] else packet[7..6 + LengthField(packet)]
  }

  /** The entries added to `data` for the first frame of a packet. */
  function Group(packet: seq<byte>, report: Report): seq<string>
    requires |packet| >= 6 && |packet| >= 6 + LengthField(packet)
  {
    ["Transaction Id:" + Decimal(Word(packet[0], packet[1])),
     "Lenght:" + Decimal(LengthField(packet) - 1),
     "Hex:" + Hex(PduOf(packet))]
    + if report.Entries? then [Join(report.entries, ';')] else []
  }

  /** The members of a `Modbus` object. */
  datatype State = State(data: seq<string>, lastAddress: nat)

  /** What a call does to the caller's object: it sets "modbus", leaves it alone, or is not defined. */
  datatype Outcome = Published(text: string) | Withheld | Faulty

  /** `processModbusPacket`: one frame, then the rest of the packet. */
  function Process(d: State, packet: seq<byte>): (State, Outcome)
    decreases |packet|
  {
    if |packet| < 6 then (d, Faulty)
    else
      var size := 6 + LengthField(packet);
      if |packet| < size then (d, Withheld)
      else
        var report := Analyze(d.lastAddress, PduOf(packet));
        if report.Undefined? then (d, Faulty)
        else
          var data := d.data + Group(packet, report);
          var lastAddress := LastAddressAfter(d.lastAddress, PduOf(packet));
          if |packet| > size then Process(State(data, lastAddress), packet[size..])
          else (State([], lastAddress), Published(Join(data, ';')))
  }

  lemma RegisterIs(words: seq<byte>, address: nat, i: nat)
    requires i < |words| / 2
    ensures Registers(words, address)[i] == Entry(address + i, Signed16(Word(words[2 * i], words[2 * i + 1])))
  {
  }

  /** The dissector in the form of the source. */
  class Dissector {
    var data: seq<string>
    var lastAddress: nat

    ghost function View(): State
      reads this
    {
      State(data, lastAddress)
    }

    constructor ()
      ensures View() == State([], 0)
    {
      data, lastAddress := [], 0;
    }

    /** The register loops of `analyzeModbusPacket`. */
    method AppendRegisters(packet: array<byte>, from: nat, count: nat, address: nat, reply: seq<string>)
      returns (longer: seq<string>)
      requires from + 2 * count <= packet.Length
      ensures longer == reply + Registers(packet[from..from + 2 * count], address)
    {
      hide Entry, Signed16;
      longer := reply;
      ghost var words := packet[from..from + 2 * count];
      ghost var entries := Registers(words, address);
      for i := 0 to count
        invariant longer == reply + entries[..i]
      {
        RegisterIs(words, address, i);
        var value := Word(packet[from + i * 2], packet[from + i * 2 + 1]);
        assert words[2 * i] == packet[from + i * 2] && words[2 * i + 1] == packet[from + i * 2 + 1];
        longer := longer + [Entry(address + i, Signed16(value))];
        assert entries[..i + 1] == entries[..i] + [entries[i]];
      }
    }

    method AnalyzeModbusPacket(packet: array<byte>) returns (report: Report)
      modifies this`lastAddress
      ensures report == Analyze(old(lastAddress), packet[..])
      ensures !report.Undefined? ==> lastAddress == LastAddressAfter(old(lastAddress), packet[..])
      ensures report.Undefined? ==> lastAddress == old(lastAddress)
    {
      if packet.Length < 5 {
        return Null;
      }
      var code := packet[0];
      var reply := ["Function:" + FunctionName(code % 128)];
      if code >= 128 {
        return Undefined;
      }
      if packet.Length < 8 {
        return Null;
      }
      var address, points := Word(packet[1], packet[2]), Word(packet[3], packet[4]);
      if code == 3 || code == 4 {
        if packet.Length > 8 {
          if 2 + 2 * (packet[1] / 2) > packet.Length {
            return Undefined;
          }
          assert packet[2..2 + 2 * (packet[1] / 2)] == packet[..][2..2 + 2 * (packet[1] / 2)];
          reply := AppendRegisters(packet, 2, packet[1] / 2, lastAddress, reply);
        } else {
          reply := reply + ["Start:" + Decimal(address) + " Length:" + Decimal(points)];
          lastAddress := address;
        }
      } else if code == 8 {
        reply := reply + ["Subfunction:" + Decimal(address) + " Length:" + Decimal(packet.Length)];
      } else if code == 16 {
        if packet.Length > 8 {
          if 6 + 2 * (packet[5] / 2) > packet.Length {
            return Undefined;
          }
          assert packet[6..6 + 2 * (packet[5] / 2)] == packet[..][6..6 + 2 * (packet[5] / 2)];
          reply := AppendRegisters(packet, 6, packet[5] / 2, address, reply);
        }
      }
      return Entries(reply);
    }

    /** The byte-copy loops: a part of the packet in a buffer of its own. */
    method Copy(packet: array<byte>, offset: nat, length: nat) returns (temp: array<byte>)
      requires offset + length <= packet.Length
      ensures fresh(temp) && temp[..] == packet[offset..offset + length]
    {
      temp := new byte[length];
      for i := 0 to length
        invariant temp[..i] == packet[offset..offset + i]
      {
        temp[i] := packet[offset + i];
      }
    }

    /** The frame at the start of the packet: its PDU is copied and analysed, and its group appended. */
    method AppendFrame(packet: array<byte>) returns (defined: bool)
      requires packet.Length >= 6 && packet.Length >= 6 + LengthField(packet[..])
      modifies this
      ensures var report := Analyze(old(lastAddress), PduOf(packet[..]));
              && defined == !report.Undefined?
              && View() == if !defined then old(View())
                           else State(old(data) + Group(packet[..], report),
                                      LastAddressAfter(old(lastAddress), PduOf(packet[..])))
    {
      ghost var bytes := packet[..];
      var length: int := Word(packet[4], packet[5]);
      var temp := Copy(packet, if length == 0 then 0 else 7, if length == 0 then 0 else length - 1);
      assert temp[..] == PduOf(bytes);
      var report := AnalyzeModbusPacket(temp);
      if report.Undefined? {
        return false;
      }
      var entries := ["Transaction Id:" + Decimal(Word(packet[0], packet[1]))];
      entries := entries + ["Lenght:" + Decimal(length - 1)];
      entries := entries + ["Hex:" + Hex(temp[..])];
      if report.Entries? {
        entries := entries + [Join(report.entries, ';')];
      }
      assert entries == Group(bytes, report);
      data := data + entries;
      return true;
    }

    method ProcessModbusPacket(packet: array<byte>) returns (outcome: Outcome)
      modifies this
      ensures (View(), outcome) == Process(old(View()), packet[..])
      decreases packet.Length
    {
      hide Analyze, Group, LastAddressAfter, PduOf, Join;
      if packet.Length < 6 {
        return Faulty;
      }
      var length := Word(packet[4], packet[5]);
      var remaining := packet.Length - (length + 6);
      if remaining < 0 {
        return Withheld;
      }
      var defined := AppendFrame(packet);
      if !defined {
        return Faulty;
      }
      if remaining > 0 {
        var rest := Copy(packet, length + 6, remaining);
        assert rest[..] == packet[..][length + 6..];
        outcome := ProcessModbusPacket(rest);
      } else {
        outcome := Published(Join(data, ';'));
        data := [];
      }
    }
  }
}
