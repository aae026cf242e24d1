/** `urlEncode` and form bodies, against percent-decoding (section 2.1 of RFC 3986)
    and UTF-8 (section 3 of RFC 3629). */
module UrlEncoding {
  import opened Text

  predicate Unreserved(b: byte) {
    0x30 <= b <= 0x39 || 0x41 <= b <= 0x5A || 0x61 <= b <= 0x7A || b == 0x2D || b == 0x2E || b == 0x5F
  }

  function HexChar(d: nat): (c: char)
    requires d < 16
    ensures IsDigit(c, 16) && DigitValue(c, 16) == d
  {
    "0123456789ABCDEF"[d]
  }

  function Escape(b: byte): string {
    ['%', HexChar(b / 16), HexChar(b % 16)]
  }

  /** How many bytes a lead byte claims; 0 for one that no sequence starts with. */
  function Claimed(b: byte): (n: nat)
    ensures n <= 4
  {
    if b <= 0x7F then 1
    else if b / 32 == 0x06 then 2
    else if b / 16 == 0x0E then 3
    else if b / 8 == 0x1E then 4
    else 0
  }

  /** The part of `s` its first byte claims. */
  function Claim(s: seq<byte>): (n: nat)
    requires s != []
    ensures n <= |s|
  {
    if Claimed(s[0]) <= |s| then Claimed(s[0]) else |s|
  }

  function EscapeAll(s: seq<byte>): string {
    if s == [] then "" else Escape(s[0]) + EscapeAll(s[1..])
  }

  function Encoded(s: seq<byte>): string {
    if s == [] then ""
    else if Unreserved(s[0]) then [s[0] as char] + Encoded(s[1..])
    else if Claim(s) == 0 then Encoded(s[1..])
    else EscapeAll(s[..Claim(s)]) + Encoded(s[Claim(s)..])
  }

  lemma EncodedFrom(s: seq<byte>, i: nat)
    requires i < |s|
    ensures var n := Claim(s[i..]);
            Encoded(s[i..]) == if Unreserved(s[i]) then [s[i] as char] + Encoded(s[i + 1..])
                               else if n == 0 then Encoded(s[i + 1..])
                               else EscapeAll(s[i..i + n]) + Encoded(s[i + n..])
  {
    var n := Claim(s[i..]);
    assert s[i..][1..] == s[i + 1..] && s[i..][..n] == s[i..i + n] && s[i..][n..] == s[i + n..];
  }

  lemma EscapeAllNext(s: seq<byte>, i: nat, j: nat)
    requires i <= j < |s|
    ensures EscapeAll(s[i..j + 1]) == EscapeAll(s[i..j]) + Escape(s[j])
    decreases j - i
  {
    assert s[i..j + 1][1..] == s[i + 1..j + 1];
    if i < j {
      assert s[i..j][1..] == s[i + 1..j];
      EscapeAllNext(s, i + 1, j);
    } else {
      assert s[i + 1..j + 1] == [];
    }
  }

  lemma NothingEscaped(s: seq<byte>, i: nat)
    requires i <= |s|
    ensures EscapeAll(s[i..i]) == ""
  {
  }

  /** A byte that is not copied as it is: it and the bytes it claims are escaped, as far as the string goes. */
  method EscapeSequence(str: seq<byte>, start: nat) returns (text: string, next: nat)
    requires start < |str| && Claimed(str[start]) > 0
    ensures next == start + Claim(str[start..]) && text == EscapeAll(str[start..next])
  {
    hide Escape, EscapeAll;
    var i, length := start, Claimed(str[start]);
    NothingEscaped(str, start);
    EscapeAllNext(str, start, i);
    text := Escape(str[i]);
    i := i + 1;
    if length >= 2 && i < |str| {
      EscapeAllNext(str, start, i);
      text := text + Escape(str[i]);
      i := i + 1;
    }
    if length >= 3 && i < |str| {
      EscapeAllNext(str, start, i);
      text := text + Escape(str[i]);
      i := i + 1;
    }
    if length >= 4 && i < |str| {
      EscapeAllNext(str, start, i);
      text := text + Escape(str[i]);
      i := i + 1;
    }
    next := i;
  }

  lemma NothingEncoded(s: seq<byte>, i: nat)
    requires i == |s|
    ensures Encoded(s[i..]) == ""
  {
  }

  /** The loop of `urlEncode` over the positions of the string. */
  method UrlEncode(str: seq<byte>) returns (result: string)
    ensures result == Encoded(str)
  {
    hide Encoded, EscapeAll, Unreserved;
    result := "";
    var i := 0;
    assert str[0..] == str;
    while i < |str|
      invariant i <= |str| && result + Encoded(str[i..]) == Encoded(str)
    {
      EncodedFrom(str, i);
      var piece, next := "", i + 1;
      if Unreserved(str[i]) {
        piece := [str[i] as char];
      } else if Claimed(str[i]) > 0 {
        piece, next := EscapeSequence(str, i);
      }
      Regroup(result, piece, Encoded(str[next..]));
      result := result + piece;
      i := next;
    }
    NothingEncoded(str, i);
  }

  lemma Regroup(a: string, b: string, c: string)
    ensures a + b + c == a + (b + c)
  {
  }

  // Percent-decoding

  function Decoded(t: string): seq<byte> {
    if t == "" then []
    else if |t| >= 3 && t[0] == '%' && IsDigit(t[1], 16) && IsDigit(t[2], 16) then
      [DigitValue(t[1], 16) * 16 + DigitValue(t[2], 16)] + Decoded(t[3..])
    else [t[0] as int % 256] + Decoded(t[1..])
  }

  lemma DecodedEscape(b: byte, t: string)
    ensures Decoded(Escape(b) + t) == [b] + Decoded(t)
  {
    assert (Escape(b) + t)[3..] == t;
  }

  lemma HeadThenTail(s: seq<byte>, t: seq<byte>)
    requires s != []
    ensures [s[0]] + (s[1..] + t) == s + t
  {
  }

  lemma EscapeAllHead(s: seq<byte>, t: string)
    requires s != []
    ensures EscapeAll(s) + t == Escape(s[0]) + (EscapeAll(s[1..]) + t)
  {
    Regroup(Escape(s[0]), EscapeAll(s[1..]), t);
  }

  lemma {:induction false} DecodedEscapes(s: seq<byte>, t: string)
    ensures Decoded(EscapeAll(s) + t) == s + Decoded(t)
  {
    if s == [] {
      assert EscapeAll(s) + t == t;
    } else {
      EscapeAllHead(s, t);
      DecodedEscape(s[0], EscapeAll(s[1..]) + t);
      DecodedEscapes(s[1..], t);
      HeadThenTail(s, Decoded(t));
    }
  }

  /** `s` without the bytes 0x80-0xBF and 0xF8-0xFF that stand where a sequence should start. */
  function Kept(s: seq<byte>): seq<byte> {
    if s == [] then [] else s[..Claim(s)] + Kept(s[if Claim(s) == 0 then 1 else Claim(s)..])
  }

  function Strays(s: seq<byte>): nat {
    if s == [] then 0
    else if Claimed(s[0]) == 0 then 1 + Strays(s[1..])
    else Strays(s[Claim(s)..])
  }

  lemma DecodedPlain(b: byte, t: string)
    requires Unreserved(b)
    ensures Decoded([b as char] + t) == [b] + Decoded(t)
  {
    assert ([b as char] + t)[1..] == t;
  }

  lemma NothingDecoded()
    ensures Decoded("") == []
  {
  }

  /** Decoding gives back everything but the stray bytes. */
  lemma {:induction false} DecodedEncoded(s: seq<byte>)
    ensures Decoded(Encoded(s)) == Kept(s)
  {
    if s != [] {
      var n := Claim(s);
      hide Decoded, Escape, EscapeAll;
      if Unreserved(s[0]) {
        DecodedPlain(s[0], Encoded(s[1..]));
        DecodedEncoded(s[1..]);
      } else if n == 0 {
        DecodedEncoded(s[1..]);
      } else {
        DecodedEscapes(s[..n], Encoded(s[n..]));
        DecodedEncoded(s[n..]);
      }
    } else {
      NothingDecoded();
    }
  }

  lemma {:induction false} KeptLength(s: seq<byte>)
    ensures |Kept(s)| + Strays(s) == |s|
    ensures Strays(s) == 0 ==> Kept(s) == s
  {
    if s != [] {
      KeptLength(s[if Claim(s) == 0 then 1 else Claim(s)..]);
    }
  }

  /** Decoding undoes encoding exactly on the strings without a stray byte. */
  lemma RoundTripExactly(s: seq<byte>)
    ensures Decoded(Encoded(s)) == s <==> Strays(s) == 0
  {
    DecodedEncoded(s);
    KeptLength(s);
  }

  // UTF-8

  type scalar = c: int | 0 <= c < 0xD800 || 0xE000 <= c < 0x11_0000

  function Utf8(c: scalar): (s: seq<byte>)
    ensures s != []
  {
    if c < 0x80 then [c]
    else if c < 0x800 then [0xC0 + c / 64, 0x80 + c % 64]
    else if c < 0x1_0000 then [0xE0 + c / 4096, 0x80 + c / 64 % 64, 0x80 + c % 64]
    else [0xF0 + c / 262144, 0x80 + c / 4096 % 64, 0x80 + c / 64 % 64, 0x80 + c % 64]
  }

  function Utf8All(text: seq<scalar>): seq<byte> {
    if text == [] then [] else Utf8(text[0]) + Utf8All(text[1..])
  }

  lemma {:induction false} Utf8HasNoStrays(text: seq<scalar>)
    ensures Strays(Utf8All(text)) == 0
  {
    if text != [] {
      var first, rest := Utf8(text[0]), Utf8All(text[1..]);
      assert (first + rest)[0] == first[0];
      assert Claimed(first[0]) == |first|;
      assert (first + rest)[|first|..] == rest;
      Utf8HasNoStrays(text[1..]);
    }
  }

  /** Every text survives: percent-decoding undoes `urlEncode` on all well-formed UTF-8. */
  lemma TextRoundTrip(text: seq<scalar>)
    ensures Decoded(Encoded(Utf8All(text))) == Utf8All(text)
  {
    Utf8HasNoStrays(text);
    RoundTripExactly(Utf8All(text));
  }

  // Form bodies

  datatype Parameter = Parameter(key: seq<byte>, value: seq<byte>)

  function Pair(p: Parameter): string { Encoded(p.key) + "=" + Encoded(p.value) }

  function Pairs(ps: seq<Parameter>): (parts: seq<string>)
    ensures |parts| == |ps|
  {
    seq(|ps|, i requires 0 <= i < |ps| => Pair(ps[i]))
  }

  /** The body for a parameter map, given in the order in which the map is traversed. */
  function Form(ps: seq<Parameter>): string { Join(Pairs(ps), '&') }

  method FormBody(parameters: seq<Parameter>) returns (body: string)
    ensures body == Form(parameters)
  {
    body := "";
    var first := true;
    for i := 0 to |parameters|
      invariant first == (i == 0)
      invariant body == Join(Pairs(parameters)[..i], '&')
    {
      JoinNext(Pairs(parameters), i, '&');
      if !first {
        body := body + "&";
      }
      first := false;
      var key := UrlEncode(parameters[i].key);
      var value := UrlEncode(parameters[i].value);
      body := body + (key + "=" + value);
    }
    assert Pairs(parameters)[..|parameters|] == Pairs(parameters);
  }

  predicate IsOutput(c: char) {
    c == '%' || IsDigit(c, 16) || (c as int < 256 && Unreserved(c as int))
  }

  lemma {:induction false} EscapesAreOutput(s: seq<byte>)
    ensures forall c | c in EscapeAll(s) :: IsOutput(c)
  {
    if s != [] {
      EscapesAreOutput(s[1..]);
    }
  }

  lemma {:induction false} EncodedIsOutput(s: seq<byte>)
    ensures forall c | c in Encoded(s) :: IsOutput(c)
  {
    if s != [] {
      if Unreserved(s[0]) || Claim(s) == 0 {
        EncodedIsOutput(s[1..]);
      } else {
        EscapesAreOutput(s[..Claim(s)]);
        EncodedIsOutput(s[Claim(s)..]);
      }
    }
  }

  function DecodedPair(part: string): Parameter {
    match FindChar(part, '=')
    case None => Parameter(Decoded(part), [])
    case Some(i) => Parameter(Decoded(part[..i]), Decoded(part[i + 1..]))
  }

  function DecodedPairs(parts: seq<string>): seq<Parameter> {
    seq(|parts|, i requires 0 <= i < |parts| => DecodedPair(parts[i]))
  }

  function DecodedForm(body: string): seq<Parameter> {
    if body == "" then [] else DecodedPairs(Split(body, '&'))
  }

  lemma PairIsPlain(p: Parameter)
    ensures '&' !in Pair(p)
  {
    EncodedIsOutput(p.key);
    EncodedIsOutput(p.value);
  }

  lemma PairReads(p: Parameter)
    ensures DecodedPair(Pair(p)) == Parameter(Kept(p.key), Kept(p.value))
  {
    EncodedIsOutput(p.key);
    FindCharAfter(Encoded(p.key), '=', Encoded(p.value));
    assert Pair(p)[..|Encoded(p.key)|] == Encoded(p.key);
    assert Pair(p)[|Encoded(p.key)| + 1..] == Encoded(p.value);
    DecodedEncoded(p.key);
    DecodedEncoded(p.value);
  }

  /** A form body read back: the same parameters in the same order, each without its stray bytes. */
  lemma FormRoundTrip(ps: seq<Parameter>)
    ensures DecodedForm(Form(ps))
         == seq(|ps|, i requires 0 <= i < |ps| => Parameter(Kept(ps[i].key), Kept(ps[i].value)))
  {
    forall i | 0 <= i < |ps|
      ensures '&' !in Pairs(ps)[i] && DecodedPair(Pairs(ps)[i]) == Parameter(Kept(ps[i].key), Kept(ps[i].value))
    {
      PairIsPlain(ps[i]);
      PairReads(ps[i]);
    }
    if ps != [] {
      SplitJoin(Pairs(ps), '&');
      SplitEachPlain(Pairs(ps), '&');
      assert Form(ps) != "";
    }
  }

  /** The whole parameter list comes back exactly when no key and no value holds a stray byte. */
  lemma FormRoundTripExactly(ps: seq<Parameter>)
    ensures DecodedForm(Form(ps)) == ps
       <==> forall i | 0 <= i < |ps| :: Strays(ps[i].key) == 0 && Strays(ps[i].value) == 0
  {
    FormRoundTrip(ps);
    var back := DecodedForm(Form(ps));
    forall i | 0 <= i < |ps|
      ensures back[i] == ps[i] <==> Strays(ps[i].key) == 0 && Strays(ps[i].value) == 0
    {
      KeptLength(ps[i].key);
      KeptLength(ps[i].value);
    }
  }

  // The text of an encoding

  const HEX := "0123456789ABCDEF"

  function Percent(b: byte): string { ['%', HEX[b / 16], HEX[b % 16]] }

  lemma EscapeIs(b: byte)
    ensures Escape(b) == Percent(b)
  {
  }

  lemma {:induction false} EscapesAre(s: seq<byte>, i: nat)
    requires i < |s|
    ensures |EscapeAll(s)| == 3 * |s| && EscapeAll(s)[3 * i..3 * i + 3] == Percent(s[i])
  {
    hide Escape;
    EscapeIs(s[0]);
    if |s| == 1 {
      assert s[1..] == [];
    } else if i == 0 {
      EscapesAre(s[1..], 0);
    } else {
      EscapesAre(s[1..], i - 1);
      var rest := EscapeAll(s[1..]);
      assert EscapeAll(s)[3 * i..3 * i + 3] == rest[3 * (i - 1)..3 * (i - 1) + 3];
    }
  }

  lemma OneEscape(b: byte)
    ensures EscapeAll([b]) == Percent(b)
  {
    hide Escape, Percent;
    EscapeIs(b);
    assert [b][1..] == [];
  }

  /** An ASCII character is written as it is if and only if it is a letter, a digit, `-`, `.` or `_`;
      any other becomes a percent sign and two upper-case hexadecimal digits. */
  lemma AsciiEncoded(b: byte, rest: seq<byte>)
    requires b < 0x80
    ensures var c := b as char;
            Encoded([b] + rest)
            == (if 'A' <= c <= 'Z' || 'a' <= c <= 'z' || '0' <= c <= '9' || c == '-' || c == '.' || c == '_' then [c]
                else Percent(b))
               + Encoded(rest)
  {
    hide Percent;
    var s := [b] + rest;
    assert s[1..] == rest && s[..1] == [b];
    OneEscape(b);
  }

  lemma LeadClaims(b: byte)
    requires b >= 0x80
    ensures !Unreserved(b)
    ensures Claimed(b) == if b < 0xC0 || b >= 0xF8 then 0 else if b < 0xE0 then 2 else if b < 0xF0 then 3 else 4
  {
  }

  lemma ClaimOf(b: byte, rest: seq<byte>)
    ensures var n := Claimed(b);
            Claim([b] + rest) == if n == 0 then 0 else if n - 1 <= |rest| then n else 1 + |rest|
  {
    hide Claimed;
  }

  lemma StrayEncoded(b: byte, rest: seq<byte>)
    requires !Unreserved(b) && Claim([b] + rest) == 0
    ensures Encoded([b] + rest) == Encoded(rest)
  {
    hide Claim, Unreserved, EscapeAll;
    assert ([b] + rest)[1..] == rest;
  }

  lemma LeadEncoded(b: byte, rest: seq<byte>, n: nat)
    requires !Unreserved(b) && n <= |rest| && Claim([b] + rest) == n + 1
    ensures Encoded([b] + rest) == EscapeAll([b] + rest[..n]) + Encoded(rest[n..])
  {
    hide Claim, Unreserved, EscapeAll;
    SplitBehind(b, rest, n);
  }

  lemma SplitBehind(b: byte, rest: seq<byte>, n: nat)
    requires n <= |rest|
    ensures ([b] + rest)[..n + 1] == [b] + rest[..n] && ([b] + rest)[n + 1..] == rest[n..]
  {
  }

  /** How many of the bytes behind a lead byte belong to its sequence, as far as there are any. */
  function Following(b: byte, rest: seq<byte>): (n: nat)
    ensures n <= |rest|
  {
    var n := if b < 0xE0 then 1 else if b < 0xF0 then 2 else 3;
    if n <= |rest| then n else |rest|
  }

  /** A byte that leads nothing is dropped. */
  lemma StrayIsDropped(b: byte, rest: seq<byte>)
    requires 0x80 <= b < 0xC0 || 0xF8 <= b
    ensures Encoded([b] + rest) == Encoded(rest)
  {
    hide Encoded, Unreserved;
    LeadClaims(b);
    ClaimOf(b, rest);
    StrayEncoded(b, rest);
  }

  /** A byte that leads a sequence of UTF-8 is escaped with the bytes that should follow it, whatever they are. */
  lemma SequenceEncoded(b: byte, rest: seq<byte>)
    requires 0xC0 <= b < 0xF8
    ensures var n := Following(b, rest); Encoded([b] + rest) == EscapeAll([b] + rest[..n]) + Encoded(rest[n..])
  {
    hide Encoded, EscapeAll, Unreserved;
    LeadClaims(b);
    ClaimOf(b, rest);
    LeadEncoded(b, rest, Following(b, rest));
  }
}
