/** Strings as the C++ sources use them: searching, splitting, joining and number texts.
    A `char` stands for one byte of a stream; nothing here depends on codes above 255. */
module Text {

  datatype Option<+T> = None | Some(value: T)

  type byte = b: int | 0 <= b < 256

  const CRLF := "\r\n"

  const INT_MAX := 0x7FFF_FFFF

  /** Occurrence of `pat` in `s` at position `i`. */
  predicate At(s: string, pat: string, i: int) {
    0 <= i && i + |pat| <= |s| && s[i..i + |pat|] == pat
  }

  ghost predicate Contains(s: string, pat: string) {
    exists i :: At(s, pat, i)
  }

  lemma StartsOtherwise(s: string, pat: string, i: nat)
    requires pat != "" && i < |s| && s[i] != pat[0]
    ensures !At(s, pat, i)
  {
    if i + |pat| <= |s| {
      assert s[i..i + |pat|][0] == s[i];
    }
  }

  lemma WithoutCr(s: string)
    requires '\r' !in s
    ensures !Contains(s, CRLF)
  {
    forall i ensures !At(s, CRLF, i) {
      if 0 <= i < |s| {
        StartsOtherwise(s, CRLF, i);
      }
    }
  }

  function FindFrom(s: string, pat: string, from: nat): (r: Option<nat>)
    requires from <= |s|
    ensures r.Some? ==> from <= r.value && At(s, pat, r.value) && forall j :: from <= j < r.value ==> !At(s, pat, j)
    ensures r.None? ==> forall j :: from <= j ==> !At(s, pat, j)
    decreases |s| - from
  {
    if At(s, pat, from) then Some(from)
    else if from == |s| then None
    else FindFrom(s, pat, from + 1)
  }

  /** The first occurrence of `pat` in `s`: `std::search`, `std::string::find`, `QString::indexOf`. */
  function Find(s: string, pat: string): (r: Option<nat>)
    ensures r.Some? ==> At(s, pat, r.value) && forall j :: 0 <= j < r.value ==> !At(s, pat, j)
    ensures r.None? <==> !Contains(s, pat)
  {
    FindFrom(s, pat, 0)
  }

  /** More text behind `s` does not move an occurrence already found. */
  lemma FindExtend(s: string, t: string, pat: string)
    ensures Find(s, pat).Some? ==> Find(s + t, pat) == Find(s, pat)
  {
    if Find(s, pat).Some? {
      var i := Find(s, pat).value;
      assert (s + t)[i..i + |pat|] == s[i..i + |pat|];
      assert At(s + t, pat, i);
      forall j | 0 <= j < i ensures !At(s + t, pat, j) {
        assert !At(s, pat, j);
        assert (s + t)[j..j + |pat|] == s[j..j + |pat|];
      }
    }
  }

  /** A line without CRLF is cut off exactly at its own terminator. */
  lemma FindLineEnd(line: string, rest: string)
    requires !Contains(line, CRLF)
    ensures Find(line + CRLF + rest, CRLF) == Some(|line|)
  {
    var s := line + CRLF + rest;
    assert s[|line|..|line| + 2] == CRLF;
    assert At(s, CRLF, |line|);
    forall j | 0 <= j < |line| ensures !At(s, CRLF, j) {
      assert !At(line, CRLF, j);
      if j + 2 <= |line| {
        assert line[j..j + 2] == s[j..j + 2];
      } else {
        assert s[j..j + 2][1] == s[j + 1] == '\r';
      }
    }
  }

  /** What precedes the first CRLF holds no CRLF. */
  lemma FoundLineIsPlain(s: string)
    requires Find(s, CRLF).Some?
    ensures var i := Find(s, CRLF).value;
            !Contains(s[..i], CRLF) && s == s[..i] + CRLF + s[i + 2..]
  {
    var i := Find(s, CRLF).value;
    assert s[i..i + 2] == CRLF;
    forall j ensures !At(s[..i], CRLF, j) {
      if At(s[..i], CRLF, j) {
        assert s[..i][j..j + 2] == s[j..j + 2];
        assert At(s, CRLF, j);
      }
    }
  }

  function FindChar(s: string, c: char): (r: Option<nat>)
    ensures r.Some? ==> r.value < |s| && s[r.value] == c && c !in s[..r.value]
    ensures r.None? <==> c !in s
  {
    if s == "" then None
    else if s[0] == c then Some(0)
    else
      assert s == [s[0]] + s[1..];
      match FindChar(s[1..], c)
      case None => None
      case Some(i) => assert s[..i + 1] == [s[0]] + s[1..][..i]; Some(i + 1)
  }

  lemma FindCharAfter(a: string, c: char, b: string)
    requires c !in a
    ensures FindChar(a + [c] + b, c) == Some(|a|)
  {
    var s := a + [c] + b;
    assert s[|a|] == c;
    var i := FindChar(s, c).value;
    assert forall k | 0 <= k < |a| :: s[k] == a[k];
    assert forall k | 0 <= k < i :: s[..i][k] == s[k];
  }

  /** The pieces of a stream put together again. */
  function Concat(pieces: seq<string>): string {
    if pieces == [] then "" else pieces[0] + Concat(pieces[1..])
  }

  lemma {:induction false} ConcatAppend(a: seq<string>, b: seq<string>)
    ensures Concat(a + b) == Concat(a) + Concat(b)
  {
    if a == [] {
      assert a + b == b;
    } else {
      assert (a + b)[1..] == a[1..] + b;
      ConcatAppend(a[1..], b);
    }
  }

  /** `QString::split`: never an empty list. */
  function Split(s: string, c: char): (parts: seq<string>)
    ensures |parts| > 0
  {
    if s == "" then [""]
    else
      var tail := Split(s[1..], c);
      if s[0] == c then [""] + tail else [[s[0]] + tail[0]] + tail[1..]
  }

  /** `QStringList::join` with a one-character separator. */
  function Join(parts: seq<string>, c: char): string {
    if parts == [] then ""
    else if |parts| == 1 then parts[0]
    else parts[0] + [c] + Join(parts[1..], c)
  }

  lemma {:induction false} JoinNext(parts: seq<string>, i: nat, c: char)
    requires i < |parts|
    ensures Join(parts[..i + 1], c) == if i == 0 then parts[0] else Join(parts[..i], c) + [c] + parts[i]
  {
    if i > 0 {
      assert parts[..i + 1][1..] == parts[1..][..i] && parts[..i][1..] == parts[1..][..i - 1];
      JoinNext(parts[1..], i - 1, c);
    }
  }

  function SplitEach(parts: seq<string>, c: char): seq<string> {
    if parts == [] then [] else Split(parts[0], c) + SplitEach(parts[1..], c)
  }

  lemma {:induction false} SplitEachAppend(a: seq<string>, b: seq<string>, c: char)
    ensures SplitEach(a + b, c) == SplitEach(a, c) + SplitEach(b, c)
  {
    if a == [] {
      assert a + b == b;
    } else {
      assert (a + b)[1..] == a[1..] + b;
      SplitEachAppend(a[1..], b, c);
    }
  }

  lemma {:induction false} SplitAtSeparator(a: string, c: char, b: string)
    ensures Split(a + [c] + b, c) == Split(a, c) + Split(b, c)
  {
    var s := a + [c] + b;
    if a == "" {
      assert s[1..] == b;
    } else {
      assert s[1..] == a[1..] + [c] + b;
      SplitAtSeparator(a[1..], c, b);
    }
  }

  lemma {:induction false} SplitPlain(s: string, c: char)
    requires c !in s
    ensures Split(s, c) == [s]
  {
    if s != "" {
      SplitPlain(s[1..], c);
      assert s == [s[0]] + s[1..];
    }
  }

  /** Splitting a joined list gives back every part, itself split where it holds the separator. */
  lemma {:induction false} SplitJoin(parts: seq<string>, c: char)
    requires parts != []
    ensures Split(Join(parts, c), c) == SplitEach(parts, c)
  {
    if |parts| == 1 {
      assert SplitEach(parts[1..], c) == [];
    } else {
      SplitAtSeparator(parts[0], c, Join(parts[1..], c));
      SplitJoin(parts[1..], c);
    }
  }

  lemma {:induction false} SplitEachPlain(parts: seq<string>, c: char)
    requires forall p | p in parts :: c !in p
    ensures SplitEach(parts, c) == parts
  {
    if parts != [] {
      SplitPlain(parts[0], c);
      SplitEachPlain(parts[1..], c);
    }
  }

  // Numbers in base 10 and 16.

  predicate IsBase(base: nat) { base == 10 || base == 16 }

  predicate IsDigit(c: char, base: nat) {
    '0' <= c <= '9' || (base == 16 && ('a' <= c <= 'f' || 'A' <= c <= 'F'))
  }

  predicate AllDigits(s: string, base: nat) {
    forall i | 0 <= i < |s| :: IsDigit(s[i], base)
  }

  function DigitValue(c: char, base: nat): (d: nat)
    requires IsBase(base) && IsDigit(c, base)
    ensures d < base
  {
    if c <= '9' then c as int - '0' as int
    else if c <= 'F' then c as int - 'A' as int + 10
    else c as int - 'a' as int + 10
  }

  function Value(s: string, base: nat): nat
    requires IsBase(base) && AllDigits(s, base)
  {
    if s == "" then 0
    else Value(s[..|s| - 1], base) * base + DigitValue(s[|s| - 1], base)
  }

  function Digit(d: nat): (c: char)
    requires d < 16
    ensures IsDigit(c, 16) && DigitValue(c, 16) == d
    ensures d < 10 ==> IsDigit(c, 10) && DigitValue(c, 10) == d
  {
    "0123456789abcdef"[d]
  }

  /** `std::to_string`, `QString::number` (base 10) and a lower-case hexadecimal number (base 16). */
  function Digits(n: nat, base: nat): (s: string)
    requires IsBase(base)
    ensures s != ""
  {
    if n < base then [Digit(n)] else Digits(n / base, base) + [Digit(n % base)]
  }

  lemma ValueNext(front: string, d: nat, base: nat)
    requires IsBase(base) && AllDigits(front, base) && d < base
    ensures AllDigits(front + [Digit(d)], base) && Value(front + [Digit(d)], base) == Value(front, base) * base + d
  {
    assert (front + [Digit(d)])[..|front|] == front;
  }

  /** The number printed is the number read. */
  lemma {:induction false} DigitsRead(n: nat, base: nat)
    requires IsBase(base)
    ensures AllDigits(Digits(n, base), base) && Value(Digits(n, base), base) == n
  {
    if n < base {
      ValueNext("", n, base);
      assert "" + [Digit(n)] == [Digit(n)];
    } else {
      DigitsRead(n / base, base);
      ValueNext(Digits(n / base, base), n % base, base);
    }
  }

  /** Numbers are printed in lower case and without leading zeros. */
  lemma {:induction false} DigitsAreShort(n: nat, base: nat)
    requires IsBase(base)
    ensures forall i | 0 <= i < |Digits(n, base)| ::
              '0' <= Digits(n, base)[i] <= '9' || 'a' <= Digits(n, base)[i] <= 'f'
    ensures Digits(n, base)[0] == '0' <==> n == 0
    ensures n == 0 ==> Digits(n, base) == "0"
  {
    if n >= base {
      DigitsAreShort(n / base, base);
    }
  }

  /** The digits of base 10 and 16, in either case. */
  lemma DigitValues(d: nat)
    requires d < 16
    ensures IsDigit("0123456789abcdef"[d], 16) && DigitValue("0123456789abcdef"[d], 16) == d
    ensures IsDigit("0123456789ABCDEF"[d], 16) && DigitValue("0123456789ABCDEF"[d], 16) == d
    ensures d < 10 ==> IsDigit("0123456789"[d], 10) && DigitValue("0123456789"[d], 10) == d
  {
  }

  lemma OnlyDigits(c: char)
    ensures IsDigit(c, 10) <==> '0' <= c <= '9'
    ensures IsDigit(c, 16) <==> '0' <= c <= '9' || 'a' <= c <= 'f' || 'A' <= c <= 'F'
  {
  }

  function Decimal(n: int): (s: string)
    ensures s != ""
  {
    if n < 0 then "-" + Digits(-n, 10) else Digits(n, 10)
  }

  predicate IsSpace(c: char) {
    c == ' ' || '\t' as int <= c as int <= '\r' as int
  }

  function TrimLeft(s: string): (t: string)
    ensures t == "" || !IsSpace(t[0])
  {
    if s == "" || !IsSpace(s[0]) then s else TrimLeft(s[1..])
  }

  function TrimRight(s: string): (t: string)
    ensures t == "" || !IsSpace(t[|t| - 1])
  {
    if s == "" || !IsSpace(s[|s| - 1]) then s else TrimRight(s[..|s| - 1])
  }

  function Trim(s: string): string { TrimRight(TrimLeft(s)) }

  predicate AllSpace(s: string) {
    forall i | 0 <= i < |s| :: IsSpace(s[i])
  }

  /** The white space of the "C" locale. */
  lemma SpacesAre(c: char)
    ensures var code := c as int;
            IsSpace(c) <==> code == 32 || code == 9 || code == 10 || code == 11 || code == 12 || code == 13
  {
  }

  /** Text that white space neither starts nor ends. */
  predicate IsTight(s: string) {
    s != "" ==> !IsSpace(s[0]) && !IsSpace(s[|s| - 1])
  }

  lemma {:induction false} TrimLeftOf(space: string, s: string)
    requires AllSpace(space) && (s != "" ==> !IsSpace(s[0]))
    ensures TrimLeft(space + s) == s
  {
    if space == "" {
      assert space + s == s;
    } else {
      assert (space + s)[1..] == space[1..] + s;
      TrimLeftOf(space[1..], s);
    }
  }

  lemma {:induction false} TrimRightOf(s: string, space: string)
    requires AllSpace(space) && (s != "" ==> !IsSpace(s[|s| - 1]))
    ensures TrimRight(s + space) == s
  {
    if space == "" {
      assert s + space == s;
    } else {
      assert (s + space)[..|s| + |space| - 1] == s + space[..|space| - 1];
      TrimRightOf(s, space[..|space| - 1]);
    }
  }

  lemma {:induction false} TrimLeftOfSpace(space: string)
    requires AllSpace(space)
    ensures TrimLeft(space) == ""
  {
    if space != "" {
      TrimLeftOfSpace(space[1..]);
    }
  }

  /** Trimming removes exactly the white space at both ends. */
  lemma TrimOf(a: string, s: string, b: string)
    requires AllSpace(a) && AllSpace(b) && IsTight(s)
    ensures Trim(a + s + b) == s
  {
    hide IsSpace;
    if s == "" {
      assert a + s + b == a + b;
      TrimLeftOfSpace(a + b);
    } else {
      assert a + s + b == a + (s + b);
      TrimLeftOf(a, s + b);
      TrimRightOf(s, b);
    }
  }

  lemma DigitsAreNot(n: nat, c: char)
    requires !IsDigit(c, 10)
    ensures c !in Digits(n, 10)
  {
    var s := Digits(n, 10);
    DigitsRead(n, 10);
    assert forall i | 0 <= i < |s| :: IsDigit(s[i], 10);
  }

  lemma DecimalIsNot(n: int, c: char)
    requires !IsDigit(c, 10) && c != '-'
    ensures c !in Decimal(n)
  {
    DigitsAreNot(if n < 0 then -n else n, c);
  }

  /** The number a decimal text stands for. */
  function ParseDecimal(s: string): Option<int> {
    var digits := if s != "" && s[0] == '-' then s[1..] else s;
    if digits == "" || !AllDigits(digits, 10) then None
    else Some(if s[0] == '-' then -(Value(digits, 10) as int) else Value(digits, 10))
  }

  lemma DecimalParses(n: int)
    ensures ParseDecimal(Decimal(n)) == Some(n)
  {
    hide Digits, Value;
    var digits := Digits(if n < 0 then -n else n, 10);
    DigitsRead(if n < 0 then -n else n, 10);
    assert IsDigit(digits[0], 10);
    if n < 0 {
      assert Decimal(n)[1..] == digits;
    }
  }
}
