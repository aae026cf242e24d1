/** The number texts that `std::stoul` and `std::stoi` accept, and what they make of them. */
module HttpNumbers {
  import opened Text
  import opened HttpReader
  import HttpChunked

  predicate IsSign(sign: string) { sign == "" || sign == "+" || sign == "-" }

  predicate IsPrefix(prefix: string, base: nat) { prefix == "" || (base == 16 && (prefix == "0x" || prefix == "0X")) }

  /** What follows a number: nothing, or text that does not go on with it. */
  predicate EndsNumber(prefix: string, digits: string, rest: string, base: nat)
    requires IsBase(base)
  {
    && (rest == "" || !IsDigit(rest[0], base))
    // a lone zero would be the start of a prefix
    && !(base == 16 && prefix == "" && digits == "0"
         && |rest| > 1 && (rest[0] == 'x' || rest[0] == 'X') && IsDigit(rest[1], 16))
  }

  /** A number text: white space, a sign, a prefix, digits, and what follows. */
  predicate IsNumber(space: string, sign: string, prefix: string, digits: string, rest: string, base: nat) {
    && IsBase(base) && AllSpace(space) && IsSign(sign) && IsPrefix(prefix, base)
    && digits != "" && AllDigits(digits, base) && EndsNumber(prefix, digits, rest, base)
  }

  lemma MagnitudeOf(prefix: string, digits: string, rest: string, base: nat)
    requires IsNumber("", "", prefix, digits, rest, base)
    ensures Magnitude(prefix + digits + rest, base) == Number(Value(digits, base))
  {
    hide Value;
    var s := prefix + digits + rest;
    HttpChunked.LeadingDigitsAre(digits, rest, base);
    if prefix == "" {
      assert s == digits + rest;
      assert |s| > 2 && s[0] == '0' && (s[1] == 'x' || s[1] == 'X') ==> digits == "0" && s[2] == rest[1] by {
        if |digits| > 1 {
          assert s[1] == digits[1] && IsDigit(digits[1], base);
        } else {
          assert digits == [digits[0]];
        }
      }
    } else {
      assert s[2..] == digits + rest && s[2] == digits[0];
    }
  }

  lemma NoMagnitude(rest: string, base: nat)
    requires IsBase(base) && (rest == "" || !IsDigit(rest[0], base))
    ensures Magnitude(rest, base) == NoDigits
  {
    assert rest != "" ==> rest[0] != '0';
  }

  lemma Signless(text: string, space: string, sign: string, body: string)
    requires AllSpace(space) && IsSign(sign) && text == space + (sign + body)
    requires sign == "" ==> body == "" || (!IsSpace(body[0]) && body[0] != '+' && body[0] != '-')
    ensures TrimLeft(text) == sign + body
    ensures var s := TrimLeft(text);
            (s != "" && (s[0] == '-' || s[0] == '+')) <==> sign != ""
    ensures sign != "" ==> TrimLeft(text)[1..] == body && TrimLeft(text)[0] == sign[0]
  {
    TrimLeftOf(space, sign + body);
  }

  /** `std::stoul`: the value up to 2^64 - 1, a negative one modulo 2^64. */
  lemma StoulReads(space: string, sign: string, prefix: string, digits: string, rest: string, base: nat)
    requires IsNumber(space, sign, prefix, digits, rest, base)
    ensures var value := Value(digits, base);
            Stoul(space + (sign + (prefix + digits + rest)), base)
            == if value >= 0x1_0000_0000_0000_0000 then TooLarge
               else if sign == "-" && value > 0 then Number(0x1_0000_0000_0000_0000 - value)
               else Number(value)
  {
    hide Value, Magnitude, TrimLeft, EndsNumber;
    var body := prefix + digits + rest;
    assert IsDigit(body[0], base) by {
      assert body[0] == if prefix == "" then digits[0] else prefix[0];
    }
    Signless(space + (sign + body), space, sign, body);
    MagnitudeOf(prefix, digits, rest, base);
    assert sign == "" ==> sign + body == body;
  }

  /** Without a digit behind white space and sign there is no number. */
  lemma StoulRefuses(space: string, sign: string, rest: string, base: nat)
    requires IsBase(base) && AllSpace(space) && IsSign(sign) && (rest == "" || !IsDigit(rest[0], base))
    requires sign == "" && rest != "" ==> !IsSpace(rest[0]) && rest[0] != '+' && rest[0] != '-'
    ensures Stoul(space + (sign + rest), base) == NoDigits
  {
    hide Magnitude, TrimLeft;
    Signless(space + (sign + rest), space, sign, rest);
    NoMagnitude(rest, base);
    assert sign == "" ==> sign + rest == rest;
  }

  /** `std::stoi`: the value in the range of an `int`. */
  lemma StoiReads(space: string, sign: string, digits: string, rest: string)
    requires IsNumber(space, sign, "", digits, rest, 10)
    ensures var value: int := if sign == "-" then -(Value(digits, 10) as int) else Value(digits, 10);
            Stoi(space + (sign + (digits + rest)))
            == if -0x8000_0000 <= value < 0x8000_0000 then Number(value) else TooLarge
  {
    hide Value, Magnitude, TrimLeft, EndsNumber;
    var body := digits + rest;
    assert body[0] == digits[0] && IsDigit(body[0], 10);
    Signless(space + (sign + body), space, sign, body);
    assert "" + digits + rest == body;
    MagnitudeOf("", digits, rest, 10);
    assert sign == "" ==> sign + body == body;
  }

  lemma StoiRefuses(space: string, sign: string, rest: string)
    requires AllSpace(space) && IsSign(sign) && (rest == "" || !IsDigit(rest[0], 10))
    requires sign == "" && rest != "" ==> !IsSpace(rest[0]) && rest[0] != '+' && rest[0] != '-'
    ensures Stoi(space + (sign + rest)) == NoDigits
  {
    hide Magnitude, TrimLeft;
    Signless(space + (sign + rest), space, sign, rest);
    NoMagnitude(rest, 10);
    assert sign == "" ==> sign + rest == rest;
  }

  /** A text without a number raises `std::invalid_argument`, one too large `std::out_of_range`. */
  lemma Raises()
    ensures NumberFailure(NoDigits) == InvalidArgument && NumberFailure(TooLarge) == OutOfRange
  {
  }
}
