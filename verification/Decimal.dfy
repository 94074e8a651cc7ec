/** `std::to_string` of an unsigned number and `std::stoul` with base 10. */
module Decimal {
  import opened Streams

  /** `unsigned long` has 64 bits and `unsigned int` 32 (LP64). */
  const ULONG_RANGE: nat := 0x1_0000_0000_0000_0000
  const UINT_RANGE: nat := 0x1_0000_0000

  predicate IsDigit(c: char) {
    '0' <= c <= '9'
  }

  predicate AllDigits(s: string) {
    forall i | 0 <= i < |s| :: IsDigit(s[i])
  }

  function Digit(d: nat): (c: char)
    requires d < 10
    ensures IsDigit(c)
  {
    ('0' as int + d) as char
  }

  /** `std::to_string(n)`. */
  function Print(n: nat): (s: string)
    ensures s != "" && AllDigits(s)
  {
    if n < 10 then [Digit(n)] else Print(n / 10) + [Digit(n % 10)]
  }

  function Value(s: string): nat
    requires AllDigits(s)
  {
    if s == "" then 0
    else 10 * Value(s[..|s| - 1]) + (s[|s| - 1] as int - '0' as int)
  }

  function DigitCount(s: string): (k: nat)
    ensures k <= |s| && AllDigits(s[..k])
    ensures k < |s| ==> !IsDigit(s[k])
  {
    if s == "" || !IsDigit(s[0]) then 0 else DigitCount(s[1..]) + 1
  }

  /** `std::stoul(s)`: None where it throws `invalid_argument` or `out_of_range`. It skips leading
      white space, takes a sign (a minus negates modulo the range) and ignores what follows the digits. */
  function Stoul(s: string): Option<nat> {
    var t := s[SkipSpaces(s)..];
    var negative := t != "" && t[0] == '-';
    var u := if t != "" && (t[0] == '-' || t[0] == '+') then t[1..] else t;
    var digits := u[..DigitCount(u)];
    if digits == "" || Value(digits) >= ULONG_RANGE then None
    else if negative then Some((ULONG_RANGE - Value(digits)) % ULONG_RANGE)
    else Some(Value(digits))
  }

  lemma {:induction false} ValueOfPrint(n: nat)
    ensures Value(Print(n)) == n
  {
    if n >= 10 {
      ValueOfPrint(n / 10);
      assert Print(n)[..|Print(n)| - 1] == Print(n / 10);
    }
  }

  /** Reading back what was printed, for every number that fits. */
  lemma StoulOfPrint(n: nat)
    ensures Stoul(Print(n)) == if n < ULONG_RANGE then Some(n) else None
  {
    var s := Print(n);
    assert !IsSpace(s[0]);
    SkipSpacesIs(s, 0);
    assert s[0..] == s;
    assert DigitCount(s) == |s|;
    assert s[..|s|] == s;
    ValueOfPrint(n);
  }

  lemma PrintHasNoSpace(n: nat)
    ensures NoSpace(Print(n))
  {
    forall i | 0 <= i < |Print(n)|
      ensures !IsSpace(Print(n)[i])
    {
      assert IsDigit(Print(n)[i]);
    }
  }

  /** A printed number has no leading zero, so that its value determines it. */
  lemma {:induction false} PrintHasNoLeadingZero(n: nat)
    ensures n > 0 ==> Print(n)[0] != '0'
    ensures n == 0 ==> Print(n) == "0"
  {
    if n >= 10 {
      PrintHasNoLeadingZero(n / 10);
      assert Print(n)[0] == Print(n / 10)[0];
    }
  }

  /** Leading zeros do not change a value. */
  lemma {:induction false} ValueOfLeadingZero(s: string)
    requires AllDigits(s)
    ensures AllDigits("0" + s) && Value("0" + s) == Value(s)
  {
    if s == "" {
      assert Value("0"[..0]) == 0;
      assert "0" + s == "0";
    } else {
      ValueOfLeadingZero(s[..|s| - 1]);
      assert ("0" + s)[..|s|] == "0" + s[..|s| - 1];
    }
  }

  // ------------------------------------------------------------------ what stoul accepts

  /** A text reads as an optional sign, some digits, and a rest that does not go on with a digit. */
  predicate NumberParts(text: string, sign: string, digits: string, rest: string) {
    && text == sign + digits + rest
    && (sign == "" || sign == "+" || sign == "-")
    && digits != "" && AllDigits(digits)
    && (rest != "" ==> !IsDigit(rest[0]))
  }

  lemma {:induction false} DigitCountIs(digits: string, rest: string)
    requires AllDigits(digits) && (rest != "" ==> !IsDigit(rest[0]))
    ensures DigitCount(digits + rest) == |digits|
    decreases |digits|
  {
    if digits == "" {
      assert digits + rest == rest;
    } else {
      assert (digits + rest)[1..] == digits[1..] + rest;
      DigitCountIs(digits[1..], rest);
    }
  }

  lemma {:induction false} StoulOfSplit(text: string, sign: string, digits: string, rest: string)
    requires NoSpace(text) && NumberParts(text, sign, digits, rest)
    ensures Stoul(text)
         == if Value(digits) >= 0x1_0000_0000_0000_0000 then None
            else if sign == "-" then Some((0x1_0000_0000_0000_0000 - Value(digits)) % 0x1_0000_0000_0000_0000)
            else Some(Value(digits))
  {
    var u := digits + rest;
    DigitCountIs(digits, rest);
    assert u[..|digits|] == digits;
    SkipSpacesIs(text, 0);
    assert text[0..] == text;
    if sign == "" {
      assert text == u && IsDigit(digits[0]) && text[0] == digits[0];
    } else {
      assert text[0] == sign[0] && text[1..] == u;
    }
    hide DigitCount, Value, SkipSpaces;
  }

  lemma {:induction false} SplitOfStoul(text: string) returns (sign: string, digits: string, rest: string)
    requires NoSpace(text) && Stoul(text).Some?
    ensures NumberParts(text, sign, digits, rest) && Value(digits) < 0x1_0000_0000_0000_0000
  {
    if text != "" {
      SkipSpacesIs(text, 0);
    }
    assert text[0..] == text;
    var signed := text != "" && (text[0] == '-' || text[0] == '+');
    sign := if signed then text[..1] else "";
    var u := if signed then text[1..] else text;
    digits, rest := u[..DigitCount(u)], u[DigitCount(u)..];
    assert u == digits + rest && text == sign + u;
    hide Value, SkipSpaces;
  }

  /** The texts without white space that `stoul` accepts: those that begin, after at most one sign,
      with digits, the longest run of which denotes less than 2^64. */
  lemma {:induction false} StoulAcceptsIff(text: string)
    requires NoSpace(text)
    ensures Stoul(text).Some? <==>
            exists sign, digits, rest :: NumberParts(text, sign, digits, rest) && Value(digits) < 0x1_0000_0000_0000_0000
  {
    hide Stoul, Value;
    if Stoul(text).Some? {
      var sign, digits, rest := SplitOfStoul(text);
    }
    if sign, digits, rest :| NumberParts(text, sign, digits, rest) && Value(digits) < 0x1_0000_0000_0000_0000 {
      StoulOfSplit(text, sign, digits, rest);
    }
  }
}
