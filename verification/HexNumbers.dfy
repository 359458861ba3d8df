/**
 Addresses in symbol files: hexadecimal digits as an output stream prints them, and `strtoul` with
 base 16.  `unsigned long` has 64 bits.
 */
module HexNumbers {
  import opened Words

  function Digit(d: nat): char
    requires d < 16
  {
    "0123456789abcdef"[d]
  }

  /** `stream << hex << n`. */
  function HexText(n: nat): (s: string)
    ensures s != []
  {
    if n < 16 then [Digit(n)] else HexText(n / 16) + [Digit(n % 16)]
  }

  predicate IsDigit(c: char) { '0' <= c <= '9' || 'a' <= c <= 'f' || 'A' <= c <= 'F' }

  function DigitValue(c: char): (d: nat)
    requires IsDigit(c)
    ensures d < 16
  {
    if c <= '9' then c as int - '0' as int
    else if c <= 'F' then c as int - 'A' as int + 10
    else c as int - 'a' as int + 10
  }

  /** The value of the digits s starts with, behind digits of value `before`. */
  function DigitsValue(s: string, before: nat): nat {
    if s == [] || !IsDigit(s[0]) then before else DigitsValue(s[1..], 16 * before + DigitValue(s[0]))
  }

  predicate IsSpace(c: char) { c == ' ' || 9 as char <= c <= 13 as char }

  function SkipSpaces(s: string): string {
    if s != [] && IsSpace(s[0]) then SkipSpaces(s[1..]) else s
  }

  /** Without the prefix 0x, which counts only before a digit. */
  function SkipPrefix(s: string): string {
    if |s| >= 3 && s[0] == '0' && (s[1] == 'x' || s[1] == 'X') && IsDigit(s[2]) then s[2..] else s
  }

  /** `strtoul(s, NULL, 16)`: too large a value becomes the largest one, and a minus sign negates. */
  function StrToUL(s: string): Address {
    var signed := SkipSpaces(s);
    var minus := signed != [] && signed[0] == '-';
    var number := if signed != [] && (signed[0] == '-' || signed[0] == '+') then signed[1..] else signed;
    var value := DigitsValue(SkipPrefix(number), 0);
    if value >= ADDRESS_SPACE then ADDRESS_SPACE - 1
    else if minus && value > 0 then ADDRESS_SPACE - value
    else value
  }

  lemma {:induction false} DigitIsDigit(d: nat)
    requires d < 16
    ensures IsDigit(Digit(d)) && DigitValue(Digit(d)) == d && Digit(d) != 'I'
  {
  }

  lemma {:induction false} HexTextIsDigits(n: nat)
    ensures forall c <- HexText(n) :: IsDigit(c)
  {
    if n < 16 {
      DigitIsDigit(n);
    } else {
      HexTextIsDigits(n / 16);
      DigitIsDigit(n % 16);
    }
  }

  lemma {:induction false} DigitsValueThenDigit(s: string, c: char, before: nat)
    requires (forall d <- s :: IsDigit(d)) && IsDigit(c)
    ensures DigitsValue(s + [c], before) == 16 * DigitsValue(s, before) + DigitValue(c)
  {
    if s == [] {
      assert (s + [c])[1..] == [];
    } else {
      assert (s + [c])[1..] == s[1..] + [c];
      assert s[0] in s;
      DigitsValueThenDigit(s[1..], c, 16 * before + DigitValue(s[0]));
    }
  }

  lemma {:induction false} DigitsValueOfHexText(n: nat)
    ensures DigitsValue(HexText(n), 0) == n
  {
    HexTextIsDigits(n);
    if n < 16 {
      DigitIsDigit(n);
      assert HexText(n)[1..] == [];
    } else {
      HexTextIsDigits(n / 16);
      DigitIsDigit(n % 16);
      DigitsValueOfHexText(n / 16);
      DigitsValueThenDigit(HexText(n / 16), Digit(n % 16), 0);
    }
  }

  /** A printed address is read as itself. */
  lemma {:induction false} ReadHexText(n: Address)
    ensures StrToUL(HexText(n)) == n
  {
    HexTextIsDigits(n);
    assert HexText(n)[0] in HexText(n);
    assert |HexText(n)| >= 3 ==> HexText(n)[1] in HexText(n);
    DigitsValueOfHexText(n);
  }
}
