/**
 The records of a symbol file that are not about call frames: `Tokenize`, and the tests of
 `SymbolParseHelper` for FILE, FUNC, PUBLIC and source line records.
 */
module SymbolParsing {
  import opened CText
  import opened DecimalNumbers
  import opened HexNumbers
  import opened OrderedKeys
  import opened Words

  const LINE_BREAKS: set<char> := {'\r', '\n'}

  /** `kWhitespace`. */
  const FIELD_BREAKS: set<char> := {' ', '\r', '\n'}

  // ----- tokens

  /** Just so many tokens, the last of which is all that is left of the line. */
  function Tokenized(s: string, count: nat): (tokens: Option<seq<string>>)
    requires count > 0
    ensures tokens.Some? ==> |tokens.value| == count
    decreases count
  {
    if count == 1 then
      var last := Strtok(s, LINE_BREAKS);
      if last.None? then None else Some([last.value.text])
    else
      var first := Strtok(s, FIELD_BREAKS);
      if first.None? then None
      else
        var rest := Tokenized(first.value.cursor, count - 1);
        if rest.None? then None else Some([first.value.text] + rest.value)
  }

  method Tokenize(line: string, maxTokens: nat) returns (ok: bool, tokens: seq<string>)
    requires maxTokens > 1
    ensures var r := Tokenized(line, maxTokens); ok == r.Some? && (ok ==> tokens == r.value)
  {
    hide Strtok;
    tokens := [];
    var remaining := maxTokens - 1;
    var token := Strtok(line, FIELD_BREAKS);
    var cursor := line;
    NoTokensBefore(line, maxTokens);
    while token.Some? && remaining > 0
      invariant 0 <= remaining < maxTokens && |tokens| == maxTokens - 1 - remaining
      invariant remaining > 0 ==> token == Strtok(cursor, FIELD_BREAKS)
      invariant var rest := Tokenized(cursor, remaining + 1);
        Tokenized(line, maxTokens) == if rest.None? then None else Some(tokens + rest.value)
      decreases remaining
    {
      OneTokenMore(tokens, cursor, remaining + 1);
      tokens := tokens + [token.value.text];
      cursor := token.value.cursor;
      remaining := remaining - 1;
      if remaining > 0 {
        token := Strtok(cursor, FIELD_BREAKS);
      }
    }
    if remaining == 0 {
      var last := Strtok(cursor, LINE_BREAKS);
      if last.Some? {
        tokens := tokens + [last.value.text];
      }
    }
    ok := |tokens| == maxTokens;
  }

  lemma {:induction false} NoTokensBefore(line: string, count: nat)
    requires count > 0
    ensures var rest := Tokenized(line, count); rest.Some? ==> [] + rest.value == rest.value
  {
  }

  lemma {:induction false} OneTokenMore(before: seq<string>, s: string, count: nat)
    requires count > 1 && Strtok(s, FIELD_BREAKS).Some?
    ensures var first := Strtok(s, FIELD_BREAKS).value;
      var rest, all := Tokenized(first.cursor, count - 1), Tokenized(s, count);
      rest.Some? == all.Some? && (rest.Some? ==> before + all.value == before + [first.text] + rest.value)
  {
    hide Strtok;
  }

  // ----- numbers

  const LONG_MAX := 0x7FFF_FFFF_FFFF_FFFF

  predicate IsBaseDigit(c: char, base: nat) { if base == 16 then IsDigit(c) else '0' <= c <= '9' }

  /** What the number begins with that `strtol` finds in s, behind its sign and the prefix of its base. */
  function NumberStart(s: string, base: nat): string {
    var signed := SkipSpaces(s);
    var number := if signed != [] && (signed[0] == '-' || signed[0] == '+') then signed[1..] else signed;
    if base == 16 then SkipPrefix(number) else number
  }

  function SkipDigits(s: string, base: nat): string {
    if s != [] && IsBaseDigit(s[0], base) then SkipDigits(s[1..], base) else s
  }

  function DecimalDigits(s: string, before: nat): nat {
    if s == [] || !('0' <= s[0] <= '9') then before
    else DecimalDigits(s[1..], 10 * before + (s[0] as int - '0' as int))
  }

  /** `strtol(s, NULL, base)`: numbers that are too great or too small become the greatest or the smallest. */
  function StrToL(s: string, base: nat): int {
    var signed := SkipSpaces(s);
    var digits := NumberStart(s, base);
    var value := if base == 16 then DigitsValue(digits, 0) else DecimalDigits(digits, 0);
    if signed != [] && signed[0] == '-' then (if value > LONG_MAX then -LONG_MAX - 1 else -value)
    else if value > LONG_MAX then LONG_MAX
    else value
  }

  /** Where the number ends: what `strtol` and `strtoull` give back; all of s if there is none. */
  function AfterNumber(s: string, base: nat): string {
    var digits := NumberStart(s, base);
    if digits == [] || !IsBaseDigit(digits[0], base) then s else SkipDigits(digits, base)
  }

  /** A number ends where its token does, or at white space. */
  predicate IsValidAfterNumber(after: string) { after == "" || after[0] in FIELD_BREAKS }

  /** An unsigned hexadecimal number other than the greatest one. */
  predicate IsHexField(token: string) {
    IsValidAfterNumber(AfterNumber(token, 16)) && StrToUL(token) != ADDRESS_SPACE - 1
  }

  /** A number that is neither negative nor the greatest one. */
  predicate IsCountField(token: string, base: nat) {
    IsValidAfterNumber(AfterNumber(token, base)) && 0 <= StrToL(token, base) < LONG_MAX
  }

  // ----- records

  const FILE: string := "FILE "
  const FUNC: string := "FUNC "
  const PUBLIC: string := "PUBLIC "
  const MODULE: string := "MODULE "
  const INFO: string := "INFO "

  datatype FileRecord = FileRecord(index: int, name: string)

  datatype FunctionRecord = FunctionRecord(address: Address, size: Address, parameterSize: int, name: string)

  datatype LineRecord = LineRecord(address: Address, size: Address, number: int, file: int)

  datatype PublicRecord = PublicRecord(address: Address, parameterSize: int, name: string)

  /** What stands behind FILE, if it is right. */
  function FileOf(text: string): Option<FileRecord> {
    var t := Tokenized(text, 2);
    if t.Some? && IsCountField(t.value[0], 10) then Some(FileRecord(StrToL(t.value[0], 10), t.value[1])) else None
  }

  function FunctionOf(text: string): Option<FunctionRecord> {
    var t := Tokenized(text, 4);
    if t.Some? && IsHexField(t.value[0]) && IsHexField(t.value[1]) && IsCountField(t.value[2], 16) then
      Some(FunctionRecord(StrToUL(t.value[0]), StrToUL(t.value[1]), StrToL(t.value[2], 16), t.value[3]))
    else None
  }

  function LineOf(text: string): Option<LineRecord> {
    var t := Tokenized(text, 4);
    if t.Some? && IsHexField(t.value[0]) && IsHexField(t.value[1]) && IsCountField(t.value[2], 10)
       && IsCountField(t.value[3], 10)
    then Some(LineRecord(StrToUL(t.value[0]), StrToUL(t.value[1]), StrToL(t.value[2], 10), StrToL(t.value[3], 10)))
    else None
  }

  function PublicOf(text: string): Option<PublicRecord> {
    var t := Tokenized(text, 3);
    if t.Some? && IsHexField(t.value[0]) && IsCountField(t.value[1], 16)
    then Some(PublicRecord(StrToUL(t.value[0]), StrToL(t.value[1], 16), t.value[2]))
    else None
  }

  method ParseFile(line: string) returns (file: Option<FileRecord>)
    requires FILE <= line
    ensures file == FileOf(line[|FILE|..])
  {
    var enough, tokens := Tokenize(line[|FILE|..], 2);
    if !enough || !IsCountField(tokens[0], 10) {
      return None;
    }
    return Some(FileRecord(StrToL(tokens[0], 10), tokens[1]));
  }

  method ParseFunction(line: string) returns (record: Option<FunctionRecord>)
    requires FUNC <= line
    ensures record == FunctionOf(line[|FUNC|..])
  {
    var enough, tokens := Tokenize(line[|FUNC|..], 4);
    if !enough || !IsHexField(tokens[0]) || !IsHexField(tokens[1]) || !IsCountField(tokens[2], 16) {
      return None;
    }
    return Some(FunctionRecord(StrToUL(tokens[0]), StrToUL(tokens[1]), StrToL(tokens[2], 16), tokens[3]));
  }

  method ParseLine(line: string) returns (record: Option<LineRecord>)
    ensures record == LineOf(line)
  {
    var enough, tokens := Tokenize(line, 4);
    if !enough || !IsHexField(tokens[0]) || !IsHexField(tokens[1]) || !IsCountField(tokens[2], 10)
       || !IsCountField(tokens[3], 10) {
      return None;
    }
    return Some(LineRecord(StrToUL(tokens[0]), StrToUL(tokens[1]), StrToL(tokens[2], 10), StrToL(tokens[3], 10)));
  }

  method ParsePublicSymbol(line: string) returns (symbol: Option<PublicRecord>)
    requires PUBLIC <= line
    ensures symbol == PublicOf(line[|PUBLIC|..])
  {
    var enough, tokens := Tokenize(line[|PUBLIC|..], 3);
    if !enough || !IsHexField(tokens[0]) || !IsCountField(tokens[1], 16) {
      return None;
    }
    return Some(PublicRecord(StrToUL(tokens[0]), StrToL(tokens[1], 16), tokens[2]));
  }

  // ----- what is printed is read

  lemma {:induction false} SkipAllDigits(s: string, base: nat)
    requires forall c <- s :: IsBaseDigit(c, base)
    ensures SkipDigits(s, base) == []
  {
    if s != [] {
      assert s[0] in s;
      SkipAllDigits(s[1..], base);
    }
  }

  lemma {:induction false} DecimalDigitsMore(s: string, c: char, before: nat)
    requires IsNumeral(s + [c])
    ensures DecimalDigits(s + [c], before) == 10 * DecimalDigits(s, before) + (c as int - '0' as int)
  {
    assert c in s + [c] && forall d <- s :: d in s + [c];
    if s == [] {
      assert (s + [c])[1..] == [];
    } else {
      assert (s + [c])[1..] == s[1..] + [c];
      assert s[0] in s && forall d <- s[1..] + [c] :: d in s + [c];
      DecimalDigitsMore(s[1..], c, 10 * before + (s[0] as int - '0' as int));
    }
  }

  lemma {:induction false} DigitsOfDecimalText(n: nat)
    ensures DecimalDigits(DecimalText(n), 0) == n
  {
    if n < 10 {
      assert DecimalText(n)[1..] == [];
    } else {
      DigitsOfDecimalText(n / 10);
      var d := "0123456789"[n % 10];
      assert d as int - '0' as int == n % 10;
      assert DecimalText(n) == DecimalText(n / 10) + [d];
      hide DecimalText, DecimalDigits;
      DecimalDigitsMore(DecimalText(n / 10), d, 0);
    }
  }

  lemma {:induction false} StartOfDigits(s: string, base: nat)
    requires s != [] && (forall c <- s :: IsBaseDigit(c, base)) && (base == 10 || base == 16)
    ensures NumberStart(s, base) == s && AfterNumber(s, base) == [] && SkipSpaces(s) == s && s[0] != '-'
  {
    assert s[0] in s;
    assert |s| >= 3 ==> s[1] in s;
    SkipAllDigits(s, base);
  }

  lemma {:induction false} ReadHexField(n: Address)
    ensures IsHexField(HexText(n)) <==> n != ADDRESS_SPACE - 1
    ensures IsCountField(HexText(n), 16) <==> n < LONG_MAX
    ensures n < LONG_MAX ==> StrToL(HexText(n), 16) == n
    ensures IsToken(HexText(n), FIELD_BREAKS)
  {
    hide HexText;
    HexTextIsDigits(n);
    StartOfDigits(HexText(n), 16);
    DigitsValueOfHexText(n);
    ReadHexText(n);
  }

  lemma {:induction false} ReadDecimalField(n: nat)
    ensures IsCountField(DecimalText(n), 10) <==> n < LONG_MAX
    ensures n < LONG_MAX ==> StrToL(DecimalText(n), 10) == n
    ensures IsToken(DecimalText(n), FIELD_BREAKS)
  {
    hide DecimalText;
    StartOfDigits(DecimalText(n), 10);
    DigitsOfDecimalText(n);
  }
}
