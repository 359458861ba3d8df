/**
 What each converter does with one character, branch by branch as in convert_UTF.c, and how that
 relates to the encodings of UtfReference.
 */
module UtfSteps {
  import opened UtfReference
  import opened ConversionRun

  datatype ConversionFlags = StrictConversion | LenientConversion

  const REPLACEMENT: UTF32 := 0xFFFD

  predicate InBmp(ch: UTF32) { ch <= 0xFFFF }

  predicate IsSurrogate(ch: UTF32) { 0xD800 <= ch <= 0xDFFF }

  predicate IsLegalUTF32(ch: UTF32) { ch <= 0x10FFFF }

  // ----- UTF-8 sources

  /** `trailingBytesForUTF8`, indexed by the first byte. */
  function TrailingBytes(b: UTF8): (n: nat)
    ensures n <= 5
  {
    if b < 0xC0 then 0 else if b < 0xE0 then 1 else if b < 0xF0 then 2
    else if b < 0xF8 then 3 else if b < 0xFC then 4 else 5
  }

  /** The inner switch of `isLegalUTF8` on the first byte, and the test before it. */
  predicate SecondIsLegal(first: UTF8, a: UTF8) {
    && a <= 0xBF
    && (if first == 0xE0 then a >= 0xA0
        else if first == 0xED then a <= 0x9F
        else if first == 0xF0 then a >= 0x90
        else if first == 0xF4 then a <= 0x8F
        else a >= 0x80)
  }

  /** `isLegalUTF8`; its cases fall through from the length down to one. */
  predicate IsLegalUTF8(s: seq<UTF8>, length: nat)
    requires 1 <= length <= |s|
  {
    && length <= 4
    && (length >= 4 ==> 0x80 <= s[3] <= 0xBF)
    && (length >= 3 ==> 0x80 <= s[2] <= 0xBF)
    && (length >= 2 ==> SecondIsLegal(s[0], s[1]))
    && !(s[0] >= 0x80 && s[0] < 0xC2)
    && s[0] <= 0xF4
  }

  /** `ch += *source++; ch <<= 6;` and `ch += *source++;` */
  function AddShift(ch: UTF32, b: UTF8): UTF32 { (ch + b as bv32) << 6 }

  function AddLast(ch: UTF32, b: UTF8): UTF32 { ch + b as bv32 }

  /** Subtract the entry of `offsetsFromUTF8`; its last two entries are for lengths that are not legal. */
  function LessOffset(ch: UTF32, extra: nat): UTF32
    requires extra <= 3
  {
    if extra == 0 then ch else if extra == 1 then ch - 0x3080 else if extra == 2 then ch - 0xE2080 else ch - 0x3C82080
  }

  function Value1(a: UTF8): UTF32 { LessOffset(AddLast(0, a), 0) }

  function Value2(a: UTF8, b: UTF8): UTF32 { LessOffset(AddLast(AddShift(0, a), b), 1) }

  function Value3(a: UTF8, b: UTF8, d: UTF8): UTF32 { LessOffset(AddLast(AddShift(AddShift(0, a), b), d), 2) }

  function Value4(a: UTF8, b: UTF8, d: UTF8, e: UTF8): UTF32 {
    LessOffset(AddLast(AddShift(AddShift(AddShift(0, a), b), d), e), 3)
  }

  function ValueOf(s: seq<UTF8>, length: nat): UTF32
    requires 1 <= length <= |s| && length <= 4
  {
    if length == 1 then Value1(s[0])
    else if length == 2 then Value2(s[0], s[1])
    else if length == 3 then Value3(s[0], s[1], s[2])
    else Value4(s[0], s[1], s[2], s[3])
  }

  /** The two units of a character above 0xFFFF. */
  function High(ch: UTF32): UTF16 { ((((ch - 0x10000) >> 10) + 0xD800) & 0xFFFF) as bv16 }

  function Low(ch: UTF32): UTF16 { ((((ch - 0x10000) & 0x3FF) + 0xDC00) & 0xFFFF) as bv16 }

  function Cast16(ch: UTF32): UTF16 { (ch & 0xFFFF) as bv16 }

  function Step8to16(s: seq<UTF8>, flags: ConversionFlags): (r: Step<UTF16>)
    requires s != []
    ensures r.Put? ==> 1 <= r.used <= |s| && |r.out| <= r.need <= 4
    ensures r.Halt? ==> r.need <= 4 && (r.why == SourceExhausted || r.why == SourceIllegal)
  {
    var n := TrailingBytes(s[0]) + 1;
    if n > |s| then Halt(0, SourceExhausted)
    else if !IsLegalUTF8(s, n) then Halt(0, SourceIllegal)
    else
      var ch := ValueOf(s, n);
      if InBmp(ch) then
        if IsSurrogate(ch) then
          if flags.StrictConversion? then Halt(1, SourceIllegal) else Put(1, n, [Cast16(REPLACEMENT)], false)
        else Put(1, n, [Cast16(ch)], false)
      else if !IsLegalUTF32(ch) then
        if flags.StrictConversion? then Halt(1, SourceIllegal) else Put(1, n, [Cast16(REPLACEMENT)], false)
      else Put(2, n, [High(ch), Low(ch)], false)
  }

  function Step8to32(s: seq<UTF8>, flags: ConversionFlags): (r: Step<UTF32>)
    requires s != []
    ensures r.Put? ==> 1 <= r.used <= |s| && |r.out| <= r.need <= 4
    ensures r.Halt? ==> r.need <= 4 && (r.why == SourceExhausted || r.why == SourceIllegal)
  {
    var n := TrailingBytes(s[0]) + 1;
    if n > |s| then Halt(0, SourceExhausted)
    else if !IsLegalUTF8(s, n) then Halt(0, SourceIllegal)
    else
      var ch := ValueOf(s, n);
      if IsLegalUTF32(ch) then
        if IsSurrogate(ch) then
          if flags.StrictConversion? then Halt(1, SourceIllegal) else Put(1, n, [REPLACEMENT], false)
        else Put(1, n, [ch], false)
      else Put(1, n, [REPLACEMENT], true)
  }

  // ----- UTF-16 sources

  datatype Next = Stop(why: ConversionResult) | Char(ch: UTF32, used: nat)

  function PairValue(u: UTF16, v: UTF16): UTF32 {
    (((u as bv32) - 0xD800) << 10) + ((v as bv32) - 0xDC00) + 0x10000
  }

  /** The character a UTF-16 source starts with, as both converters from UTF-16 find it. */
  function Next16(s: seq<UTF16>, flags: ConversionFlags): (n: Next)
    requires s != []
    ensures n.Char? ==> 1 <= n.used <= |s|
  {
    if HighSurrogate(s[0]) then
      if |s| >= 2 then
        if LowSurrogate(s[1]) then Char(PairValue(s[0], s[1]), 2)
        else if flags.StrictConversion? then Stop(SourceIllegal)
        else Char(s[0] as bv32, 1)
      else Stop(SourceExhausted)
    else if flags.StrictConversion? && LowSurrogate(s[0]) then Stop(SourceIllegal)
    else Char(s[0] as bv32, 1)
  }

  function Step16to32(s: seq<UTF16>, flags: ConversionFlags): (r: Step<UTF32>)
    requires s != []
    ensures r.Put? ==> 1 <= r.used <= |s| && |r.out| <= r.need <= 4
    ensures r.Halt? ==> r.need <= 4 && (r.why == SourceExhausted || r.why == SourceIllegal)
  {
    match Next16(s, flags)
    case Stop(why) => Halt(0, why)
    case Char(ch, used) => Put(1, used, [ch], false)
  }

  // the falling-through switch that writes the bytes from the last to the first, shifting ch each time
  function Marked(ch: UTF32): UTF8 { ((ch | 0x80) & 0xBF) as bv8 }

  function Shift6(ch: UTF32): UTF32 { ch >> 6 }

  /** `firstByteMark`, indexed by the number of bytes. */
  function FirstByteMark(bytesToWrite: nat): UTF32 {
    if bytesToWrite <= 1 then 0x00 else if bytesToWrite == 2 then 0xC0 else if bytesToWrite == 3 then 0xE0 else 0xF0
  }

  function First(ch: UTF32, bytesToWrite: nat): UTF8 { ((ch | FirstByteMark(bytesToWrite)) & 0xFF) as bv8 }

  function BytesToWrite(ch: UTF32): (n: nat)
    ensures 1 <= n <= 4
  {
    if ch < 0x80 then 1 else if ch < 0x800 then 2 else if ch < 0x10000 then 3 else 4
  }

  function Bytes(ch: UTF32, bytesToWrite: nat): (s: seq<UTF8>)
    requires 1 <= bytesToWrite <= 4
    ensures |s| == bytesToWrite
  {
    if bytesToWrite == 1 then [First(ch, 1)]
    else if bytesToWrite == 2 then [First(Shift6(ch), 2), Marked(ch)]
    else if bytesToWrite == 3 then [First(Shift6(Shift6(ch)), 3), Marked(Shift6(ch)), Marked(ch)]
    else [First(Shift6(Shift6(Shift6(ch))), 4), Marked(Shift6(Shift6(ch))), Marked(Shift6(ch)), Marked(ch)]
  }

  function Step16to8(s: seq<UTF16>, flags: ConversionFlags): (r: Step<UTF8>)
    requires s != []
    ensures r.Put? ==> 1 <= r.used <= |s| && |r.out| <= r.need <= 4
    ensures r.Halt? ==> r.need <= 4 && (r.why == SourceExhausted || r.why == SourceIllegal)
  {
    match Next16(s, flags)
    case Stop(why) => Halt(0, why)
    case Char(ch, used) =>
      if IsLegalUTF32(ch) then Put(BytesToWrite(ch), used, Bytes(ch, BytesToWrite(ch)), false)
      else Put(3, used, Bytes(REPLACEMENT, 3), false)
  }

  // ----- UTF-32 sources; a value above 0x10FFFF spoils the result but does not stop the conversion

  function Step32to16(s: seq<UTF32>, flags: ConversionFlags): (r: Step<UTF16>)
    requires s != []
    ensures r.Put? ==> 1 <= r.used <= |s| && |r.out| <= r.need <= 4
    ensures r.Halt? ==> r.need <= 4 && (r.why == SourceExhausted || r.why == SourceIllegal)
  {
    var ch := s[0];
    if InBmp(ch) then
      if IsSurrogate(ch) then
        if flags.StrictConversion? then Halt(1, SourceIllegal) else Put(1, 1, [Cast16(REPLACEMENT)], false)
      else Put(1, 1, [Cast16(ch)], false)
    else if !IsLegalUTF32(ch) then
      if flags.StrictConversion? then Put(1, 1, [], true) else Put(1, 1, [Cast16(REPLACEMENT)], false)
    else Put(2, 1, [High(ch), Low(ch)], false)
  }

  function Step32to8(s: seq<UTF32>, flags: ConversionFlags): (r: Step<UTF8>)
    requires s != []
    ensures r.Put? ==> 1 <= r.used <= |s| && |r.out| <= r.need <= 4
    ensures r.Halt? ==> r.need <= 4 && (r.why == SourceExhausted || r.why == SourceIllegal)
  {
    var ch := s[0];
    if flags.StrictConversion? && IsSurrogate(ch) then Halt(0, SourceIllegal)
    else if IsLegalUTF32(ch) then Put(BytesToWrite(ch), 1, Bytes(ch, BytesToWrite(ch)), false)
    else Put(3, 1, Bytes(REPLACEMENT, 3), true)
  }

  // ----- the UTF-8 that the converters accept

  /** A second byte below 0x80, which the test for the first bytes 0xED and 0xF4 does not exclude. */
  predicate ShortSecond(a: UTF8, b: UTF8) {
    (a == 0xED || a == 0xF4) && b < 0x80
  }

  predicate LooseThree(s: seq<UTF8>) {
    |s| >= 3 && (Start3(s[0], s[1]) || (s[0] == 0xED && ShortSecond(s[0], s[1]))) && Tail(s[2])
  }

  predicate LooseFour(s: seq<UTF8>) {
    |s| >= 4 && (Start4(s[0], s[1]) || (s[0] == 0xF4 && ShortSecond(s[0], s[1]))) && Tail(s[2]) && Tail(s[3])
  }

  /** The length of the character the converters see at the start of s, or zero if they see none. */
  function LooseLength(s: seq<UTF8>): (n: nat)
    ensures n <= |s| && n <= 4
  {
    if OneByte(s) then 1 else if TwoBytes(s) then 2 else if LooseThree(s) then 3 else if LooseFour(s) then 4 else 0
  }

  function Next8(s: seq<UTF8>): (n: Next)
    requires s != []
    ensures n.Char? ==> 1 <= n.used <= |s|
  {
    if LooseLength(s) > 0 then Char(ValueOf(s, LooseLength(s)), LooseLength(s))
    else Stop(if TrailingBytes(s[0]) + 1 > |s| then SourceExhausted else SourceIllegal)
  }

  lemma {:induction false} Legal1(a: UTF8)
    ensures TrailingBytes(a) == 0 && !(a >= 0x80 && a < 0xC2) && a <= 0xF4 <==> a <= 0x7F
  {
  }

  lemma {:induction false} Legal2(a: UTF8, b: UTF8)
    ensures TrailingBytes(a) == 1 && SecondIsLegal(a, b) && !(a >= 0x80 && a < 0xC2) && a <= 0xF4
       <==> 0xC2 <= a <= 0xDF && Tail(b)
  {
  }

  lemma {:induction false} Legal3(a: UTF8, b: UTF8)
    ensures TrailingBytes(a) == 2 && SecondIsLegal(a, b) && !(a >= 0x80 && a < 0xC2) && a <= 0xF4
       <==> Start3(a, b) || (a == 0xED && ShortSecond(a, b))
  {
  }

  lemma {:induction false} Legal4(a: UTF8, b: UTF8)
    ensures TrailingBytes(a) == 3 && SecondIsLegal(a, b) && !(a >= 0x80 && a < 0xC2) && a <= 0xF4
       <==> Start4(a, b) || (a == 0xF4 && ShortSecond(a, b))
  {
  }

  /** `isLegalUTF8` with the length from the table accepts just the characters of LooseLength. */
  lemma {:induction false} LegalIsLoose(s: seq<UTF8>)
    requires s != []
    ensures var n := TrailingBytes(s[0]) + 1;
      LooseLength(s) == if n <= |s| && IsLegalUTF8(s, n) then n else 0
  {
    hide TrailingBytes, SecondIsLegal, Start3, Start4, ShortSecond;
    Legal1(s[0]);
    if |s| >= 2 {
      Legal2(s[0], s[1]);
      Legal3(s[0], s[1]);
      Legal4(s[0], s[1]);
    }
  }
}
