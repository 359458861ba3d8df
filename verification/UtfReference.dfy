/**
 The encodings as their standards define them: UTF-8 (RFC 3629, sections 3 and 4), UTF-16 (RFC 2781,
 sections 2.1 and 2.2) and UTF-32.  Nothing here follows the converters' code.
 */
module UtfReference {
  type UTF8 = bv8
  type UTF16 = bv16
  type UTF32 = bv32

  /** A Unicode scalar value: a code point that is not a surrogate. */
  predicate IsScalar(c: UTF32) {
    c <= 0x10FFFF && !(0xD800 <= c <= 0xDFFF)
  }

  ghost predicate AllScalars(cs: seq<UTF32>) {
    forall k :: 0 <= k < |cs| ==> IsScalar(cs[k])
  }

  // ----- section 3 of RFC 3629: the bit patterns of the bytes of a character

  function Lead2(c: UTF32): UTF8 { (0xC0 | ((c >> 6) & 0x1F)) as bv8 }

  function Lead3(c: UTF32): UTF8 { (0xE0 | ((c >> 12) & 0x0F)) as bv8 }

  function Lead4(c: UTF32): UTF8 { (0xF0 | ((c >> 18) & 0x07)) as bv8 }

  function Trail12(c: UTF32): UTF8 { (0x80 | ((c >> 12) & 0x3F)) as bv8 }

  function Trail6(c: UTF32): UTF8 { (0x80 | ((c >> 6) & 0x3F)) as bv8 }

  function Trail0(c: UTF32): UTF8 { (0x80 | (c & 0x3F)) as bv8 }

  function Low7(c: UTF32): UTF8 { (c & 0x7F) as bv8 }

  function Encode8(c: UTF32): (s: seq<UTF8>)
    ensures 1 <= |s| <= 4
  {
    if c < 0x80 then [Low7(c)]
    else if c < 0x800 then [Lead2(c), Trail0(c)]
    else if c < 0x10000 then [Lead3(c), Trail6(c), Trail0(c)]
    else [Lead4(c), Trail12(c), Trail6(c), Trail0(c)]
  }

  // ----- section 2.1 of RFC 2781: the 16-bit units of a character

  function HighUnit(c: UTF32): UTF16 { (0xD800 | (((c - 0x10000) >> 10) & 0x3FF)) as bv16 }

  function LowUnit(c: UTF32): UTF16 { (0xDC00 | ((c - 0x10000) & 0x3FF)) as bv16 }

  function Low16(c: UTF32): UTF16 { (c & 0xFFFF) as bv16 }

  function Encode16(c: UTF32): (s: seq<UTF16>)
    ensures 1 <= |s| <= 2
  {
    if c < 0x10000 then [Low16(c)] else [HighUnit(c), LowUnit(c)]
  }

  function Encode32(c: UTF32): seq<UTF32> {
    [c]
  }

  /** A text in an encoding: the encodings of its characters, one after the other. */
  function EncodeAll<T>(encode: UTF32 -> seq<T>, cs: seq<UTF32>): seq<T> {
    if cs == [] then [] else encode(cs[0]) + EncodeAll(encode, cs[1..])
  }

  lemma {:induction false} EncodeAllConcat<T>(encode: UTF32 -> seq<T>, a: seq<UTF32>, b: seq<UTF32>)
    ensures EncodeAll(encode, a + b) == EncodeAll(encode, a) + EncodeAll(encode, b)
  {
    if a == [] {
      assert a + b == b;
    } else {
      EncodeAllConcat(encode, a[1..], b);
      assert (a + b)[1..] == a[1..] + b;
    }
  }

  // ----- section 4 of RFC 3629: the syntax of UTF-8

  predicate Tail(b: UTF8) {
    0x80 <= b <= 0xBF
  }

  predicate OneByte(s: seq<UTF8>) {
    |s| >= 1 && s[0] <= 0x7F
  }

  predicate TwoBytes(s: seq<UTF8>) {
    |s| >= 2 && 0xC2 <= s[0] <= 0xDF && Tail(s[1])
  }

  /** The first two bytes of a three-byte character. */
  predicate Start3(a: UTF8, b: UTF8) {
    || (a == 0xE0 && 0xA0 <= b <= 0xBF)
    || (0xE1 <= a <= 0xEC && Tail(b))
    || (a == 0xED && 0x80 <= b <= 0x9F)
    || (0xEE <= a <= 0xEF && Tail(b))
  }

  predicate ThreeBytes(s: seq<UTF8>) {
    |s| >= 3 && Start3(s[0], s[1]) && Tail(s[2])
  }

  /** The first two bytes of a four-byte character. */
  predicate Start4(a: UTF8, b: UTF8) {
    || (a == 0xF0 && 0x90 <= b <= 0xBF)
    || (0xF1 <= a <= 0xF3 && Tail(b))
    || (a == 0xF4 && 0x80 <= b <= 0x8F)
  }

  predicate FourBytes(s: seq<UTF8>) {
    |s| >= 4 && Start4(s[0], s[1]) && Tail(s[2]) && Tail(s[3])
  }

  /** The length of the character at the start of s, or zero if none is there. */
  function CharLength(s: seq<UTF8>): (n: nat)
    ensures n <= |s|
  {
    if OneByte(s) then 1 else if TwoBytes(s) then 2 else if ThreeBytes(s) then 3 else if FourBytes(s) then 4 else 0
  }

  /** A sequence of characters. */
  predicate WellFormed8(s: seq<UTF8>) {
    s == [] || (CharLength(s) > 0 && WellFormed8(s[CharLength(s)..]))
  }

  // ----- section 2.2 of RFC 2781: the syntax of UTF-16

  predicate HighSurrogate(u: UTF16) {
    0xD800 <= u <= 0xDBFF
  }

  predicate LowSurrogate(u: UTF16) {
    0xDC00 <= u <= 0xDFFF
  }

  function UnitLength(s: seq<UTF16>): (n: nat)
    ensures n <= |s|
  {
    if s == [] then 0
    else if !HighSurrogate(s[0]) && !LowSurrogate(s[0]) then 1
    else if |s| >= 2 && HighSurrogate(s[0]) && LowSurrogate(s[1]) then 2
    else 0
  }

  predicate WellFormed16(s: seq<UTF16>) {
    s == [] || (UnitLength(s) > 0 && WellFormed16(s[UnitLength(s)..]))
  }

  // ----- the two descriptions of each encoding agree

  function Join2(a: UTF8, b: UTF8): UTF32 {
    (((a & 0x1F) as bv32) << 6) | ((b & 0x3F) as bv32)
  }

  function Join3(a: UTF8, b: UTF8, d: UTF8): UTF32 {
    (((a & 0x0F) as bv32) << 12) | (((b & 0x3F) as bv32) << 6) | ((d & 0x3F) as bv32)
  }

  function Join4(a: UTF8, b: UTF8, d: UTF8, e: UTF8): UTF32 {
    (((a & 0x07) as bv32) << 18) | (((b & 0x3F) as bv32) << 12) | (((d & 0x3F) as bv32) << 6) | ((e & 0x3F) as bv32)
  }

  function JoinUnits(u: UTF16, v: UTF16): UTF32 {
    ((((u & 0x3FF) as bv32) << 10) | ((v & 0x3FF) as bv32)) + 0x10000
  }

  lemma {:induction false} SplitJoin1(a: UTF8)
    requires a <= 0x7F
    ensures a as bv32 < 0x80 && Low7(a as bv32) == a
  {
  }

  lemma {:induction false} SplitJoin2(a: UTF8, b: UTF8)
    requires 0xC2 <= a <= 0xDF && Tail(b)
    ensures var c := Join2(a, b); 0x80 <= c < 0x800 && Lead2(c) == a && Trail0(c) == b
  {
  }

  lemma {:induction false} SplitJoin3(a: UTF8, b: UTF8, d: UTF8)
    requires Start3(a, b) && Tail(d)
    ensures var c := Join3(a, b, d);
      0x800 <= c < 0x10000 && IsScalar(c) && Lead3(c) == a && Trail6(c) == b && Trail0(c) == d
  {
  }

  lemma {:induction false} SplitJoin4(a: UTF8, b: UTF8, d: UTF8, e: UTF8)
    requires Start4(a, b) && Tail(d) && Tail(e)
    ensures var c := Join4(a, b, d, e);
      0x10000 <= c <= 0x10FFFF && Lead4(c) == a && Trail12(c) == b && Trail6(c) == d && Trail0(c) == e
  {
  }

  lemma {:induction false} SplitJoinUnits(u: UTF16, v: UTF16)
    requires HighSurrogate(u) && LowSurrogate(v)
    ensures var c := JoinUnits(u, v); 0x10000 <= c <= 0x10FFFF && HighUnit(c) == u && LowUnit(c) == v
  {
  }

  lemma {:induction false} SplitJoinUnit(u: UTF16)
    requires !HighSurrogate(u) && !LowSurrogate(u)
    ensures u as bv32 < 0x10000 && IsScalar(u as bv32) && Low16(u as bv32) == u
  {
  }

  lemma {:induction false} JoinSplit1(c: UTF32)
    requires c < 0x80
    ensures Low7(c) <= 0x7F && Low7(c) as bv32 == c
  {
  }

  lemma {:induction false} JoinSplit2(c: UTF32)
    requires 0x80 <= c < 0x800
    ensures 0xC2 <= Lead2(c) <= 0xDF && Tail(Trail0(c)) && Join2(Lead2(c), Trail0(c)) == c
  {
  }

  lemma {:induction false} JoinSplit3(c: UTF32)
    requires 0x800 <= c < 0x10000 && !(0xD800 <= c <= 0xDFFF)
    ensures Start3(Lead3(c), Trail6(c)) && Tail(Trail0(c)) && Join3(Lead3(c), Trail6(c), Trail0(c)) == c
  {
  }

  lemma {:induction false} JoinSplit4(c: UTF32)
    requires 0x10000 <= c <= 0x10FFFF
    ensures Start4(Lead4(c), Trail12(c)) && Tail(Trail6(c)) && Tail(Trail0(c))
    ensures Join4(Lead4(c), Trail12(c), Trail6(c), Trail0(c)) == c
  {
  }

  lemma {:induction false} Low16Keeps(c: UTF32)
    requires c < 0x10000
    ensures Low16(c) as bv32 == c
  {
  }

  lemma {:induction false} Low16IsNoSurrogate(c: UTF32)
    requires c < 0x10000 && !(0xD800 <= c <= 0xDFFF)
    ensures !HighSurrogate(Low16(c)) && !LowSurrogate(Low16(c))
  {
  }

  lemma {:induction false} JoinSplitUnits(c: UTF32)
    requires 0x10000 <= c <= 0x10FFFF
    ensures HighSurrogate(HighUnit(c)) && LowSurrogate(LowUnit(c)) && JoinUnits(HighUnit(c), LowUnit(c)) == c
  {
  }

  /** The character at the start of s. */
  function Decode8(s: seq<UTF8>): UTF32
    requires CharLength(s) > 0
  {
    if OneByte(s) then s[0] as bv32
    else if TwoBytes(s) then Join2(s[0], s[1])
    else if ThreeBytes(s) then Join3(s[0], s[1], s[2])
    else Join4(s[0], s[1], s[2], s[3])
  }

  function Decode16(s: seq<UTF16>): UTF32
    requires UnitLength(s) > 0
  {
    if UnitLength(s) == 1 then s[0] as bv32 else JoinUnits(s[0], s[1])
  }

  lemma {:induction false} Encode8Decode8(s: seq<UTF8>)
    requires CharLength(s) > 0
    ensures IsScalar(Decode8(s)) && Encode8(Decode8(s)) == s[..CharLength(s)]
  {
    if OneByte(s) {
      SplitJoin1(s[0]);
    } else if TwoBytes(s) {
      SplitJoin2(s[0], s[1]);
    } else if ThreeBytes(s) {
      SplitJoin3(s[0], s[1], s[2]);
    } else {
      SplitJoin4(s[0], s[1], s[2], s[3]);
    }
    hide Join2, Join3, Join4, Lead2, Lead3, Lead4, Trail0, Trail6, Trail12, Low7, Start3, Start4;
  }

  lemma {:induction false} EncodeUnit(u: UTF16)
    requires !HighSurrogate(u) && !LowSurrogate(u)
    ensures IsScalar(u as bv32) && Encode16(u as bv32) == [u]
  {
    hide HighSurrogate, LowSurrogate, Low16, HighUnit, LowUnit, IsScalar;
    SplitJoinUnit(u);
  }

  lemma {:induction false} EncodeUnits(u: UTF16, v: UTF16)
    requires HighSurrogate(u) && LowSurrogate(v)
    ensures IsScalar(JoinUnits(u, v)) && Encode16(JoinUnits(u, v)) == [u, v]
  {
    hide HighSurrogate, LowSurrogate, Low16, HighUnit, LowUnit, JoinUnits;
    SplitJoinUnits(u, v);
  }

  lemma {:induction false} Encode16Decode16(s: seq<UTF16>)
    requires UnitLength(s) > 0
    ensures IsScalar(Decode16(s)) && Encode16(Decode16(s)) == s[..UnitLength(s)]
  {
    hide HighSurrogate, LowSurrogate, JoinUnits, Encode16, IsScalar;
    if UnitLength(s) == 1 {
      EncodeUnit(s[0]);
    } else {
      EncodeUnits(s[0], s[1]);
    }
  }

  /** The encoding of a scalar value, followed by anything, starts with just that character. */
  lemma {:induction false} Decode8Encode8(c: UTF32, rest: seq<UTF8>)
    requires IsScalar(c)
    ensures CharLength(Encode8(c) + rest) == |Encode8(c)| && Decode8(Encode8(c) + rest) == c
  {
    if c < 0x80 {
      JoinSplit1(c);
    } else if c < 0x800 {
      JoinSplit2(c);
    } else if c < 0x10000 {
      JoinSplit3(c);
    } else {
      JoinSplit4(c);
    }
    hide Join2, Join3, Join4, Lead2, Lead3, Lead4, Trail0, Trail6, Trail12, Low7;
  }

  lemma {:induction false} HighIsNotLow(u: UTF16)
    ensures !(HighSurrogate(u) && LowSurrogate(u))
  {
  }

  lemma {:induction false} OneUnit(u: UTF16, rest: seq<UTF16>)
    requires !HighSurrogate(u) && !LowSurrogate(u)
    ensures UnitLength([u] + rest) == 1 && Decode16([u] + rest) == u as bv32
  {
    hide HighSurrogate, LowSurrogate, JoinUnits;
    assert ([u] + rest)[0] == u;
  }

  lemma {:induction false} TwoUnits(u: UTF16, v: UTF16, rest: seq<UTF16>)
    requires HighSurrogate(u) && LowSurrogate(v)
    ensures UnitLength([u, v] + rest) == 2 && Decode16([u, v] + rest) == JoinUnits(u, v)
  {
    hide JoinUnits;
    assert ([u, v] + rest)[0] == u && ([u, v] + rest)[1] == v;
  }

  lemma {:induction false} Decode16EncodeUnit(c: UTF32, rest: seq<UTF16>)
    requires c < 0x10000 && !(0xD800 <= c <= 0xDFFF)
    ensures UnitLength(Encode16(c) + rest) == |Encode16(c)| && Decode16(Encode16(c) + rest) == c
  {
    hide Low16, HighSurrogate, LowSurrogate, UnitLength, Decode16;
    Low16Keeps(c);
    Low16IsNoSurrogate(c);
    OneUnit(Low16(c), rest);
  }

  lemma {:induction false} Decode16EncodeUnits(c: UTF32, rest: seq<UTF16>)
    requires 0x10000 <= c <= 0x10FFFF
    ensures UnitLength(Encode16(c) + rest) == |Encode16(c)| && Decode16(Encode16(c) + rest) == c
  {
    hide JoinUnits, HighUnit, LowUnit, HighSurrogate, LowSurrogate, UnitLength, Decode16;
    JoinSplitUnits(c);
    TwoUnits(HighUnit(c), LowUnit(c), rest);
  }

  lemma {:induction false} Decode16Encode16(c: UTF32, rest: seq<UTF16>)
    requires IsScalar(c)
    ensures UnitLength(Encode16(c) + rest) == |Encode16(c)| && Decode16(Encode16(c) + rest) == c
  {
    hide Encode16, UnitLength, Decode16;
    if c < 0x10000 {
      Decode16EncodeUnit(c, rest);
    } else {
      Decode16EncodeUnits(c, rest);
    }
  }
}
