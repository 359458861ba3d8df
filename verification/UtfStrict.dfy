/**
 Strict conversions, one character at a time: the arithmetic of the converters agrees with the
 reference encodings, so each strict step is a decoding step followed by an encoding.
 */
module UtfStrict {
  import opened UtfReference
  import opened ConversionRun
  import opened UtfSteps

  // ----- arithmetic

  lemma {:induction false} Value2IsJoin(a: UTF8, b: UTF8)
    requires 0xC2 <= a <= 0xDF && Tail(b)
    ensures Value2(a, b) == Join2(a, b)
  {
  }

  lemma {:induction false} Value3IsJoin(a: UTF8, b: UTF8, d: UTF8)
    requires Start3(a, b) && Tail(d)
    ensures Value3(a, b, d) == Join3(a, b, d)
  {
  }

  lemma {:induction false} Value4IsJoin(a: UTF8, b: UTF8, d: UTF8, e: UTF8)
    requires Start4(a, b) && Tail(d) && Tail(e)
    ensures Value4(a, b, d, e) == Join4(a, b, d, e)
  {
  }

  lemma {:induction false} ShortValue3(b: UTF8, d: UTF8)
    requires b < 0x80 && Tail(d)
    ensures 0xB000 <= Value3(0xED, b, d) < 0xD000
  {
  }

  lemma {:induction false} ShortValue4(b: UTF8, d: UTF8, e: UTF8)
    requires b < 0x80 && Tail(d) && Tail(e)
    ensures 0x80000 <= Value4(0xF4, b, d, e) < 0x100000
  {
  }

  lemma {:induction false} UnitsAgree(ch: UTF32)
    requires 0x10000 <= ch <= 0x10FFFF
    ensures High(ch) == HighUnit(ch) && Low(ch) == LowUnit(ch)
  {
  }

  lemma {:induction false} PairIsJoin(u: UTF16, v: UTF16)
    requires HighSurrogate(u) && LowSurrogate(v)
    ensures PairValue(u, v) == JoinUnits(u, v)
  {
  }

  lemma {:induction false} Bytes1(ch: UTF32)
    requires ch < 0x80
    ensures First(ch, 1) == Low7(ch)
  {
  }

  lemma {:induction false} Bytes2(ch: UTF32)
    requires ch < 0x800
    ensures First(Shift6(ch), 2) == Lead2(ch) && Marked(ch) == Trail0(ch)
  {
  }

  lemma {:induction false} Bytes3(ch: UTF32)
    requires ch < 0x10000
    ensures First(Shift6(Shift6(ch)), 3) == Lead3(ch) && Marked(Shift6(ch)) == Trail6(ch) && Marked(ch) == Trail0(ch)
  {
  }

  lemma {:induction false} Bytes4(ch: UTF32)
    requires ch <= 0x10FFFF
    ensures First(Shift6(Shift6(Shift6(ch))), 4) == Lead4(ch) && Marked(Shift6(Shift6(ch))) == Trail12(ch)
    ensures Marked(Shift6(ch)) == Trail6(ch) && Marked(ch) == Trail0(ch)
  {
  }

  // ----- the character found in UTF-8

  /** The converters never read a surrogate or a value above 0x10FFFF from UTF-8. */
  lemma {:induction false} LooseIsScalar(s: seq<UTF8>)
    requires LooseLength(s) > 0
    ensures IsScalar(ValueOf(s, LooseLength(s)))
    ensures CharLength(s) > 0 ==> LooseLength(s) == CharLength(s) && ValueOf(s, LooseLength(s)) == Decode8(s)
  {
    hide Value2, Value3, Value4, Join2, Join3, Join4, Start3, Start4;
    if OneByte(s) {
      SplitJoin1(s[0]);
    } else if TwoBytes(s) {
      Value2IsJoin(s[0], s[1]);
      SplitJoin2(s[0], s[1]);
    } else if ThreeBytes(s) {
      Value3IsJoin(s[0], s[1], s[2]);
      SplitJoin3(s[0], s[1], s[2]);
    } else if FourBytes(s) {
      Value4IsJoin(s[0], s[1], s[2], s[3]);
      SplitJoin4(s[0], s[1], s[2], s[3]);
    } else if LooseThree(s) {
      ShortValue3(s[1], s[2]);
    } else {
      ShortValue4(s[1], s[2], s[3]);
    }
  }

  // ----- each strict step decodes one character and encodes it again

  function StepVia<T>(n: Next, encode: UTF32 -> seq<T>): Step<T> {
    match n
    case Stop(why) => Halt(0, why)
    case Char(ch, used) => Put(|encode(ch)|, used, encode(ch), false)
  }

  lemma {:induction false} Emit16(ch: UTF32)
    requires ch <= 0xFFFF
    ensures Cast16(ch) == Low16(ch)
  {
  }

  /** The common last part of the steps that write UTF-16, for a scalar value. */
  function Put16(ch: UTF32, used: nat): Step<UTF16> {
    if ch <= 0xFFFF then Put(1, used, [Cast16(ch)], false) else Put(2, used, [High(ch), Low(ch)], false)
  }

  lemma {:induction false} Put16Encodes(ch: UTF32, used: nat)
    requires ch <= 0x10FFFF
    ensures Put16(ch, used) == Put(|Encode16(ch)|, used, Encode16(ch), false)
  {
    hide Cast16, Low16, High, Low, HighUnit, LowUnit;
    if ch <= 0xFFFF {
      Emit16(ch);
    } else {
      UnitsAgree(ch);
    }
  }

  lemma {:induction false} BytesEncode(ch: UTF32)
    requires ch <= 0x10FFFF
    ensures Bytes(ch, BytesToWrite(ch)) == Encode8(ch)
  {
    hide First, Marked, Shift6, Low7, Lead2, Lead3, Lead4, Trail0, Trail6, Trail12;
    if ch < 0x80 {
      Bytes1(ch);
    } else if ch < 0x800 {
      Bytes2(ch);
    } else if ch < 0x10000 {
      Bytes3(ch);
    } else {
      Bytes4(ch);
    }
  }

  lemma {:induction false} Strict8to16(s: seq<UTF8>)
    requires s != []
    ensures Step8to16(s, StrictConversion) == StepVia(Next8(s), Encode16)
  {
    hide IsLegalUTF8, LooseLength, ValueOf, High, Low, Cast16, Encode16;
    LegalIsLoose(s);
    if LooseLength(s) > 0 {
      LooseIsScalar(s);
      Put16Encodes(ValueOf(s, LooseLength(s)), LooseLength(s));
    }
  }

  lemma {:induction false} Strict8to32(s: seq<UTF8>)
    requires s != []
    ensures Step8to32(s, StrictConversion) == StepVia(Next8(s), Encode32)
  {
    hide IsLegalUTF8, LooseLength, ValueOf;
    LegalIsLoose(s);
    if LooseLength(s) > 0 {
      LooseIsScalar(s);
    }
  }

  lemma {:induction false} Strict16to32(s: seq<UTF16>)
    requires s != []
    ensures Step16to32(s, StrictConversion) == StepVia(Next16(s, StrictConversion), Encode32)
  {
  }

  /** Strict conversion from UTF-16 sees a character just where the syntax has one. */
  lemma {:induction false} Next16IsUnit(s: seq<UTF16>)
    requires s != []
    ensures var n := Next16(s, StrictConversion);
      && (n.Char? <==> UnitLength(s) > 0)
      && (n.Char? ==> n == Char(Decode16(s), UnitLength(s)) && IsScalar(n.ch))
  {
    hide PairValue, JoinUnits, HighSurrogate, LowSurrogate;
    HighIsNotLow(s[0]);
    if |s| >= 2 && HighSurrogate(s[0]) && LowSurrogate(s[1]) {
      PairIsJoin(s[0], s[1]);
      SplitJoinUnits(s[0], s[1]);
    } else if !HighSurrogate(s[0]) && !LowSurrogate(s[0]) {
      SplitJoinUnit(s[0]);
    }
  }

  lemma {:induction false} Strict16to8(s: seq<UTF16>)
    requires s != []
    ensures Step16to8(s, StrictConversion) == StepVia(Next16(s, StrictConversion), Encode8)
  {
    hide Next16, BytesToWrite, Bytes, Encode8;
    Next16IsUnit(s);
    var n := Next16(s, StrictConversion);
    if n.Char? {
      BytesEncode(n.ch);
      BytesLength(n.ch);
    }
  }

  lemma {:induction false} BytesLength(ch: UTF32)
    ensures |Bytes(ch, BytesToWrite(ch))| == BytesToWrite(ch)
  {
  }

  lemma {:induction false} Strict32to16(s: seq<UTF32>)
    requires s != [] && IsScalar(s[0])
    ensures Step32to16(s, StrictConversion) == StepVia(Char(s[0], 1), Encode16)
  {
    hide High, Low, Cast16, Encode16;
    Put16Encodes(s[0], 1);
  }

  lemma {:induction false} Strict32to8(s: seq<UTF32>)
    requires s != [] && IsScalar(s[0])
    ensures Step32to8(s, StrictConversion) == StepVia(Char(s[0], 1), Encode8)
  {
    hide BytesToWrite, Bytes, Encode8;
    BytesEncode(s[0]);
    BytesLength(s[0]);
  }
}
