/**
 Whole texts: what the strict converters accept, that they keep the text's meaning, that they undo
 each other, and that going through UTF-32 makes no difference.
 */
module UtfTheorems {
  import opened UtfReference
  import opened ConversionRun
  import opened UtfSteps
  import opened UtfStrict

  // ----- the six converters as step functions on sources

  function From8to16(flags: ConversionFlags): seq<UTF8> -> Step<UTF16> {
    (s: seq<UTF8>) => if s == [] then Halt(0, SourceExhausted) else Step8to16(s, flags)
  }

  function From8to32(flags: ConversionFlags): seq<UTF8> -> Step<UTF32> {
    (s: seq<UTF8>) => if s == [] then Halt(0, SourceExhausted) else Step8to32(s, flags)
  }

  function From16to8(flags: ConversionFlags): seq<UTF16> -> Step<UTF8> {
    (s: seq<UTF16>) => if s == [] then Halt(0, SourceExhausted) else Step16to8(s, flags)
  }

  function From16to32(flags: ConversionFlags): seq<UTF16> -> Step<UTF32> {
    (s: seq<UTF16>) => if s == [] then Halt(0, SourceExhausted) else Step16to32(s, flags)
  }

  function From32to8(flags: ConversionFlags): seq<UTF32> -> Step<UTF8> {
    (s: seq<UTF32>) => if s == [] then Halt(0, SourceExhausted) else Step32to8(s, flags)
  }

  function From32to16(flags: ConversionFlags): seq<UTF32> -> Step<UTF16> {
    (s: seq<UTF32>) => if s == [] then Halt(0, SourceExhausted) else Step32to16(s, flags)
  }

  // ----- decoding a whole source

  datatype Decoded = Decoded(chars: seq<UTF32>, used: nat, why: ConversionResult)

  ghost predicate Reads<S(!new)>(next: seq<S> -> Next) {
    forall s: seq<S> :: s != [] && next(s).Char? ==> 1 <= next(s).used <= |s|
  }

  ghost function DecodeAll<S(!new)>(next: seq<S> -> Next, s: seq<S>): Decoded
    requires Reads(next)
    decreases |s|
  {
    if s == [] then Decoded([], 0, ConversionOK)
    else match next(s)
      case Stop(why) => Decoded([], 0, why)
      case Char(ch, used) =>
        var rest := DecodeAll(next, s[used..]);
        Decoded([ch] + rest.chars, used + rest.used, rest.why)
  }

  function Reader8(): seq<UTF8> -> Next {
    (s: seq<UTF8>) => if s == [] then Stop(SourceExhausted) else Next8(s)
  }

  function Reader16(): seq<UTF16> -> Next {
    (s: seq<UTF16>) => if s == [] then Stop(SourceExhausted) else Next16(s, StrictConversion)
  }

  /** A converter whose steps decode and encode converts a text by decoding and encoding all of it. */
  lemma {:induction false} TotalIsEncode<S(!new), T>(step: seq<S> -> Step<T>, next: seq<S> -> Next,
        encode: UTF32 -> seq<T>, s: seq<S>)
    requires Sound(step) && Reads(next)
    requires forall s: seq<S> :: s != [] ==> step(s) == StepVia(next(s), encode)
    ensures var d := DecodeAll(next, s);
      Total(step, s, ConversionOK) == Outcome(d.used, EncodeAll(encode, d.chars), d.why)
    decreases |s|
  {
    if s != [] && next(s).Char? {
      TotalIsEncode(step, next, encode, s[next(s).used..]);
    }
  }

  // each strict converter decodes the whole source and encodes it again

  lemma {:induction false} Total8to16(s: seq<UTF8>)
    ensures Sound(From8to16(StrictConversion)) && Reads(Reader8())
    ensures var d := DecodeAll(Reader8(), s);
      Total(From8to16(StrictConversion), s, ConversionOK) == Outcome(d.used, EncodeAll(Encode16, d.chars), d.why)
  {
    hide Step8to16, Next8, StepVia, Encode16, Total, DecodeAll;
    forall s: seq<UTF8> | s != []
      ensures From8to16(StrictConversion)(s) == StepVia(Reader8()(s), Encode16)
    {
      Strict8to16(s);
    }
    TotalIsEncode(From8to16(StrictConversion), Reader8(), Encode16, s);
  }

  lemma {:induction false} Total8to32(s: seq<UTF8>)
    ensures Sound(From8to32(StrictConversion)) && Reads(Reader8())
    ensures var d := DecodeAll(Reader8(), s);
      Total(From8to32(StrictConversion), s, ConversionOK) == Outcome(d.used, EncodeAll(Encode32, d.chars), d.why)
  {
    hide Step8to32, Next8, StepVia, Encode32, Total, DecodeAll;
    forall s: seq<UTF8> | s != []
      ensures From8to32(StrictConversion)(s) == StepVia(Reader8()(s), Encode32)
    {
      Strict8to32(s);
    }
    TotalIsEncode(From8to32(StrictConversion), Reader8(), Encode32, s);
  }

  lemma {:induction false} Total16to8(s: seq<UTF16>)
    ensures Sound(From16to8(StrictConversion)) && Reads(Reader16())
    ensures var d := DecodeAll(Reader16(), s);
      Total(From16to8(StrictConversion), s, ConversionOK) == Outcome(d.used, EncodeAll(Encode8, d.chars), d.why)
  {
    hide Step16to8, Next16, StepVia, Encode8, Total, DecodeAll;
    forall s: seq<UTF16> | s != []
      ensures From16to8(StrictConversion)(s) == StepVia(Reader16()(s), Encode8)
    {
      Strict16to8(s);
    }
    TotalIsEncode(From16to8(StrictConversion), Reader16(), Encode8, s);
  }

  lemma {:induction false} Total16to32(s: seq<UTF16>)
    ensures Sound(From16to32(StrictConversion)) && Reads(Reader16())
    ensures var d := DecodeAll(Reader16(), s);
      Total(From16to32(StrictConversion), s, ConversionOK) == Outcome(d.used, EncodeAll(Encode32, d.chars), d.why)
  {
    hide Step16to32, Next16, StepVia, Encode32, Total, DecodeAll;
    forall s: seq<UTF16> | s != []
      ensures From16to32(StrictConversion)(s) == StepVia(Reader16()(s), Encode32)
    {
      Strict16to32(s);
    }
    TotalIsEncode(From16to32(StrictConversion), Reader16(), Encode32, s);
  }

  lemma {:induction false} Total32to8(cs: seq<UTF32>)
    requires AllScalars(cs)
    ensures Sound(From32to8(StrictConversion))
    ensures Total(From32to8(StrictConversion), cs, ConversionOK) == Outcome(|cs|, EncodeAll(Encode8, cs), ConversionOK)
  {
    hide Step32to8, Encode8, IsScalar;
    if cs != [] {
      Strict32to8(cs);
      Total32to8(cs[1..]);
    }
  }

  lemma {:induction false} Total32to16(cs: seq<UTF32>)
    requires AllScalars(cs)
    ensures Sound(From32to16(StrictConversion))
    ensures Total(From32to16(StrictConversion), cs, ConversionOK)
         == Outcome(|cs|, EncodeAll(Encode16, cs), ConversionOK)
  {
    hide Step32to16, Encode16, IsScalar;
    if cs != [] {
      Strict32to16(cs);
      Total32to16(cs[1..]);
    }
  }

  // ----- what is accepted

  /** A sequence of the characters that the converters see in UTF-8. */
  predicate Loose8(s: seq<UTF8>) {
    s == [] || (LooseLength(s) > 0 && Loose8(s[LooseLength(s)..]))
  }

  /** Nowhere is a byte 0xED or 0xF4 followed by a byte below 0x80. */
  predicate NoShortSecond(s: seq<UTF8>) {
    forall i :: 0 <= i < |s| - 1 ==> !ShortSecond(s[i], s[i + 1])
  }

  ghost function Decode8All(s: seq<UTF8>): (d: Decoded)
    ensures Reads(Reader8()) && d == DecodeAll(Reader8(), s)
    ensures s == [] ==> d == Decoded([], 0, ConversionOK)
    ensures s != [] && LooseLength(s) == 0 ==> d.chars == [] && d.used == 0 && d.why != ConversionOK
    ensures s != [] && LooseLength(s) > 0 ==>
              var rest := DecodeAll(Reader8(), s[LooseLength(s)..]);
              d == Decoded([ValueOf(s, LooseLength(s))] + rest.chars, LooseLength(s) + rest.used, rest.why)
  {
    hide LooseLength, ValueOf;
    DecodeAll(Reader8(), s)
  }

  lemma {:induction false} Decoded8(s: seq<UTF8>)
    ensures var d := Decode8All(s);
      && d.used <= |s| && AllScalars(d.chars)
      && (d.why == ConversionOK <==> Loose8(s))
      && (d.why == ConversionOK ==> d.used == |s|)
    decreases |s|
  {
    hide IsScalar, LooseLength, ValueOf, DecodeAll;
    if s != [] && LooseLength(s) > 0 {
      LooseIsScalar(s);
      Decoded8(s[LooseLength(s)..]);
    }
  }

  lemma {:induction false} TailIsNoLead(b: UTF8)
    ensures Tail(b) || b <= 0x7F ==> b != 0xED && b != 0xF4
  {
  }

  lemma {:induction false} StartIsNotShort(a: UTF8, b: UTF8)
    ensures Start3(a, b) || Start4(a, b) || a <= 0xDF ==> !ShortSecond(a, b)
  {
  }

  /** No pair starting inside a character of the syntax has a short second byte. */
  lemma {:induction false} CharHasNoShortSecond(s: seq<UTF8>, i: nat)
    requires i < CharLength(s) && i < |s| - 1
    ensures !ShortSecond(s[i], s[i + 1])
  {
    hide Start3, Start4, Tail;
    if i == 0 {
      StartIsNotShort(s[0], s[1]);
      LeadIsSmall(s[0]);
    } else {
      SecondIsTail(s[0], s[1]);
      TailIsNoLead(s[i]);
    }
  }

  lemma {:induction false} SecondIsTail(a: UTF8, b: UTF8)
    ensures Start3(a, b) || Start4(a, b) ==> Tail(b)
  {
  }

  lemma {:induction false} LeadIsSmall(a: UTF8)
    ensures a <= 0x7F || 0xC2 <= a <= 0xDF ==> a <= 0xDF
  {
  }

  lemma {:induction false} LooseIsCharOrShort(s: seq<UTF8>)
    requires LooseLength(s) > 0
    ensures if CharLength(s) > 0 then LooseLength(s) == CharLength(s) else |s| >= 2 && ShortSecond(s[0], s[1])
  {
    hide Start3, Start4, Tail, ShortSecond;
    if OneByte(s) || TwoBytes(s) || ThreeBytes(s) || FourBytes(s) {
      LooseBeforeFour(s);
    }
  }

  /** A four-byte character does not begin with the bytes of a three-byte one. */
  lemma {:induction false} LooseBeforeFour(s: seq<UTF8>)
    ensures FourBytes(s) ==> !LooseThree(s)
  {
  }

  /**
   Section 4 of RFC 3629 against the converters: they accept every well-formed text, and of the others
   just those that are well-formed but for second bytes below 0x80 after 0xED or 0xF4.
   */
  lemma {:induction false} WellFormedIsLoose(s: seq<UTF8>)
    ensures WellFormed8(s) <==> Loose8(s) && NoShortSecond(s)
    decreases |s|
  {
    hide CharLength, LooseLength, ShortSecond;
    if s != [] {
      LooseHasChar(s);
      if LooseLength(s) > 0 {
        LooseIsCharOrShort(s);
        var n := LooseLength(s);
        WellFormedIsLoose(s[n..]);
        if CharLength(s) > 0 {
          NoShortSecondSplit(s, n);
        }
      }
    }
  }

  lemma {:induction false} LooseHasChar(s: seq<UTF8>)
    ensures CharLength(s) > 0 ==> LooseLength(s) > 0
  {
    hide Start3, Start4, Tail;
  }

  lemma {:induction false} NoShortSecondSplit(s: seq<UTF8>, n: nat)
    requires n <= |s| && n == CharLength(s)
    ensures NoShortSecond(s) <==> NoShortSecond(s[n..])
  {
    hide CharLength, ShortSecond;
    forall i | 0 <= i < n && i < |s| - 1
      ensures !ShortSecond(s[i], s[i + 1])
    {
      CharHasNoShortSecond(s, i);
    }
    if NoShortSecond(s[n..]) {
      forall i | n <= i < |s| - 1
        ensures !ShortSecond(s[i], s[i + 1])
      {
        assert s[n..][i - n] == s[i] && s[n..][i - n + 1] == s[i + 1];
      }
    }
  }

  // ----- the meaning of what is accepted

  /** A well-formed text is the encoding of the characters decoded from it. */
  lemma {:induction false} WellFormed8Decodes(s: seq<UTF8>)
    requires WellFormed8(s)
    ensures var d := Decode8All(s);
      d.why == ConversionOK && d.used == |s| && AllScalars(d.chars) && EncodeAll(Encode8, d.chars) == s
    decreases |s|
  {
    hide CharLength, LooseLength, ValueOf, IsScalar, Encode8, Decode8, DecodeAll;
    Decoded8(s);
    if s != [] {
      var n := CharLength(s);
      LooseHasChar(s);
      LooseIsScalar(s);
      Encode8Decode8(s);
      WellFormed8Decodes(s[n..]);
      assert s == s[..n] + s[n..];
    }
  }

  /** The encoding of scalar values is well-formed, and decodes to them. */
  lemma {:induction false} Encoding8Decodes(cs: seq<UTF32>)
    requires AllScalars(cs)
    ensures var s := EncodeAll(Encode8, cs);
      WellFormed8(s) && Decode8All(s) == Decoded(cs, |s|, ConversionOK)
    decreases |cs|
  {
    hide CharLength, LooseLength, ValueOf, IsScalar, Encode8, Decode8, DecodeAll;
    var s := EncodeAll(Encode8, cs);
    if cs != [] {
      var rest := EncodeAll(Encode8, cs[1..]);
      assert s == Encode8(cs[0]) + rest;
      Decode8Encode8(cs[0], rest);
      LooseHasChar(s);
      LooseIsScalar(s);
      assert s[|Encode8(cs[0])|..] == rest;
      Encoding8Decodes(cs[1..]);
    }
  }

  ghost function Decode16All(s: seq<UTF16>): (d: Decoded)
    ensures Reads(Reader16()) && d == DecodeAll(Reader16(), s)
    ensures s == [] ==> d == Decoded([], 0, ConversionOK)
    ensures s != [] && Next16(s, StrictConversion).Stop? ==> d == Decoded([], 0, Next16(s, StrictConversion).why)
    ensures s != [] && Next16(s, StrictConversion).Char? ==>
              var n := Next16(s, StrictConversion);
              var rest := DecodeAll(Reader16(), s[n.used..]);
              d == Decoded([n.ch] + rest.chars, n.used + rest.used, rest.why)
  {
    hide Next16;
    DecodeAll(Reader16(), s)
  }

  lemma {:induction false} Next16Stops(s: seq<UTF16>)
    requires s != []
    ensures Next16(s, StrictConversion).Stop? ==> Next16(s, StrictConversion).why != ConversionOK
  {
  }

  /** From UTF-16 just the well-formed texts are accepted. */
  lemma {:induction false} Decoded16(s: seq<UTF16>)
    ensures var d := Decode16All(s);
      && d.used <= |s| && AllScalars(d.chars)
      && (d.why == ConversionOK <==> WellFormed16(s))
      && (d.why == ConversionOK ==> d.used == |s| && EncodeAll(Encode16, d.chars) == s)
    decreases |s|
  {
    hide IsScalar, UnitLength, Next16, Decode16, Encode16, DecodeAll;
    if s != [] {
      Next16IsUnit(s);
      Next16Stops(s);
      var n := UnitLength(s);
      if n > 0 {
        Encode16Decode16(s);
        Decoded16(s[n..]);
        assert s == s[..n] + s[n..];
      }
    }
  }

  lemma {:induction false} Encoding16Decodes(cs: seq<UTF32>)
    requires AllScalars(cs)
    ensures var s := EncodeAll(Encode16, cs);
      WellFormed16(s) && Decode16All(s) == Decoded(cs, |s|, ConversionOK)
    decreases |cs|
  {
    hide UnitLength, IsScalar, Next16, Encode16, Decode16, DecodeAll;
    var s := EncodeAll(Encode16, cs);
    if cs != [] {
      var rest := EncodeAll(Encode16, cs[1..]);
      assert s == Encode16(cs[0]) + rest;
      Decode16Encode16(cs[0], rest);
      Next16IsUnit(s);
      assert s[|Encode16(cs[0])|..] == rest;
      Encoding16Decodes(cs[1..]);
    }
  }
}
