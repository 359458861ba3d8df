/**
 Lenient conversions.  From UTF-8 they are the strict ones; from UTF-16 they lose nothing, taking units
 that are not paired for values of their own; from UTF-32 they replace what has no encoding.
 */
module UtfLenient {
  import opened UtfReference
  import opened ConversionRun
  import opened UtfSteps
  import opened UtfStrict
  import opened UtfTheorems
  import opened UtfConverters

  // ----- from UTF-8

  lemma {:induction false} LenientStep8(s: seq<UTF8>)
    requires s != []
    ensures Step8to16(s, LenientConversion) == Step8to16(s, StrictConversion)
    ensures Step8to32(s, LenientConversion) == Step8to32(s, StrictConversion)
  {
    hide IsLegalUTF8, LooseLength, ValueOf, High, Low, Cast16;
    LegalIsLoose(s);
    if LooseLength(s) > 0 {
      LooseIsScalar(s);
    }
  }

  lemma {:induction false} SameRuns<S(!new), T>(a: seq<S> -> Step<T>, b: seq<S> -> Step<T>, src: seq<S>, room: nat,
      result: ConversionResult)
    requires Sound(a) && Sound(b) && forall s: seq<S> :: s != [] ==> a(s) == b(s)
    ensures Run(a, src, room, result) == Run(b, src, room, result)
    decreases |src|
  {
    hide After;
    if src != [] && a(src).Put? && a(src).need <= room {
      var now := a(src);
      SameRuns(a, b, src[now.used..], room - |now.out|, if now.bad then SourceIllegal else result);
    }
  }

  /** Nothing that is read from UTF-8 is a surrogate or too great, so lenient conversion is strict. */
  lemma {:induction false} LenientFrom8IsStrict(s: seq<UTF8>, room: nat)
    ensures Sound(From8to16(LenientConversion)) && Sound(From8to16(StrictConversion))
    ensures Run(From8to16(LenientConversion), s, room, ConversionOK)
         == Run(From8to16(StrictConversion), s, room, ConversionOK)
  {
    hide Step8to16, Run, Sound;
    Sound8to16(LenientConversion);
    Sound8to16(StrictConversion);
    forall s: seq<UTF8> | s != []
      ensures From8to16(LenientConversion)(s) == From8to16(StrictConversion)(s)
    {
      LenientStep8(s);
    }
    SameRuns(From8to16(LenientConversion), From8to16(StrictConversion), s, room, ConversionOK);
  }

  lemma {:induction false} LenientFrom8To32IsStrict(s: seq<UTF8>, room: nat)
    ensures Sound(From8to32(LenientConversion)) && Sound(From8to32(StrictConversion))
    ensures Run(From8to32(LenientConversion), s, room, ConversionOK)
         == Run(From8to32(StrictConversion), s, room, ConversionOK)
  {
    hide Step8to32, Run, Sound;
    Sound8to32(LenientConversion);
    Sound8to32(StrictConversion);
    forall s: seq<UTF8> | s != []
      ensures From8to32(LenientConversion)(s) == From8to32(StrictConversion)(s)
    {
      LenientStep8(s);
    }
    SameRuns(From8to32(LenientConversion), From8to32(StrictConversion), s, room, ConversionOK);
  }

  // ----- from UTF-16

  lemma {:induction false} LoneUnit(u: UTF16)
    ensures Encode16(u as bv32) == [u] && u as bv32 <= 0x10FFFF
  {
  }

  lemma {:induction false} PairEncodes(u: UTF16, v: UTF16)
    requires HighSurrogate(u) && LowSurrogate(v)
    ensures Encode16(JoinUnits(u, v)) == [u, v] && 0x10000 <= JoinUnits(u, v) <= 0x10FFFF
  {
    SplitJoinUnits(u, v);
    EncodeUnits(u, v);
  }

  lemma {:induction false} LenientNextIs(s: seq<UTF16>)
    requires s != []
    ensures Next16(s, LenientConversion)
         == if !HighSurrogate(s[0]) then Char(s[0] as bv32, 1)
            else if |s| == 1 then Stop(SourceExhausted)
            else if LowSurrogate(s[1]) then Char(PairValue(s[0], s[1]), 2)
            else Char(s[0] as bv32, 1)
  {
    hide PairValue, HighSurrogate, LowSurrogate;
  }

  /** What is taken off the source has just these units; only a high surrogate at the end is not taken. */
  lemma {:induction false} LenientNext16(s: seq<UTF16>)
    requires s != []
    ensures var n := Next16(s, LenientConversion);
      if n.Char? then n.used <= |s| && Encode16(n.ch) == s[..n.used] && n.ch <= 0x10FFFF
      else |s| == 1 && HighSurrogate(s[0]) && n.why == SourceExhausted
  {
    hide PairValue, JoinUnits, Encode16, HighSurrogate, LowSurrogate, Next16;
    LenientNextIs(s);
    LoneUnit(s[0]);
    assert s[..1] == [s[0]];
    if |s| >= 2 && HighSurrogate(s[0]) && LowSurrogate(s[1]) {
      PairIsJoin(s[0], s[1]);
      PairEncodes(s[0], s[1]);
      assert s[..2] == [s[0], s[1]];
    }
  }

  lemma {:induction false} LenientStep16(s: seq<UTF16>)
    requires s != []
    ensures Step16to32(s, LenientConversion) == StepVia(Next16(s, LenientConversion), Encode32)
    ensures Step16to8(s, LenientConversion) == StepVia(Next16(s, LenientConversion), Encode8)
  {
    hide Next16, Bytes, BytesToWrite, Encode8;
    LenientNext16(s);
    var n := Next16(s, LenientConversion);
    if n.Char? {
      BytesEncode(n.ch);
    }
  }

  function LenientReader16(): seq<UTF16> -> Next {
    (s: seq<UTF16>) => if s == [] then Stop(SourceExhausted) else Next16(s, LenientConversion)
  }

  /** Both conversions encode the same values. */
  lemma {:induction false} LenientTotal16to32(s: seq<UTF16>)
    ensures Sound(From16to32(LenientConversion)) && Reads(LenientReader16())
    ensures var d := DecodeAll(LenientReader16(), s);
      Total(From16to32(LenientConversion), s, ConversionOK) == Outcome(d.used, d.chars, d.why)
  {
    hide Step16to32, Next16, StepVia, Encode32, Total, DecodeAll, EncodeAll;
    forall s: seq<UTF16> | s != []
      ensures From16to32(LenientConversion)(s) == StepVia(LenientReader16()(s), Encode32)
    {
      LenientStep16(s);
    }
    TotalIsEncode(From16to32(LenientConversion), LenientReader16(), Encode32, s);
    AllSingle(DecodeAll(LenientReader16(), s).chars);
  }

  lemma {:induction false} LenientTotal16to8(s: seq<UTF16>)
    ensures Sound(From16to8(LenientConversion)) && Reads(LenientReader16())
    ensures var d := DecodeAll(LenientReader16(), s);
      Total(From16to8(LenientConversion), s, ConversionOK) == Outcome(d.used, EncodeAll(Encode8, d.chars), d.why)
  {
    hide Step16to8, Next16, StepVia, Encode8, Total, DecodeAll, EncodeAll;
    forall s: seq<UTF16> | s != []
      ensures From16to8(LenientConversion)(s) == StepVia(LenientReader16()(s), Encode8)
    {
      LenientStep16(s);
    }
    TotalIsEncode(From16to8(LenientConversion), LenientReader16(), Encode8, s);
  }

  lemma {:induction false} AllSingle(cs: seq<UTF32>)
    ensures EncodeAll(Encode32, cs) == cs
  {
    if cs != [] {
      AllSingle(cs[1..]);
    }
  }

  /**
   Every text of UTF-16 is decoded, but for a high surrogate at its end, and the units of what comes out
   are those that went in.
   */
  lemma {:induction false} LenientFrom16LosesNothing(s: seq<UTF16>)
    ensures Reads(LenientReader16())
    ensures var d := DecodeAll(LenientReader16(), s);
      var cut := s != [] && HighSurrogate(s[|s| - 1]);
      && d.used == (if cut then |s| - 1 else |s|) && d.why == (if cut then SourceExhausted else ConversionOK)
      && EncodeAll(Encode16, d.chars) == s[..d.used]
    decreases |s|
  {
    ReaderReads();
    hide Next16, Encode16, HighSurrogate, Reads, DecodeAll;
    DecodeFirst(s);
    if s != [] {
      LenientNext16(s);
      var n := Next16(s, LenientConversion);
      if n.Char? {
        LenientFrom16LosesNothing(s[n.used..]);
        var d := DecodeAll(LenientReader16(), s[n.used..]);
        assert ([n.ch] + d.chars)[1..] == d.chars;
        assert s[..n.used] + s[n.used..][..d.used] == s[..n.used + d.used];
        LastUnit(s, n.used);
      }
    }
  }

  lemma {:induction false} DecodeFirst(s: seq<UTF16>)
    ensures Reads(LenientReader16())
    ensures s == [] ==> DecodeAll(LenientReader16(), s) == Decoded([], 0, ConversionOK)
    ensures s != [] ==>
      (var n := Next16(s, LenientConversion);
       if n.Char? then
         var d := DecodeAll(LenientReader16(), s[n.used..]);
         DecodeAll(LenientReader16(), s) == Decoded([n.ch] + d.chars, n.used + d.used, d.why)
       else DecodeAll(LenientReader16(), s) == Decoded([], 0, n.why))
  {
    hide Next16;
  }

  lemma {:induction false} ReaderReads()
    ensures Reads(LenientReader16())
  {
    hide Next16;
  }

  /** A last unit that is a high surrogate is left, so it is not part of what was taken. */
  lemma {:induction false} LastUnit(s: seq<UTF16>, used: nat)
    requires s != [] && Next16(s, LenientConversion).Char? && used == Next16(s, LenientConversion).used
    ensures used <= |s| && (used < |s| ==> s[used..][|s| - used - 1] == s[|s| - 1])
    ensures used == |s| ==> !HighSurrogate(s[|s| - 1])
  {
    hide PairValue;
  }

  // ----- from UTF-32

  function Changed(change: UTF32 -> UTF32, cs: seq<UTF32>): seq<UTF32> {
    seq(|cs|, i requires 0 <= i < |cs| => change(cs[i]))
  }

  predicate Any(bad: UTF32 -> bool, cs: seq<UTF32>) { cs != [] && (bad(cs[0]) || Any(bad, cs[1..])) }

  /** One value after the other is changed and encoded; a bad one spoils the result. */
  lemma {:induction false} OneByOne<T>(step: seq<UTF32> -> Step<T>, encode: UTF32 -> seq<T>,
      change: UTF32 -> UTF32, bad: UTF32 -> bool, cs: seq<UTF32>, result: ConversionResult)
    requires Sound(step) && forall s: seq<UTF32> :: s != [] ==>
      step(s) == Put(|encode(change(s[0]))|, 1, encode(change(s[0])), bad(s[0]))
    ensures Total(step, cs, result)
         == Outcome(|cs|, EncodeAll(encode, Changed(change, cs)), if Any(bad, cs) then SourceIllegal else result)
    decreases |cs|
  {
    if cs != [] {
      OneByOne(step, encode, change, bad, cs[1..], if bad(cs[0]) then SourceIllegal else result);
      assert Changed(change, cs)[1..] == Changed(change, cs[1..]);
    }
  }

  /** What has no encoding in UTF-16 becomes the replacement character. */
  function Replaced(ch: UTF32): UTF32 { if IsScalar(ch) then ch else REPLACEMENT }

  lemma {:induction false} LenientStep32(s: seq<UTF32>)
    requires s != []
    ensures var ch := Replaced(s[0]);
      Step32to16(s, LenientConversion) == Put(|Encode16(ch)|, 1, Encode16(ch), false)
  {
    hide Cast16, Low16, High, Low, HighUnit, LowUnit, Encode16;
    if s[0] <= 0x10FFFF {
      Put16Encodes(s[0], 1);
    }
    Put16Encodes(REPLACEMENT, 1);
  }

  predicate Never(ch: UTF32) { false }

  lemma {:induction false} NeverAny(cs: seq<UTF32>)
    ensures !Any(Never, cs)
  {
    if cs != [] {
      NeverAny(cs[1..]);
    }
  }

  /** Every value is converted to UTF-16. */
  lemma {:induction false} LenientFrom32(cs: seq<UTF32>)
    ensures Sound(From32to16(LenientConversion))
    ensures Total(From32to16(LenientConversion), cs, ConversionOK)
         == Outcome(|cs|, EncodeAll(Encode16, Changed(Replaced, cs)), ConversionOK)
  {
    hide Step32to16, Encode16, Replaced, Total, Sound, EncodeAll;
    Sound32to16(LenientConversion);
    forall s: seq<UTF32> | s != []
      ensures From32to16(LenientConversion)(s)
           == Put(|Encode16(Replaced(s[0]))|, 1, Encode16(Replaced(s[0])), Never(s[0]))
    {
      LenientStep32(s);
    }
    OneByOne(From32to16(LenientConversion), Encode16, Replaced, Never, cs, ConversionOK);
    NeverAny(cs);
  }

  predicate IsTooGreat(ch: UTF32) { ch > 0x10FFFF }

  function Bounded(ch: UTF32): UTF32 { if IsTooGreat(ch) then REPLACEMENT else ch }

  lemma {:induction false} LenientStep32To8(s: seq<UTF32>)
    requires s != []
    ensures var ch := Bounded(s[0]);
      Step32to8(s, LenientConversion) == Put(|Encode8(ch)|, 1, Encode8(ch), IsTooGreat(s[0]))
  {
    hide Bytes, Encode8;
    if s[0] <= 0x10FFFF {
      BytesEncode(s[0]);
    } else {
      BytesEncode(REPLACEMENT);
    }
  }

  /** To UTF-8 only what is too great is replaced, and it spoils the result. */
  lemma {:induction false} LenientFrom32To8(cs: seq<UTF32>)
    ensures Sound(From32to8(LenientConversion))
    ensures Total(From32to8(LenientConversion), cs, ConversionOK)
         == Outcome(|cs|, EncodeAll(Encode8, Changed(Bounded, cs)),
                    if exists c <- cs :: IsTooGreat(c) then SourceIllegal else ConversionOK)
  {
    hide Step32to8, Encode8, Bounded, IsTooGreat, Total, Sound, EncodeAll;
    Sound32to8(LenientConversion);
    forall s: seq<UTF32> | s != []
      ensures From32to8(LenientConversion)(s)
           == Put(|Encode8(Bounded(s[0]))|, 1, Encode8(Bounded(s[0])), IsTooGreat(s[0]))
    {
      LenientStep32To8(s);
    }
    OneByOne(From32to8(LenientConversion), Encode8, Bounded, IsTooGreat, cs, ConversionOK);
    AnyTooGreat(cs);
  }

  lemma {:induction false} AnyTooGreat(cs: seq<UTF32>)
    ensures Any(IsTooGreat, cs) <==> exists c <- cs :: IsTooGreat(c)
  {
    hide IsTooGreat;
    if cs != [] {
      AnyTooGreat(cs[1..]);
      assert cs == [cs[0]] + cs[1..];
    }
  }
}
