/**
 The promises of the strict conversions, for all texts: which are accepted, that conversions undo
 each other, that the way through UTF-32 makes no difference, and that a conversion may be
 interrupted by a full target at any time.
 */
module UtfConversions {
  import opened UtfReference
  import opened ConversionRun
  import opened UtfSteps
  import opened UtfStrict
  import opened UtfTheorems

  // ----- the unbounded strict conversions

  ghost function Utf8To16(s: seq<UTF8>): (o: Outcome<UTF16>)
    ensures var d := Decode8All(s); o == Outcome(d.used, EncodeAll(Encode16, d.chars), d.why)
  {
    hide *;
    Total8to16(s);
    Total(From8to16(StrictConversion), s, ConversionOK)
  }

  ghost function Utf8To32(s: seq<UTF8>): (o: Outcome<UTF32>)
    ensures var d := Decode8All(s); o == Outcome(d.used, EncodeAll(Encode32, d.chars), d.why)
  {
    hide *;
    Total8to32(s);
    Total(From8to32(StrictConversion), s, ConversionOK)
  }

  ghost function Utf16To8(s: seq<UTF16>): (o: Outcome<UTF8>)
    ensures var d := Decode16All(s); o == Outcome(d.used, EncodeAll(Encode8, d.chars), d.why)
  {
    hide *;
    Total16to8(s);
    Total(From16to8(StrictConversion), s, ConversionOK)
  }

  ghost function Utf16To32(s: seq<UTF16>): (o: Outcome<UTF32>)
    ensures var d := Decode16All(s); o == Outcome(d.used, EncodeAll(Encode32, d.chars), d.why)
  {
    hide *;
    Total16to32(s);
    Total(From16to32(StrictConversion), s, ConversionOK)
  }

  lemma {:induction false} EncodeAll32(cs: seq<UTF32>)
    ensures EncodeAll(Encode32, cs) == cs
  {
    if cs != [] {
      EncodeAll32(cs[1..]);
    }
  }

  /**
   What conversion from UTF-8 accepts.  It accepts more than section 4 of RFC 3629 allows: a text is
   well-formed iff it is accepted and no byte 0xED or 0xF4 in it is followed by a byte below 0x80.
   */
  lemma {:induction false} AcceptedUtf8(s: seq<UTF8>)
    ensures Utf8To16(s).result == ConversionOK <==> Loose8(s)
    ensures Utf8To32(s).result == ConversionOK <==> Loose8(s)
    ensures WellFormed8(s) <==> Utf8To16(s).result == ConversionOK && NoShortSecond(s)
  {
    hide *;
    Decoded8(s);
    WellFormedIsLoose(s);
  }

  /** ED 20 80 is no UTF-8, but is accepted, and read as U+B800. */
  lemma {:induction false} AcceptedButMalformed()
    ensures var s: seq<UTF8> := [0xED, 0x20, 0x80];
      !WellFormed8(s) && Utf8To32(s) == Outcome(3, [0xB800], ConversionOK)
  {
    var s: seq<UTF8> := [0xED, 0x20, 0x80];
    assert LooseLength(s) == 3 && s[3..] == [];
    assert ValueOf(s, 3) == 0xB800;
    var d := Decode8All(s);
    assert d == Decoded([0xB800], 3, ConversionOK);
    EncodeAll32(d.chars);
  }

  /** From UTF-16 exactly the well-formed texts are accepted (section 2.2 of RFC 2781). */
  lemma {:induction false} AcceptedUtf16(s: seq<UTF16>)
    ensures Utf16To8(s).result == ConversionOK <==> WellFormed16(s)
    ensures Utf16To32(s).result == ConversionOK <==> WellFormed16(s)
  {
    hide *;
    Decoded16(s);
  }

  function Text8(cs: seq<UTF32>): seq<UTF8> {
    EncodeAll(Encode8, cs)
  }

  function Text16(cs: seq<UTF32>): seq<UTF16> {
    EncodeAll(Encode16, cs)
  }

  lemma {:induction false} Text8Is(cs: seq<UTF32>)
    ensures Text8(cs) == EncodeAll(Encode8, cs)
  {
  }

  lemma {:induction false} Text16Is(cs: seq<UTF32>)
    ensures Text16(cs) == EncodeAll(Encode16, cs)
  {
  }

  /** Every conversion of an encoded text gives the other encoding of the same characters. */
  lemma {:induction false} Keeps8to16(cs: seq<UTF32>)
    requires AllScalars(cs)
    ensures Utf8To16(Text8(cs)) == Outcome(|Text8(cs)|, Text16(cs), ConversionOK)
  {
    hide AllScalars, Encode8, Encode16, EncodeAll;
    Encoding8Decodes(cs);
  }

  lemma {:induction false} Keeps8to32(cs: seq<UTF32>)
    requires AllScalars(cs)
    ensures Utf8To32(Text8(cs)) == Outcome(|Text8(cs)|, cs, ConversionOK)
  {
    hide AllScalars, Encode8, Encode32, EncodeAll;
    Encoding8Decodes(cs);
    EncodeAll32(cs);
  }

  lemma {:induction false} Keeps16to8(cs: seq<UTF32>)
    requires AllScalars(cs)
    ensures Utf16To8(Text16(cs)) == Outcome(|Text16(cs)|, Text8(cs), ConversionOK)
  {
    hide AllScalars, Encode8, Encode16, EncodeAll;
    Encoding16Decodes(cs);
  }

  lemma {:induction false} Keeps16to32(cs: seq<UTF32>)
    requires AllScalars(cs)
    ensures Utf16To32(Text16(cs)) == Outcome(|Text16(cs)|, cs, ConversionOK)
  {
    hide AllScalars, Encode16, Encode32, EncodeAll;
    Encoding16Decodes(cs);
    EncodeAll32(cs);
  }

  /** There and back from UTF-8: whatever is accepted comes back unchanged iff it was well-formed. */
  lemma {:induction false} RoundTripUtf8(s: seq<UTF8>)
    requires Utf8To16(s).result == ConversionOK
    ensures Utf16To8(Utf8To16(s).out).result == ConversionOK
    ensures Utf16To8(Utf8To16(s).out).out == s <==> NoShortSecond(s)
  {
    hide *;
    AcceptedUtf8(s);
    Decoded8(s);
    var cs := Decode8All(s).chars;
    Text16Is(cs);
    Text8Is(cs);
    Keeps16to8(cs);
    Encoding8Decodes(cs);
    if NoShortSecond(s) {
      WellFormed8Decodes(s);
    }
  }

  /** There and back from UTF-16: every well-formed text comes back unchanged. */
  lemma {:induction false} RoundTripUtf16(s: seq<UTF16>)
    requires WellFormed16(s)
    ensures Utf16To8(s).used == |s| && Utf16To8(s).result == ConversionOK && WellFormed8(Utf16To8(s).out)
    ensures Utf8To16(Utf16To8(s).out) == Outcome(|Utf16To8(s).out|, s, ConversionOK)
  {
    Decoded16(s);
    hide AllScalars, Encode8, Encode16, EncodeAll, WellFormed8;
    var cs := Decode16All(s).chars;
    assert Utf16To8(s).out == Text8(cs) && s == Text16(cs);
    Keeps8to16(cs);
    Encoding8Decodes(cs);
  }

  /** Going from UTF-8 to UTF-16 through UTF-32 gives the same, also when the source is malformed. */
  lemma {:induction false} ThroughUtf32From8(s: seq<UTF8>)
    ensures var direct, first := Utf8To16(s), Utf8To32(s);
      && direct.used == first.used && direct.result == first.result
      && Sound(From32to16(StrictConversion))
      && Total(From32to16(StrictConversion), first.out, ConversionOK)
         == Outcome(|first.out|, direct.out, ConversionOK)
  {
    hide *;
    Decoded8(s);
    EncodeAll32(Decode8All(s).chars);
    Total32to16(Decode8All(s).chars);
  }

  lemma {:induction false} ThroughUtf32From16(s: seq<UTF16>)
    ensures var direct, first := Utf16To8(s), Utf16To32(s);
      && direct.used == first.used && direct.result == first.result
      && Sound(From32to8(StrictConversion))
      && Total(From32to8(StrictConversion), first.out, ConversionOK)
         == Outcome(|first.out|, direct.out, ConversionOK)
  {
    hide *;
    Decoded16(s);
    EncodeAll32(Decode16All(s).chars);
    Total32to8(Decode16All(s).chars);
  }

  // ----- interrupting a conversion: on every return the units written are the conversion of just the
  // source consumed, and any series of targets that suffices gives what one unbounded target would

  lemma {:induction false} Next8Local(s: seq<UTF8>, m: nat)
    requires s != [] && Next8(s).Char? && Next8(s).used <= m <= |s|
    ensures Next8(s[..m]) == Next8(s)
  {
    hide Start3, Start4, ShortSecond, Tail, Value2, Value3, Value4;
  }

  lemma {:induction false} Next16Local(s: seq<UTF16>, m: nat)
    requires s != [] && Next16(s, StrictConversion).Char? && Next16(s, StrictConversion).used <= m <= |s|
    ensures Next16(s[..m], StrictConversion) == Next16(s, StrictConversion)
  {
    hide HighSurrogate, LowSurrogate, PairValue;
  }

  lemma {:induction false} Regular8to16()
    ensures Sound(From8to16(StrictConversion)) && NeverBad(From8to16(StrictConversion))
    ensures HaltsForSource(From8to16(StrictConversion))
    ensures forall s: seq<UTF8> :: s != [] ==> From8to16(StrictConversion)(s).need <= 4
  {
    hide Step8to16, Next8, Encode16;
    forall s: seq<UTF8> | s != [] && Step8to16(s, StrictConversion).Put?
      ensures !Step8to16(s, StrictConversion).bad
    {
      Strict8to16(s);
    }
  }

  lemma {:induction false} Local8to16()
    ensures Local(From8to16(StrictConversion))
  {
    hide Step8to16, Next8, Encode16;
    forall s: seq<UTF8>, m: nat | s != [] && Step8to16(s, StrictConversion).Put?
        && Step8to16(s, StrictConversion).used <= m <= |s|
      ensures m > 0 && Step8to16(s[..m], StrictConversion) == Step8to16(s, StrictConversion)
    {
      Strict8to16(s);
      Next8Local(s, m);
      Strict8to16(s[..m]);
    }
  }

  /** `ConvertUTF8toUTF16` in strict mode, with room for that many units in the target. */
  ghost function Bounded8to16(s: seq<UTF8>, room: nat): (o: Outcome<UTF16>)
    ensures o.used <= |s| && |o.out| <= room
  {
    Regular8to16();
    RunBounds(From8to16(StrictConversion), s, room, ConversionOK);
    Run(From8to16(StrictConversion), s, room, ConversionOK)
  }

  /** The same into one target after the other, as long as the target is what stops it. */
  ghost function Series8to16(s: seq<UTF8>, rooms: seq<nat>): Outcome<UTF16> {
    Regular8to16();
    RunSeries(From8to16(StrictConversion), s, rooms)
  }

  lemma {:induction false} Interruptible8to16(s: seq<UTF8>, room: nat, rooms: seq<nat>)
    ensures var o := Bounded8to16(s, room);
      Utf8To16(s[..o.used]) == Outcome(o.used, o.out, ConversionOK)
    ensures Series8to16(s, rooms).result != TargetExhausted ==> Series8to16(s, rooms) == Utf8To16(s)
    ensures |rooms| > |s| && (forall k :: 0 <= k < |rooms| ==> rooms[k] >= 4) ==>
              Series8to16(s, rooms).result != TargetExhausted
  {
    hide Step8to16, Run, Total, RunSeries;
    Regular8to16();
    Local8to16();
    ConsumedPrefix(From8to16(StrictConversion), s, room);
    if Series8to16(s, rooms).result != TargetExhausted {
      SeriesIsTotal(From8to16(StrictConversion), s, rooms);
    }
    if |rooms| > |s| && forall k :: 0 <= k < |rooms| ==> rooms[k] >= 4 {
      SeriesFinishes(From8to16(StrictConversion), s, rooms, 4);
    }
  }

  lemma {:induction false} Regular8to32()
    ensures Sound(From8to32(StrictConversion)) && NeverBad(From8to32(StrictConversion))
    ensures HaltsForSource(From8to32(StrictConversion))
    ensures forall s: seq<UTF8> :: s != [] ==> From8to32(StrictConversion)(s).need <= 4
  {
    hide Step8to32, Next8, Encode32;
    forall s: seq<UTF8> | s != [] && Step8to32(s, StrictConversion).Put?
      ensures !Step8to32(s, StrictConversion).bad
    {
      Strict8to32(s);
    }
  }

  lemma {:induction false} Local8to32()
    ensures Local(From8to32(StrictConversion))
  {
    hide Step8to32, Next8, Encode32;
    forall s: seq<UTF8>, m: nat | s != [] && Step8to32(s, StrictConversion).Put?
        && Step8to32(s, StrictConversion).used <= m <= |s|
      ensures m > 0 && Step8to32(s[..m], StrictConversion) == Step8to32(s, StrictConversion)
    {
      Strict8to32(s);
      Next8Local(s, m);
      Strict8to32(s[..m]);
    }
  }

  /** `ConvertUTF8toUTF32` in strict mode, with room for that many units in the target. */
  ghost function Bounded8to32(s: seq<UTF8>, room: nat): (o: Outcome<UTF32>)
    ensures o.used <= |s| && |o.out| <= room
  {
    Regular8to32();
    RunBounds(From8to32(StrictConversion), s, room, ConversionOK);
    Run(From8to32(StrictConversion), s, room, ConversionOK)
  }

  /** The same into one target after the other, as long as the target is what stops it. */
  ghost function Series8to32(s: seq<UTF8>, rooms: seq<nat>): Outcome<UTF32> {
    Regular8to32();
    RunSeries(From8to32(StrictConversion), s, rooms)
  }

  lemma {:induction false} Interruptible8to32(s: seq<UTF8>, room: nat, rooms: seq<nat>)
    ensures var o := Bounded8to32(s, room);
      Utf8To32(s[..o.used]) == Outcome(o.used, o.out, ConversionOK)
    ensures Series8to32(s, rooms).result != TargetExhausted ==> Series8to32(s, rooms) == Utf8To32(s)
    ensures |rooms| > |s| && (forall k :: 0 <= k < |rooms| ==> rooms[k] >= 4) ==>
              Series8to32(s, rooms).result != TargetExhausted
  {
    hide Step8to32, Run, Total, RunSeries;
    Regular8to32();
    Local8to32();
    ConsumedPrefix(From8to32(StrictConversion), s, room);
    if Series8to32(s, rooms).result != TargetExhausted {
      SeriesIsTotal(From8to32(StrictConversion), s, rooms);
    }
    if |rooms| > |s| && forall k :: 0 <= k < |rooms| ==> rooms[k] >= 4 {
      SeriesFinishes(From8to32(StrictConversion), s, rooms, 4);
    }
  }

  lemma {:induction false} Regular16to8()
    ensures Sound(From16to8(StrictConversion)) && NeverBad(From16to8(StrictConversion))
    ensures HaltsForSource(From16to8(StrictConversion))
    ensures forall s: seq<UTF16> :: s != [] ==> From16to8(StrictConversion)(s).need <= 4
  {
    hide Step16to8, Next16, Encode8;
    forall s: seq<UTF16> | s != [] && Step16to8(s, StrictConversion).Put?
      ensures !Step16to8(s, StrictConversion).bad
    {
      Strict16to8(s);
    }
  }

  lemma {:induction false} Local16to8()
    ensures Local(From16to8(StrictConversion))
  {
    hide Step16to8, Next16, Encode8;
    forall s: seq<UTF16>, m: nat | s != [] && Step16to8(s, StrictConversion).Put?
        && Step16to8(s, StrictConversion).used <= m <= |s|
      ensures m > 0 && Step16to8(s[..m], StrictConversion) == Step16to8(s, StrictConversion)
    {
      Strict16to8(s);
      Next16Local(s, m);
      Strict16to8(s[..m]);
    }
  }

  /** `ConvertUTF16toUTF8` in strict mode, with room for that many units in the target. */
  ghost function Bounded16to8(s: seq<UTF16>, room: nat): (o: Outcome<UTF8>)
    ensures o.used <= |s| && |o.out| <= room
  {
    Regular16to8();
    RunBounds(From16to8(StrictConversion), s, room, ConversionOK);
    Run(From16to8(StrictConversion), s, room, ConversionOK)
  }

  /** The same into one target after the other, as long as the target is what stops it. */
  ghost function Series16to8(s: seq<UTF16>, rooms: seq<nat>): Outcome<UTF8> {
    Regular16to8();
    RunSeries(From16to8(StrictConversion), s, rooms)
  }

  lemma {:induction false} Interruptible16to8(s: seq<UTF16>, room: nat, rooms: seq<nat>)
    ensures var o := Bounded16to8(s, room);
      Utf16To8(s[..o.used]) == Outcome(o.used, o.out, ConversionOK)
    ensures Series16to8(s, rooms).result != TargetExhausted ==> Series16to8(s, rooms) == Utf16To8(s)
    ensures |rooms| > |s| && (forall k :: 0 <= k < |rooms| ==> rooms[k] >= 4) ==>
              Series16to8(s, rooms).result != TargetExhausted
  {
    hide Step16to8, Run, Total, RunSeries;
    Regular16to8();
    Local16to8();
    ConsumedPrefix(From16to8(StrictConversion), s, room);
    if Series16to8(s, rooms).result != TargetExhausted {
      SeriesIsTotal(From16to8(StrictConversion), s, rooms);
    }
    if |rooms| > |s| && forall k :: 0 <= k < |rooms| ==> rooms[k] >= 4 {
      SeriesFinishes(From16to8(StrictConversion), s, rooms, 4);
    }
  }

  lemma {:induction false} Regular16to32()
    ensures Sound(From16to32(StrictConversion)) && NeverBad(From16to32(StrictConversion))
    ensures HaltsForSource(From16to32(StrictConversion))
    ensures forall s: seq<UTF16> :: s != [] ==> From16to32(StrictConversion)(s).need <= 4
  {
    hide Step16to32, Next16, Encode32;
    forall s: seq<UTF16> | s != [] && Step16to32(s, StrictConversion).Put?
      ensures !Step16to32(s, StrictConversion).bad
    {
      Strict16to32(s);
    }
  }

  lemma {:induction false} Local16to32()
    ensures Local(From16to32(StrictConversion))
  {
    hide Step16to32, Next16, Encode32;
    forall s: seq<UTF16>, m: nat | s != [] && Step16to32(s, StrictConversion).Put?
        && Step16to32(s, StrictConversion).used <= m <= |s|
      ensures m > 0 && Step16to32(s[..m], StrictConversion) == Step16to32(s, StrictConversion)
    {
      Strict16to32(s);
      Next16Local(s, m);
      Strict16to32(s[..m]);
    }
  }

  /** `ConvertUTF16toUTF32` in strict mode, with room for that many units in the target. */
  ghost function Bounded16to32(s: seq<UTF16>, room: nat): (o: Outcome<UTF32>)
    ensures o.used <= |s| && |o.out| <= room
  {
    Regular16to32();
    RunBounds(From16to32(StrictConversion), s, room, ConversionOK);
    Run(From16to32(StrictConversion), s, room, ConversionOK)
  }

  /** The same into one target after the other, as long as the target is what stops it. */
  ghost function Series16to32(s: seq<UTF16>, rooms: seq<nat>): Outcome<UTF32> {
    Regular16to32();
    RunSeries(From16to32(StrictConversion), s, rooms)
  }

  lemma {:induction false} Interruptible16to32(s: seq<UTF16>, room: nat, rooms: seq<nat>)
    ensures var o := Bounded16to32(s, room);
      Utf16To32(s[..o.used]) == Outcome(o.used, o.out, ConversionOK)
    ensures Series16to32(s, rooms).result != TargetExhausted ==> Series16to32(s, rooms) == Utf16To32(s)
    ensures |rooms| > |s| && (forall k :: 0 <= k < |rooms| ==> rooms[k] >= 4) ==>
              Series16to32(s, rooms).result != TargetExhausted
  {
    hide Step16to32, Run, Total, RunSeries;
    Regular16to32();
    Local16to32();
    ConsumedPrefix(From16to32(StrictConversion), s, room);
    if Series16to32(s, rooms).result != TargetExhausted {
      SeriesIsTotal(From16to32(StrictConversion), s, rooms);
    }
    if |rooms| > |s| && forall k :: 0 <= k < |rooms| ==> rooms[k] >= 4 {
      SeriesFinishes(From16to32(StrictConversion), s, rooms, 4);
    }
  }
}
