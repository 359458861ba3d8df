/**
 The two users of the UTF-8 converter in string_conversion.cc: one sizes its buffer by the length of
 the source, the other finds a single character by trying ever longer beginnings of the source.
 */
module StringConversion {
  import opened UtfReference
  import opened ConversionRun
  import opened UtfSteps
  import opened UtfStrict
  import opened UtfTheorems
  import opened UtfConversions
  import opened UtfConverters

  /** No character asks for more room in the target than it takes off the source. */
  ghost predicate Shrinking<S(!new), T>(step: seq<S> -> Step<T>) {
    forall s: seq<S> :: s != [] ==> step(s).need <= if step(s).Put? then step(s).used else |s|
  }

  lemma {:induction false} RoomOfSource<S(!new), T>(step: seq<S> -> Step<T>, src: seq<S>, room: nat,
        result: ConversionResult)
    requires Sound(step) && Shrinking(step) && room >= |src|
    ensures Run(step, src, room, result) == Total(step, src, result)
    ensures |Total(step, src, result).out| <= Total(step, src, result).used <= |src|
    decreases |src|
  {
    hide Run, Total, After;
    if src != [] && step(src).Put? {
      var now := step(src);
      RunOnce(step, src, room, result);
      hide Sound, Shrinking;
      var next := if now.bad then SourceIllegal else result;
      RoomOfSource(step, src[now.used..], room - |now.out|, next);
      AfterParts(now.used, now.out, Total(step, src[now.used..], next));
    } else {
      RunStopped(step, src, room, result);
    }
  }

  lemma {:induction false} RunStopped<S(!new), T>(step: seq<S> -> Step<T>, src: seq<S>, room: nat,
                                                 result: ConversionResult)
    requires Sound(step) && Shrinking(step) && room >= |src| && (src == [] || step(src).Halt?)
    ensures Run(step, src, room, result) == Total(step, src, result)
    ensures Total(step, src, result).out == [] && Total(step, src, result).used == 0
  {
  }

  lemma {:induction false} RunOnce<S(!new), T>(step: seq<S> -> Step<T>, src: seq<S>, room: nat,
                                              result: ConversionResult)
    requires Sound(step) && Shrinking(step) && room >= |src| && src != [] && step(src).Put?
    ensures var now := step(src);
      var next := if now.bad then SourceIllegal else result;
      && now.need <= now.used <= |src| && |now.out| <= now.need && now.used >= 1
      && Run(step, src, room, result)
         == After(now.used, now.out, Run(step, src[now.used..], room - |now.out|, next))
      && Total(step, src, result) == After(now.used, now.out, Total(step, src[now.used..], next))
  {
  }

  lemma {:induction false} Shrinking8to16()
    ensures Shrinking(From8to16(StrictConversion))
  {
    hide Step8to16;
    forall s: seq<UTF8> | s != []
      ensures var r := Step8to16(s, StrictConversion); r.need <= if r.Put? then r.used else |s|
    {
      NeedOfStep(s);
    }
  }

  lemma {:induction false} NeedOfStep(s: seq<UTF8>)
    requires s != []
    ensures var r := Step8to16(s, StrictConversion); r.need <= if r.Put? then r.used else |s|
  {
  }

  /**
   A target with one unit for each byte is always large enough, so UTF8ToUTF16 converts as if the
   target had no bounds, and it keeps no more units than it made room for.
   */
  lemma {:induction false} SourceLengthSuffices(s: seq<UTF8>, room: nat)
    requires room >= |s|
    ensures Sound(From8to16(StrictConversion))
    ensures Run(From8to16(StrictConversion), s, room, ConversionOK) == Utf8To16(s)
    ensures |Utf8To16(s).out| <= |s|
  {
    assert Utf8To16(s) == Total(From8to16(StrictConversion), s, ConversionOK);
    hide *;
    Sound8to16(StrictConversion);
    Shrinking8to16();
    RoomOfSource(From8to16(StrictConversion), s, room, ConversionOK);
  }

  // ----- one character

  /** A beginning of s starts with the same character as s if that fits into it, and with none otherwise. */
  lemma {:induction false} LooseLengthOfBeginning(s: seq<UTF8>, k: nat)
    requires k <= |s|
    ensures LooseLength(s[..k]) == if LooseLength(s) <= k then LooseLength(s) else 0
  {
    hide Start3, Start4, ShortSecond, Tail;
    LooseClasses(s);
  }

  /** The bytes that start characters of different lengths differ. */
  lemma {:induction false} LooseClasses(s: seq<UTF8>)
    ensures OneByte(s) ==> !TwoBytes(s) && !LooseThree(s) && !LooseFour(s)
    ensures TwoBytes(s) ==> !LooseThree(s) && !LooseFour(s)
    ensures LooseThree(s) ==> !LooseFour(s)
  {
  }

  /** Converting a beginning with at most one character in it. */
  lemma {:induction false} ConvertBeginning(p: seq<UTF8>)
    requires p != [] && LooseLength(p[..|p| - 1]) == 0
    ensures Sound(From8to16(StrictConversion))
    ensures var o := Run(From8to16(StrictConversion), p, 2, ConversionOK);
      if LooseLength(p) == 0 then o.used == 0 && o.out == [] && o.result != ConversionOK
      else LooseLength(p) == |p| && o == Outcome(|p|, Encode16(ValueOf(p, |p|)), ConversionOK)
  {
    hide LooseLength, ValueOf, Encode16, Sound, Step8to16;
    Sound8to16(StrictConversion);
    Strict8to16(p);
    LooseLengthOfBeginning(p, |p| - 1);
    if LooseLength(p) == |p| {
      UnitsOfOne(ValueOf(p, |p|));
      assert p[|p|..] == [];
      assert Encode16(ValueOf(p, |p|)) + [] == Encode16(ValueOf(p, |p|));
    }
  }

  lemma {:induction false} UnitsOfOne(c: UTF32)
    ensures 1 <= |Encode16(c)| <= 2
  {
  }

  /** `taken` bytes of the source were converted to one character, in `out` with zeros behind it. */
  ghost predicate OneCharacter(window: seq<UTF8>, taken: nat, out: seq<UTF16>) {
    && taken == LooseLength(window)
    && out == (if taken == 0 then [0, 0]
               else var units := Encode16(ValueOf(window, taken)); if |units| == 1 then units + [0] else units)
  }

  /**
   Convert the first character of a string: convert its first byte, its first two bytes and so on
   until that succeeds, but stop behind `inLength` bytes.  The first byte is tried even if inLength
   is zero.
   */
  method UTF8ToUTF16Char(source: seq<UTF8>, inLength: nat, out: array<UTF16>) returns (taken: nat)
    requires |source| >= 1 && inLength <= |source| && out.Length == 2
    modifies out
    ensures OneCharacter(source[..if inLength == 0 then 1 else inLength], taken, out[..])
  {
    hide LooseLength, ValueOf, Encode16, Sound, Run, From8to16;
    ghost var window := source[..if inLength == 0 then 1 else inLength];
    out[0], out[1] := 0, 0;
    var end, t := 1, 0;
    LooseLengthOfBeginning(source, 0);
    while true
      invariant 1 <= end <= |window| && t == 0
      invariant LooseLength(source[..end - 1]) == 0 && out[..] == [0, 0]
      decreases |source| - end
    {
      var consumed, next, result := ConvertUTF8toUTF16(source[..end], out, t, 2, StrictConversion);
      Beginning(source, window, end);
      ghost var units := out[0..next];
      assert Outcome(consumed, units, result) == Run(From8to16(StrictConversion), source[..end], 2, ConversionOK);
      if result == ConversionOK {
        assert units == Encode16(ValueOf(window, consumed));
        UnitsOfOne(ValueOf(window, consumed));
        assert out[..] == if next == 1 then units + [0] else units;
        return consumed;
      }
      assert units == [];
      assert out[..] == [0, 0];
      t := next;
      end := end + 1;
      if end > inLength {
        break;
      }
    }
    assert source[..end - 1] == window;
    return 0;
  }

  /** What trying the first `end` bytes gives, in terms of the whole window. */
  lemma {:induction false} Beginning(source: seq<UTF8>, window: seq<UTF8>, end: nat)
    requires 1 <= end <= |window| && window <= source && LooseLength(source[..end - 1]) == 0
    ensures Sound(From8to16(StrictConversion))
    ensures var o := Run(From8to16(StrictConversion), source[..end], 2, ConversionOK);
      if LooseLength(source[..end]) == 0 then o.used == 0 && o.out == [] && o.result != ConversionOK
      else LooseLength(window) == end && o == Outcome(end, Encode16(ValueOf(window, end)), ConversionOK)
  {
    hide LooseLength, Encode16, Sound, Run, From8to16;
    assert source[..end][..end - 1] == source[..end - 1];
    assert window[..end] == source[..end];
    ConvertBeginning(source[..end]);
    LooseLengthOfBeginning(window, end);
  }
}
