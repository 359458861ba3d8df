/**
 The converters of convert_UTF.c themselves: loops that move along the source and write into a part
 of the target array.  Each is proved to do what its step function does, run over the source.
 */
module UtfConverters {
  import opened UtfReference
  import opened ConversionRun
  import opened UtfSteps
  import opened UtfTheorems

  /**
   How far a conversion into target[from..end] has come: the source from i and the target from t on
   are left, `result` is what the end of the source would give, and `whole` is the whole conversion.
   */
  ghost predicate Converting<S(!new), T>(step: seq<S> -> Step<T>, src: seq<S>, i: nat, written: seq<T>, room: nat,
                                        result: ConversionResult, whole: Outcome<T>)
    requires i <= |src|
  {
    Sound(step) && whole == After(i, written, Run(step, src[i..], room, result))
  }

  lemma {:induction false} ConvertingStart<S(!new), T>(step: seq<S> -> Step<T>, src: seq<S>, room: nat)
    requires Sound(step)
    ensures Converting(step, src, 0, [], room, ConversionOK, Run(step, src, room, ConversionOK))
  {
    assert src[0..] == src;
  }

  /** One character more. */
  lemma {:induction false} ConvertingPut<S(!new), T>(step: seq<S> -> Step<T>, src: seq<S>, i: nat, written: seq<T>,
        room: nat,
                                    result: ConversionResult, whole: Outcome<T>, now: Step<T>)
    requires i < |src| && Converting(step, src, i, written, room, result, whole)
    requires now == step(src[i..]) && now.Put? && now.need <= room
    ensures i + now.used <= |src| && |now.out| <= room
    ensures Converting(step, src, i + now.used, written + now.out, room - |now.out|,
                       if now.bad then SourceIllegal else result, whole)
  {
    assert src[i..][now.used..] == src[i + now.used..];
    AfterTwice(i, written, now.used, now.out,
               Run(step, src[i + now.used..], room - |now.out|, if now.bad then SourceIllegal else result));
  }

  /** The end: of the source, of the room, or of what can be converted. */
  lemma {:induction false} ConvertingStop<S(!new), T>(step: seq<S> -> Step<T>, src: seq<S>, i: nat, written: seq<T>,
        room: nat,
                                     result: ConversionResult, whole: Outcome<T>)
    requires i <= |src| && Converting(step, src, i, written, room, result, whole)
    requires i == |src| || step(src[i..]).need > room || step(src[i..]).Halt?
    ensures whole == Outcome(i, written,
              if i == |src| then result
              else if step(src[i..]).need > room then TargetExhausted
              else step(src[i..]).why)
  {
    assert written + [] == written;
  }

  /** Read the `extra` + 1 bytes of one character: the first switch of the converters from UTF-8. */
  method ReadUTF8(source: seq<UTF8>, start: nat, extra: nat) returns (ch: UTF32, next: nat)
    requires extra <= 3 && start + extra < |source|
    ensures next == start + extra + 1
    ensures ch == ValueOf(source[start..], extra + 1)
  {
    hide AddShift, AddLast, LessOffset;
    ch, next := 0, start;
    if extra == 3 {
      ch, next := AddShift(ch, source[next]), next + 1;
    }
    if extra >= 2 {
      ch, next := AddShift(ch, source[next]), next + 1;
    }
    if extra >= 1 {
      ch, next := AddShift(ch, source[next]), next + 1;
    }
    ch, next := AddLast(ch, source[next]), next + 1;
    ch := LessOffset(ch, extra);
  }

  /** Take one character off a UTF-8 source: the opening part of both converters from UTF-8. */
  method TakeUTF8(source: seq<UTF8>, start: nat) returns (taken: Next)
    requires start < |source|
    ensures var s, length := source[start..], TrailingBytes(source[start]) + 1;
      taken == if length > |s| then Stop(SourceExhausted)
               else if !IsLegalUTF8(s, length) then Stop(SourceIllegal)
               else Char(ValueOf(s, length), length)
  {
    hide TrailingBytes, IsLegalUTF8, ValueOf;
    var extra := TrailingBytes(source[start]);
    if start + extra >= |source| {
      return Stop(SourceExhausted);
    }
    if !IsLegalUTF8(source[start..], extra + 1) {
      return Stop(SourceIllegal);
    }
    LegalIsShort(source[start..], extra + 1);
    var ch, after := ReadUTF8(source, start, extra);
    return Char(ch, extra + 1);
  }

  /** Write one byte before `at`; the target from `at` up to `end` was written before. */
  method PutBefore(target: array<UTF8>, at: nat, ghost end: nat, unit: UTF8) returns (first: nat)
    requires 0 < at <= end <= target.Length
    modifies target
    ensures first == at - 1 && target[first..end] == [unit] + old(target[at..end])
    ensures forall k :: 0 <= k < target.Length && k != first ==> target[k] == old(target[k])
  {
    first := at - 1;
    target[first] := unit;
    assert target[at..end] == old(target[at..end]);
  }

  /** Write the bytes behind the first; what is left of the character goes into the first. */
  method WriteTail(target: array<UTF8>, start: nat, value: UTF32, bytesToWrite: nat) returns (ch: UTF32)
    requires 1 <= bytesToWrite <= 4 && start + bytesToWrite <= target.Length
    modifies target
    ensures Bytes(value, bytesToWrite) == [First(ch, bytesToWrite)] + target[start + 1..start + bytesToWrite]
    ensures forall k :: 0 <= k <= start || start + bytesToWrite <= k < target.Length ==> target[k] == old(target[k])
  {
    hide Shift6, Marked, First;
    ghost var end := start + bytesToWrite;
    var at := start + bytesToWrite;
    ch := value;
    ghost var rest := Bytes(value, bytesToWrite);
    assert target[at..end] == rest[bytesToWrite..];
    if bytesToWrite == 4 {
      at := PutBefore(target, at, end, Marked(ch));
      ch := Shift6(ch);
      assert target[at..end] == rest[3..];
    }
    if bytesToWrite >= 3 {
      at := PutBefore(target, at, end, Marked(ch));
      ch := Shift6(ch);
      assert target[at..end] == rest[2..];
    }
    if bytesToWrite >= 2 {
      at := PutBefore(target, at, end, Marked(ch));
      ch := Shift6(ch);
      assert target[at..end] == rest[1..];
    }
  }

  /** Write the bytes of one character from the last to the first: the switch of the converters to UTF-8. */
  method WriteUTF8(target: array<UTF8>, start: nat, value: UTF32, bytesToWrite: nat)
    requires 1 <= bytesToWrite <= 4 && start + bytesToWrite <= target.Length
    modifies target
    ensures target[start..start + bytesToWrite] == Bytes(value, bytesToWrite)
    ensures forall k :: 0 <= k < start || start + bytesToWrite <= k < target.Length ==> target[k] == old(target[k])
  {
    hide Bytes, First;
    var ch := WriteTail(target, start, value, bytesToWrite);
    var at := PutBefore(target, start + 1, start + bytesToWrite, First(ch, bytesToWrite));
  }

  /** Write one unit at t and move past it; the target from `start` on was written before. */
  method PutUnit<T>(target: array<T>, ghost start: nat, t: nat, unit: T) returns (next: nat)
    requires start <= t < target.Length
    modifies target
    ensures next == t + 1 && target[start..next] == old(target[start..t]) + [unit]
    ensures forall k :: 0 <= k < target.Length && k != t ==> target[k] == old(target[k])
  {
    target[t] := unit;
    return t + 1;
  }

  /** Write the two units of a character above 0xFFFF. */
  method PutPair(target: array<UTF16>, ghost start: nat, t: nat, ch: UTF32) returns (next: nat)
    requires start <= t && t + 1 < target.Length
    modifies target
    ensures next == t + 2 && target[start..next] == old(target[start..t]) + [High(ch), Low(ch)]
    ensures forall k :: 0 <= k < t || next <= k < target.Length ==> target[k] == old(target[k])
  {
    hide High, Low;
    next := PutUnit(target, start, t, High(ch));
    next := PutUnit(target, start, next, Low(ch));
  }

  /** The units that the converter from UTF-8 writes for a character. */
  ghost function Units16(ch: UTF32): seq<UTF16> {
    if InBmp(ch) then [Cast16(if IsSurrogate(ch) then REPLACEMENT else ch)]
    else if IsLegalUTF32(ch) then [High(ch), Low(ch)]
    else [Cast16(REPLACEMENT)]
  }

  /** Write one character at t, where there is room for a unit, unless it is too long or must not be written. */
  method PutUTF16(target: array<UTF16>, ghost start: nat, t: nat, end: nat, ch: UTF32, flags: ConversionFlags)
    returns (next: nat, result: ConversionResult)
    requires start <= t < end <= target.Length
    modifies target
    ensures result ==
      if flags.StrictConversion? && (if InBmp(ch) then IsSurrogate(ch) else !IsLegalUTF32(ch)) then SourceIllegal
      else if t + |Units16(ch)| > end then TargetExhausted
      else ConversionOK
    ensures next == if result == ConversionOK then t + |Units16(ch)| else t
    ensures result == ConversionOK ==> target[start..next] == old(target[start..t]) + Units16(ch)
    ensures forall k :: 0 <= k < t || next <= k < target.Length ==> target[k] == old(target[k])
  {
    hide InBmp, IsSurrogate, IsLegalUTF32, High, Low, Cast16;
    if InBmp(ch) {
      if IsSurrogate(ch) {
        if flags.StrictConversion? {
          return t, SourceIllegal;
        } else {
          next := PutUnit(target, start, t, Cast16(REPLACEMENT));
        }
      } else {
        next := PutUnit(target, start, t, Cast16(ch));
      }
    } else if !IsLegalUTF32(ch) {
      if flags.StrictConversion? {
        return t, SourceIllegal;
      } else {
        next := PutUnit(target, start, t, Cast16(REPLACEMENT));
      }
    } else {
      if t + 1 >= end {
        return t, TargetExhausted;
      }
      next := PutPair(target, start, t, ch);
    }
    result := ConversionOK;
  }

  /** A step from UTF-8 to UTF-16, in these terms. */
  lemma {:induction false} StepWrites(s: seq<UTF8>, flags: ConversionFlags)
    requires s != []
    ensures var n := TrailingBytes(s[0]) + 1;
      Step8to16(s, flags) ==
        if n > |s| then Halt(0, SourceExhausted)
        else if !IsLegalUTF8(s, n) then Halt(0, SourceIllegal)
        else
          var ch := ValueOf(s, n);
          if flags.StrictConversion? && (if InBmp(ch) then IsSurrogate(ch) else !IsLegalUTF32(ch))
          then Halt(1, SourceIllegal)
          else Put(|Units16(ch)|, n, Units16(ch), false)
    ensures forall ch :: 1 <= |Units16(ch)| <= 2
  {
    hide TrailingBytes, IsLegalUTF8, ValueOf, InBmp, IsSurrogate, IsLegalUTF32, High, Low, Cast16;
  }

  method ConvertUTF8toUTF16(source: seq<UTF8>, target: array<UTF16>, targetStart: nat, targetEnd: nat,
      flags: ConversionFlags)
    returns (consumed: nat, next: nat, result: ConversionResult)
    requires targetStart <= targetEnd <= target.Length
    modifies target
    ensures Sound(From8to16(flags)) && targetStart <= next <= targetEnd
    ensures Outcome(consumed, target[targetStart..next], result)
         == Run(From8to16(flags), source, targetEnd - targetStart, ConversionOK)
    ensures forall k :: 0 <= k < targetStart || next <= k < target.Length ==> target[k] == old(target[k])
  {
    hide TrailingBytes, IsLegalUTF8, ValueOf, InBmp, IsSurrogate, IsLegalUTF32, Units16, Step8to16, Run,
      Sound, Converting, After;
    Sound8to16(flags);
    ghost var step := From8to16(flags);
    ghost var whole := Run(step, source, targetEnd - targetStart, ConversionOK);
    ConvertingStart(step, source, targetEnd - targetStart);
    var i, t := 0, targetStart;
    result := ConversionOK;
    assert target[targetStart..t] == [];
    while i < |source|
      invariant 0 <= i <= |source| && targetStart <= t <= targetEnd && result == ConversionOK
      invariant Converting(step, source, i, target[targetStart..t], targetEnd - t, ConversionOK, whole)
      invariant forall k :: 0 <= k < targetStart || t <= k < target.Length ==> target[k] == old(target[k])
    {
      ghost var written, room := target[targetStart..t], targetEnd - t;
      ghost var now := Step8to16(source[i..], flags);
      assert now == step(source[i..]);
      StepWrites(source[i..], flags);
      var taken := TakeUTF8(source, i);
      if taken.Stop? {
        result := taken.why;
        ConvertingStop(step, source, i, written, room, ConversionOK, whole);
        return i, t, result;
      }
      if t >= targetEnd {
        result := TargetExhausted;
        ConvertingStop(step, source, i, written, room, ConversionOK, whole);
        return i, t, result;
      }
      t, result := PutUTF16(target, targetStart, t, targetEnd, taken.ch, flags);
      if result != ConversionOK {
        ConvertingStop(step, source, i, written, room, ConversionOK, whole);
        return i, t, result;
      }
      assert target[targetStart..t] == written + now.out;
      ConvertingPut(step, source, i, written, room, ConversionOK, whole, now);
      i := i + taken.used;
    }
    ConvertingStop(step, source, i, target[targetStart..t], targetEnd - t, ConversionOK, whole);
    return i, t, result;
  }

  method ConvertUTF8toUTF32(source: seq<UTF8>, target: array<UTF32>, targetStart: nat, targetEnd: nat,
      flags: ConversionFlags)
    returns (consumed: nat, next: nat, result: ConversionResult)
    requires targetStart <= targetEnd <= target.Length
    modifies target
    ensures Sound(From8to32(flags)) && targetStart <= next <= targetEnd
    ensures Outcome(consumed, target[targetStart..next], result)
         == Run(From8to32(flags), source, targetEnd - targetStart, ConversionOK)
    ensures forall k :: 0 <= k < targetStart || next <= k < target.Length ==> target[k] == old(target[k])
  {
    hide TrailingBytes, IsLegalUTF8, ValueOf, IsSurrogate, IsLegalUTF32, Run, Sound, Converting, After;
    Sound8to32(flags);
    ghost var step := From8to32(flags);
    ghost var whole := Run(step, source, targetEnd - targetStart, ConversionOK);
    ConvertingStart(step, source, targetEnd - targetStart);
    var i, t := 0, targetStart;
    result := ConversionOK;
    assert target[targetStart..t] == [];
    while i < |source|
      invariant 0 <= i <= |source| && targetStart <= t <= targetEnd
      invariant Converting(step, source, i, target[targetStart..t], targetEnd - t, result, whole)
      invariant forall k :: 0 <= k < targetStart || t <= k < target.Length ==> target[k] == old(target[k])
    {
      ghost var written, room, before := target[targetStart..t], targetEnd - t, result;
      ghost var now := Step8to32(source[i..], flags);
      assert now == step(source[i..]);
      var taken := TakeUTF8(source, i);
      if taken.Stop? {
        result := taken.why;
        ConvertingStop(step, source, i, written, room, before, whole);
        return i, t, result;
      }
      var ch := taken.ch;
      if t >= targetEnd {
        result := TargetExhausted;
        ConvertingStop(step, source, i, written, room, before, whole);
        return i, t, result;
      }
      if IsLegalUTF32(ch) {
        if IsSurrogate(ch) {
          if flags.StrictConversion? {
            result := SourceIllegal;
            ConvertingStop(step, source, i, written, room, before, whole);
            return i, t, result;
          } else {
            t := PutUnit(target, targetStart, t, REPLACEMENT);
          }
        } else {
          t := PutUnit(target, targetStart, t, ch);
        }
      } else {
        result := SourceIllegal;
        t := PutUnit(target, targetStart, t, REPLACEMENT);
      }
      assert target[targetStart..t] == written + now.out;
      ConvertingPut(step, source, i, written, room, before, whole, now);
      i := i + taken.used;
    }
    ConvertingStop(step, source, i, target[targetStart..t], targetEnd - t, result, whole);
    return i, t, result;
  }

  /** Take one character off a UTF-16 source: the opening part of both converters from UTF-16. */
  method ReadUTF16(source: seq<UTF16>, start: nat, flags: ConversionFlags) returns (taken: Next)
    requires start < |source|
    ensures taken == Next16(source[start..], flags)
  {
    hide HighSurrogate, LowSurrogate, PairValue;
    var ch := source[start] as bv32;
    var next := start + 1;
    if HighSurrogate(source[start]) {
      if next < |source| {
        var second := source[next];
        if LowSurrogate(second) {
          ch := PairValue(source[start], second);
          next := next + 1;
        } else if flags.StrictConversion? {
          return Stop(SourceIllegal);
        }
      } else {
        return Stop(SourceExhausted);
      }
    } else if flags.StrictConversion? {
      if LowSurrogate(source[start]) {
        return Stop(SourceIllegal);
      }
    }
    return Char(ch, next - start);
  }

  method ConvertUTF16toUTF32(source: seq<UTF16>, target: array<UTF32>, targetStart: nat, targetEnd: nat,
      flags: ConversionFlags)
    returns (consumed: nat, next: nat, result: ConversionResult)
    requires targetStart <= targetEnd <= target.Length
    modifies target
    ensures Sound(From16to32(flags)) && targetStart <= next <= targetEnd
    ensures Outcome(consumed, target[targetStart..next], result)
         == Run(From16to32(flags), source, targetEnd - targetStart, ConversionOK)
    ensures forall k :: 0 <= k < targetStart || next <= k < target.Length ==> target[k] == old(target[k])
  {
    hide Next16, Run, Sound, Converting, After;
    Sound16to32(flags);
    ghost var step := From16to32(flags);
    ghost var whole := Run(step, source, targetEnd - targetStart, ConversionOK);
    ConvertingStart(step, source, targetEnd - targetStart);
    var i, t := 0, targetStart;
    result := ConversionOK;
    assert target[targetStart..t] == [];
    while i < |source|
      invariant 0 <= i <= |source| && targetStart <= t <= targetEnd && result == ConversionOK
      invariant Converting(step, source, i, target[targetStart..t], targetEnd - t, ConversionOK, whole)
      invariant forall k :: 0 <= k < targetStart || t <= k < target.Length ==> target[k] == old(target[k])
    {
      ghost var written, room := target[targetStart..t], targetEnd - t;
      ghost var now := Step16to32(source[i..], flags);
      assert now == step(source[i..]);
      var taken := ReadUTF16(source, i, flags);
      if taken.Stop? {
        result := taken.why;
        ConvertingStop(step, source, i, written, room, ConversionOK, whole);
        return i, t, result;
      }
      if t >= targetEnd {
        result := TargetExhausted;
        ConvertingStop(step, source, i, written, room, ConversionOK, whole);
        return i, t, result;
      }
      t := PutUnit(target, targetStart, t, taken.ch);
      assert target[targetStart..t] == written + now.out;
      ConvertingPut(step, source, i, written, room, ConversionOK, whole, now);
      i := i + taken.used;
    }
    ConvertingStop(step, source, i, target[targetStart..t], targetEnd - t, ConversionOK, whole);
    return i, t, result;
  }

  method ConvertUTF16toUTF8(source: seq<UTF16>, target: array<UTF8>, targetStart: nat, targetEnd: nat,
      flags: ConversionFlags)
    returns (consumed: nat, next: nat, result: ConversionResult)
    requires targetStart <= targetEnd <= target.Length
    modifies target
    ensures Sound(From16to8(flags)) && targetStart <= next <= targetEnd
    ensures Outcome(consumed, target[targetStart..next], result)
         == Run(From16to8(flags), source, targetEnd - targetStart, ConversionOK)
    ensures forall k :: 0 <= k < targetStart || next <= k < target.Length ==> target[k] == old(target[k])
  {
    hide Next16, BytesToWrite, Bytes, IsLegalUTF32, Run, Sound, Converting, After;
    Sound16to8(flags);
    ghost var step := From16to8(flags);
    ghost var whole := Run(step, source, targetEnd - targetStart, ConversionOK);
    ConvertingStart(step, source, targetEnd - targetStart);
    var i, t := 0, targetStart;
    result := ConversionOK;
    assert target[targetStart..t] == [];
    while i < |source|
      invariant 0 <= i <= |source| && targetStart <= t <= targetEnd && result == ConversionOK
      invariant Converting(step, source, i, target[targetStart..t], targetEnd - t, ConversionOK, whole)
      invariant forall k :: 0 <= k < targetStart || t <= k < target.Length ==> target[k] == old(target[k])
    {
      ghost var written, room := target[targetStart..t], targetEnd - t;
      ghost var now := Step16to8(source[i..], flags);
      assert now == step(source[i..]);
      var taken := ReadUTF16(source, i, flags);
      if taken.Stop? {
        result := taken.why;
        ConvertingStop(step, source, i, written, room, ConversionOK, whole);
        return i, t, result;
      }
      var ch, bytesToWrite := taken.ch, BytesToWrite(taken.ch);
      if !IsLegalUTF32(ch) {
        ch, bytesToWrite := REPLACEMENT, 3;
      }
      if t + bytesToWrite > targetEnd {
        result := TargetExhausted;
        ConvertingStop(step, source, i, written, room, ConversionOK, whole);
        return i, t, result;
      }
      WriteUTF8(target, t, ch, bytesToWrite);
      WrittenGrows(target, targetStart, t, t + bytesToWrite, written, now.out);
      t := t + bytesToWrite;
      ConvertingPut(step, source, i, written, room, ConversionOK, whole, now);
      i := i + taken.used;
    }
    ConvertingStop(step, source, i, target[targetStart..t], targetEnd - t, ConversionOK, whole);
    return i, t, result;
  }

  method ConvertUTF32toUTF16(source: seq<UTF32>, target: array<UTF16>, targetStart: nat, targetEnd: nat,
      flags: ConversionFlags)
    returns (consumed: nat, next: nat, result: ConversionResult)
    requires targetStart <= targetEnd <= target.Length
    modifies target
    ensures Sound(From32to16(flags)) && targetStart <= next <= targetEnd
    ensures Outcome(consumed, target[targetStart..next], result)
         == Run(From32to16(flags), source, targetEnd - targetStart, ConversionOK)
    ensures forall k :: 0 <= k < targetStart || next <= k < target.Length ==> target[k] == old(target[k])
  {
    hide InBmp, IsSurrogate, IsLegalUTF32, High, Low, Cast16, Run, Sound, Converting, After;
    Sound32to16(flags);
    ghost var step := From32to16(flags);
    ghost var whole := Run(step, source, targetEnd - targetStart, ConversionOK);
    ConvertingStart(step, source, targetEnd - targetStart);
    var i, t := 0, targetStart;
    result := ConversionOK;
    assert target[targetStart..t] == [];
    while i < |source|
      invariant 0 <= i <= |source| && targetStart <= t <= targetEnd
      invariant Converting(step, source, i, target[targetStart..t], targetEnd - t, result, whole)
      invariant forall k :: 0 <= k < targetStart || t <= k < target.Length ==> target[k] == old(target[k])
    {
      ghost var written, room, before := target[targetStart..t], targetEnd - t, result;
      ghost var now := Step32to16(source[i..], flags);
      assert now == step(source[i..]);
      if t >= targetEnd {
        result := TargetExhausted;
        ConvertingStop(step, source, i, written, room, before, whole);
        return i, t, result;
      }
      var ch := source[i];
      if InBmp(ch) {
        if IsSurrogate(ch) {
          if flags.StrictConversion? {
            result := SourceIllegal;
            ConvertingStop(step, source, i, written, room, before, whole);
            return i, t, result;
          } else {
            t := PutUnit(target, targetStart, t, Cast16(REPLACEMENT));
          }
        } else {
          t := PutUnit(target, targetStart, t, Cast16(ch));
        }
      } else if !IsLegalUTF32(ch) {
        if flags.StrictConversion? {
          result := SourceIllegal;
        } else {
          t := PutUnit(target, targetStart, t, Cast16(REPLACEMENT));
        }
      } else {
        if t + 1 >= targetEnd {
          result := TargetExhausted;
          ConvertingStop(step, source, i, written, room, before, whole);
          return i, t, result;
        }
        t := PutPair(target, targetStart, t, ch);
      }
      assert target[targetStart..t] == written + now.out;
      ConvertingPut(step, source, i, written, room, before, whole, now);
      i := i + 1;
    }
    ConvertingStop(step, source, i, target[targetStart..t], targetEnd - t, result, whole);
    return i, t, result;
  }

  method ConvertUTF32toUTF8(source: seq<UTF32>, target: array<UTF8>, targetStart: nat, targetEnd: nat,
      flags: ConversionFlags)
    returns (consumed: nat, next: nat, result: ConversionResult)
    requires targetStart <= targetEnd <= target.Length
    modifies target
    ensures Sound(From32to8(flags)) && targetStart <= next <= targetEnd
    ensures Outcome(consumed, target[targetStart..next], result)
         == Run(From32to8(flags), source, targetEnd - targetStart, ConversionOK)
    ensures forall k :: 0 <= k < targetStart || next <= k < target.Length ==> target[k] == old(target[k])
  {
    hide BytesToWrite, Bytes, IsSurrogate, IsLegalUTF32, Run, Sound, Converting, After;
    Sound32to8(flags);
    ghost var step := From32to8(flags);
    ghost var whole := Run(step, source, targetEnd - targetStart, ConversionOK);
    ConvertingStart(step, source, targetEnd - targetStart);
    var i, t := 0, targetStart;
    result := ConversionOK;
    assert target[targetStart..t] == [];
    while i < |source|
      invariant 0 <= i <= |source| && targetStart <= t <= targetEnd
      invariant Converting(step, source, i, target[targetStart..t], targetEnd - t, result, whole)
      invariant forall k :: 0 <= k < targetStart || t <= k < target.Length ==> target[k] == old(target[k])
    {
      ghost var written, room, before := target[targetStart..t], targetEnd - t, result;
      ghost var now := Step32to8(source[i..], flags);
      assert now == step(source[i..]);
      var ch := source[i];
      if flags.StrictConversion? {
        if IsSurrogate(ch) {
          result := SourceIllegal;
          ConvertingStop(step, source, i, written, room, before, whole);
          return i, t, result;
        }
      }
      var bytesToWrite := BytesToWrite(ch);
      if !IsLegalUTF32(ch) {
        ch, bytesToWrite, result := REPLACEMENT, 3, SourceIllegal;
      }
      if t + bytesToWrite > targetEnd {
        result := TargetExhausted;
        ConvertingStop(step, source, i, written, room, before, whole);
        return i, t, result;
      }
      WriteUTF8(target, t, ch, bytesToWrite);
      WrittenGrows(target, targetStart, t, t + bytesToWrite, written, now.out);
      t := t + bytesToWrite;
      ConvertingPut(step, source, i, written, room, before, whole, now);
      i := i + 1;
    }
    ConvertingStop(step, source, i, target[targetStart..t], targetEnd - t, result, whole);
    return i, t, result;
  }

  lemma {:induction false} WrittenGrows<T>(target: array<T>, from: nat, mid: nat, to: nat, written: seq<T>,
      more: seq<T>)
    requires from <= mid <= to <= target.Length
    requires |written| == mid - from && forall k :: from <= k < mid ==> target[k] == written[k - from]
    requires target[mid..to] == more
    ensures target[from..to] == written + more
  {
    assert target[from..mid] == written;
    assert target[from..to] == target[from..mid] + target[mid..to];
  }

  lemma {:induction false} LegalIsShort(s: seq<UTF8>, length: nat)
    requires 1 <= length <= |s| && IsLegalUTF8(s, length)
    ensures length <= 4
  {
  }

  lemma {:induction false} Sound8to16(flags: ConversionFlags)
    ensures Sound(From8to16(flags))
  {
    hide Step8to16;
  }

  lemma {:induction false} Sound8to32(flags: ConversionFlags)
    ensures Sound(From8to32(flags))
  {
    hide Step8to32;
  }

  lemma {:induction false} Sound16to8(flags: ConversionFlags)
    ensures Sound(From16to8(flags))
  {
    hide Step16to8;
  }

  lemma {:induction false} Sound16to32(flags: ConversionFlags)
    ensures Sound(From16to32(flags))
  {
    hide Step16to32;
  }

  lemma {:induction false} Sound32to8(flags: ConversionFlags)
    ensures Sound(From32to8(flags))
  {
    hide Step32to8;
  }

  lemma {:induction false} Sound32to16(flags: ConversionFlags)
    ensures Sound(From32to16(flags))
  {
    hide Step32to16;
  }
}
