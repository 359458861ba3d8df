/**
 The loop that all six converters share: take one character off the source, see whether its units
 still fit into the target, and go on.  What a converter does with one character is a step function.
 */
module ConversionRun {
  datatype ConversionResult = ConversionOK | SourceExhausted | TargetExhausted | SourceIllegal

  /** The outcome of converting `used` more units before, which wrote `out`. */
  function After<T>(used: nat, out: seq<T>, rest: Outcome<T>): Outcome<T> {
    Outcome(used + rest.used, out + rest.out, rest.result)
  }

  lemma {:induction false} AfterTwice<T>(used: nat, out: seq<T>, used': nat, out': seq<T>, rest: Outcome<T>)
    ensures After(used, out, After(used', out', rest)) == After(used + used', out + out', rest)
  {
    assert out + (out' + rest.out) == (out + out') + rest.out;
  }

  lemma {:induction false} AfterParts<T>(used: nat, out: seq<T>, rest: Outcome<T>)
    ensures var r := After(used, out, rest);
      r.used == used + rest.used && r.out == out + rest.out && r.result == rest.result
  {
  }

  /**
   What happens at the start of a non-empty source.  With less than `need` room in the target the
   target is exhausted.  Otherwise either conversion stops, or `used` units are taken off the source
   and `out` is written; `bad` marks a character that makes the final result SourceIllegal.
   */
  datatype Step<T> =
    | Halt(need: nat, why: ConversionResult)
    | Put(need: nat, used: nat, out: seq<T>, bad: bool)

  /** How much of the source was consumed, what was written, and what was returned. */
  datatype Outcome<T> = Outcome(used: nat, out: seq<T>, result: ConversionResult)

  /** The step takes something off the source, and what it writes fits into the room it asks for. */
  ghost predicate Sound<S(!new), T>(step: seq<S> -> Step<T>) {
    forall s: seq<S> :: s != [] && step(s).Put? ==>
      1 <= step(s).used <= |s| && |step(s).out| <= step(s).need
  }

  /** Convert src into a target with the given room; `result` is what is returned at the end. */
  ghost function Run<S(!new), T>(step: seq<S> -> Step<T>, src: seq<S>, room: nat, result: ConversionResult): Outcome<T>
    requires Sound(step)
    decreases |src|
  {
    if src == [] then Outcome(0, [], result)
    else
      var now := step(src);
      if now.need > room then Outcome(0, [], TargetExhausted)
      else if now.Halt? then Outcome(0, [], now.why)
      else
        var rest := Run(step, src[now.used..], room - |now.out|, if now.bad then SourceIllegal else result);
        After(now.used, now.out, rest)
  }

  /** Convert src into a target without bounds. */
  ghost function Total<S(!new), T>(step: seq<S> -> Step<T>, src: seq<S>, result: ConversionResult): Outcome<T>
    requires Sound(step)
    decreases |src|
  {
    if src == [] then Outcome(0, [], result)
    else
      var now := step(src);
      if now.Halt? then Outcome(0, [], now.why)
      else
        var rest := Total(step, src[now.used..], if now.bad then SourceIllegal else result);
        After(now.used, now.out, rest)
  }

  ghost predicate NeverBad<S(!new), T>(step: seq<S> -> Step<T>) {
    forall s: seq<S> :: s != [] && step(s).Put? ==> !step(s).bad
  }

  /** No step stops with a full target of its own accord. */
  ghost predicate HaltsForSource<S(!new), T>(step: seq<S> -> Step<T>) {
    forall s: seq<S> :: s != [] && step(s).Halt? ==>
      step(s).why == SourceExhausted || step(s).why == SourceIllegal
  }

  lemma {:induction false} RunBounds<S(!new), T>(step: seq<S> -> Step<T>, src: seq<S>, room: nat,
        result: ConversionResult)
    requires Sound(step)
    ensures Run(step, src, room, result).used <= |src| && |Run(step, src, room, result).out| <= room
    decreases |src|
  {
    if src != [] && step(src).Put? && step(src).need <= room {
      RunBounds(step, src[step(src).used..], room - |step(src).out|, if step(src).bad then SourceIllegal else result);
    }
  }

  lemma {:induction false} TotalBounds<S(!new), T>(step: seq<S> -> Step<T>, src: seq<S>, result: ConversionResult)
    requires Sound(step)
    ensures Total(step, src, result).used <= |src|
    decreases |src|
  {
    if src != [] && step(src).Put? {
      TotalBounds(step, src[step(src).used..], if step(src).bad then SourceIllegal else result);
    }
  }

  /**
   A bounded conversion that does not exhaust its target is the unbounded one.  One that does has
   converted a first part of the source, and going on from there gives the rest.
   */
  lemma {:induction false} RunIsPrefixOfTotal<S(!new), T>(step: seq<S> -> Step<T>, src: seq<S>, room: nat)
    requires Sound(step) && NeverBad(step) && HaltsForSource(step)
    ensures var r := Run(step, src, room, ConversionOK);
      && r.used <= |src|
      && Total(step, src, ConversionOK)
         == (if r.result != TargetExhausted then r
             else After(r.used, r.out, Total(step, src[r.used..], ConversionOK)))
    decreases |src|
  {
    hide Run, Total, HaltsForSource, After;
    RunBounds(step, src, room, ConversionOK);
    if src != [] && step(src).need <= room && step(src).Put? {
      RunPut(step, src, room);
      hide NeverBad;
      var now := step(src);
      var next := src[now.used..];
      RunIsPrefixOfTotal(step, next, room - |now.out|);
      var tail := Run(step, next, room - |now.out|, ConversionOK);
      assert next[tail.used..] == src[now.used + tail.used..];
      AfterTwice(now.used, now.out, tail.used, tail.out, Total(step, next[tail.used..], ConversionOK));
      AfterParts(now.used, now.out, tail);
    } else {
      RunStop(step, src, room);
    }
  }

  lemma {:induction false} RunStop<S(!new), T>(step: seq<S> -> Step<T>, src: seq<S>, room: nat)
    requires Sound(step) && HaltsForSource(step)
    requires src == [] || step(src).Halt? || step(src).need > room
    ensures var r := Run(step, src, room, ConversionOK);
      && r.used == 0 && r.out == []
      && Total(step, src, ConversionOK)
         == (if r.result != TargetExhausted then r else After(0, [], Total(step, src[0..], ConversionOK)))
  {
    assert src[0..] == src;
  }

  lemma {:induction false} RunPut<S(!new), T>(step: seq<S> -> Step<T>, src: seq<S>, room: nat)
    requires Sound(step) && NeverBad(step) && src != [] && step(src).Put?
    ensures var now := step(src);
      && now.used <= |src| && |now.out| <= now.need
      && (now.need <= room ==>
            Run(step, src, room, ConversionOK)
            == After(now.used, now.out, Run(step, src[now.used..], room - |now.out|, ConversionOK)))
      && Total(step, src, ConversionOK) == After(now.used, now.out, Total(step, src[now.used..], ConversionOK))
  {
  }

  /** Convert into one target after the other, as long as the target is what stops the conversion. */
  ghost function RunSeries<S(!new), T>(step: seq<S> -> Step<T>, src: seq<S>, rooms: seq<nat>): Outcome<T>
    requires Sound(step)
    decreases |rooms|
  {
    if rooms == [] then Outcome(0, [], TargetExhausted)
    else
      RunBounds(step, src, rooms[0], ConversionOK);
      var first := Run(step, src, rooms[0], ConversionOK);
      if first.result != TargetExhausted then first
      else
        var rest := RunSeries(step, src[first.used..], rooms[1..]);
        After(first.used, first.out, rest)
  }

  /** Any series of bounded targets that is not used up gives the unbounded conversion. */
  lemma {:induction false} SeriesIsTotal<S(!new), T>(step: seq<S> -> Step<T>, src: seq<S>, rooms: seq<nat>)
    requires Sound(step) && NeverBad(step) && HaltsForSource(step)
    requires RunSeries(step, src, rooms).result != TargetExhausted
    ensures RunSeries(step, src, rooms) == Total(step, src, ConversionOK)
    decreases |rooms|
  {
    var first := Run(step, src, rooms[0], ConversionOK);
    RunIsPrefixOfTotal(step, src, rooms[0]);
    if first.result == TargetExhausted {
      SeriesIsTotal(step, src[first.used..], rooms[1..]);
    }
  }

  /** With at least m room each time, where no step needs more, |src| + 1 targets are enough. */
  lemma {:induction false} SeriesFinishes<S(!new), T>(step: seq<S> -> Step<T>, src: seq<S>, rooms: seq<nat>, m: nat)
    requires Sound(step) && HaltsForSource(step)
    requires forall s: seq<S> :: s != [] ==> step(s).need <= m
    requires |rooms| > |src| && forall k :: 0 <= k < |rooms| ==> rooms[k] >= m
    ensures RunSeries(step, src, rooms).result != TargetExhausted
    decreases |rooms|
  {
    var first := Run(step, src, rooms[0], ConversionOK);
    RunBounds(step, src, rooms[0], ConversionOK);
    if first.result == TargetExhausted {
      assert first.used > 0;
      SeriesFinishes(step, src[first.used..], rooms[1..], m);
    }
  }

  /** What a step takes off the source depends only on that. */
  ghost predicate Local<S(!new), T>(step: seq<S> -> Step<T>) {
    forall s: seq<S>, m: nat :: s != [] && step(s).Put? && step(s).used <= m <= |s| ==> step(s[..m]) == step(s)
  }

  /**
   On every return, the units written are the conversion of just the source units consumed: those
   end at a character boundary.
   */
  lemma {:induction false} ConsumedPrefix<S(!new), T>(step: seq<S> -> Step<T>, src: seq<S>, room: nat)
    requires Sound(step) && NeverBad(step) && Local(step)
    ensures var r := Run(step, src, room, ConversionOK);
      r.used <= |src| && Total(step, src[..r.used], ConversionOK) == Outcome(r.used, r.out, ConversionOK)
    decreases |src|
  {
    hide Total, Run;
    RunBounds(step, src, room, ConversionOK);
    if src != [] && step(src).Put? && step(src).need <= room {
      var now := step(src);
      RunPut(step, src, room);
      ConsumedPrefix(step, src[now.used..], room - |now.out|);
      var r := Run(step, src, room, ConversionOK);
      var prefix := src[..r.used];
      assert step(prefix) == now;
      RunPut(step, prefix, room);
      assert prefix[now.used..] == src[now.used..][..r.used - now.used];
    } else {
      NothingConsumed(step, src, room);
    }
  }

  lemma {:induction false} NothingConsumed<S(!new), T>(step: seq<S> -> Step<T>, src: seq<S>, room: nat)
    requires Sound(step) && (src == [] || step(src).Halt? || step(src).need > room)
    ensures var r := Run(step, src, room, ConversionOK);
      r.used == 0 && r.out == [] && Total(step, src[..0], ConversionOK) == Outcome(0, [], ConversionOK)
  {
  }
}
