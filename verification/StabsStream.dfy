/**
 What a STABS section says, entry by entry: the calls that its entries call for, as one pass over the
 entries with a mode.  The reader itself is a set of nested loops that look at some entries again.
 */
module StabsStream {
  import opened ByteCursors
  import opened CText
  import opened Words

  // ----- entries

  const N_UNDF: Byte := 0x00
  const N_FUN: Byte := 0x24
  const N_SLINE: Byte := 0x44
  const N_SO: Byte := 0x64
  const N_SOL: Byte := 0x84

  /** One entry of the section; `descriptor` is the bit pattern of its 16-bit field. */
  datatype Entry = Entry(nameOffset: nat, kind: nat, other: nat, descriptor: nat, value: Address)

  /** The size of values, and of whole entries: a name offset, a type, another byte, a descriptor and a value. */
  type ValueSize = n: nat | n == 4 || n == 8 witness 4

  function EntrySize(valueSize: ValueSize): (n: nat)
    ensures n > 0
  {
    8 + valueSize
  }

  /** The number of whole entries in a section. */
  function Count(bytes: seq<Byte>, valueSize: ValueSize): nat { |bytes| / EntrySize(valueSize) }

  lemma {:induction false} EntryFits(bytes: seq<Byte>, valueSize: ValueSize, k: nat)
    ensures k < Count(bytes, valueSize) <==> (k + 1) * EntrySize(valueSize) <= |bytes|
  {
  }

  lemma {:induction false} EightBytes(v: nat, size: nat)
    requires v < Power(size) && size <= 8
    ensures v < ADDRESS_SPACE
  {
    PowerGrows(size, 8);
    assert Power(2) == 0x1_0000;
    assert Power(4) == 0x1_0000_0000;
    assert Power(6) == 0x1_0000_0000_0000;
    assert Power(8) == ADDRESS_SPACE;
  }

  function EntryAt(bytes: seq<Byte>, bigEndian: bool, valueSize: ValueSize, k: nat): Entry
    requires k < Count(bytes, valueSize)
  {
    EntryFits(bytes, valueSize, k);
    var at := k * EntrySize(valueSize);
    EightBytes(Number(bytes[at + 8..at + 8 + valueSize], bigEndian), valueSize);
    Entry(Number(bytes[at..at + 4], bigEndian), Number(bytes[at + 4..at + 5], bigEndian),
          Number(bytes[at + 5..at + 6], bigEndian), Number(bytes[at + 6..at + 8], bigEndian),
          Number(bytes[at + 8..at + 8 + valueSize], bigEndian))
  }

  function Entries(bytes: seq<Byte>, bigEndian: bool, valueSize: ValueSize): (es: seq<Entry>)
    ensures |es| == Count(bytes, valueSize)
  {
    seq(Count(bytes, valueSize), k requires 0 <= k < Count(bytes, valueSize) => EntryAt(bytes, bigEndian, valueSize, k))
  }

  // ----- calls

  /** Calls of the handler's functions.  No name stands for the null pointer. */
  datatype Call =
    | StartCompilationUnit(name: string, address: Address, buildDirectory: string)
    | EndCompilationUnit(address: Address)
    | StartFunction(name: string, address: Address)
    | EndFunction(address: Address)
    | LineCall(address: Address, name: string, number: nat)

  /** A line met before its function. */
  datatype QueuedLine = QueuedLine(address: Address, filename: string, number: nat)

  datatype Section = Section(entries: seq<Entry>, strings: string, unitized: bool)

  datatype Mode = Outside | AfterDirectory(directory: string) | InUnit | InFunction(address: Address)

  datatype State = State(
    mode: Mode, stringOffset: Address, nextOffset: Address, source: string, queued: seq<QueuedLine>)

  const START: State := State(Outside, 0, 0, "", [])

  /** The sum of two offsets as an unsigned number; the program takes it for a signed one. */
  function Offset(stringOffset: Address, e: Entry): Address { (stringOffset + e.nameOffset) % ADDRESS_SPACE }

  /** The string for an entry; offsets that are negative or too large mean the first string. */
  function Symbol(strings: string, stringOffset: Address, e: Entry): string {
    var offset := Offset(stringOffset, e);
    CString(strings[if 2 * offset >= ADDRESS_SPACE || offset >= |strings| then 0 else offset..])
  }

  lemma {:induction false} StringEndsAtNul(name: string, after: string)
    requires NUL !in name
    ensures CString(name + [NUL] + after) == name
  {
    if name == [] {
      assert (name + [NUL] + after)[0] == NUL;
    } else {
      assert name[0] in name && forall c <- name[1..] :: c in name;
      assert (name + [NUL] + after)[1..] == name[1..] + [NUL] + after;
      StringEndsAtNul(name[1..], after);
    }
  }

  /** The string of an entry is the one at its offset from where the strings of its unit begin. */
  lemma {:induction false} SymbolIsAtOffset(before: string, name: string, after: string, stringOffset: Address,
      e: Entry)
    requires NUL !in name && stringOffset + e.nameOffset == |before| && 2 * |before| < ADDRESS_SPACE
    ensures Symbol(before + name + [NUL] + after, stringOffset, e) == name
  {
    hide CString;
    var strings := before + name + [NUL] + after;
    assert Offset(stringOffset, e) == |before| < |strings|;
    assert strings[|before|..] == name + [NUL] + after;
    StringEndsAtNul(name, after);
  }

  /** Behind the end, and where the offset as a signed number is negative, it is the first string. */
  lemma {:induction false} SymbolElsewhere(first: string, after: string, stringOffset: Address, e: Entry)
    requires NUL !in first && stringOffset + e.nameOffset < ADDRESS_SPACE
    requires var strings := first + [NUL] + after;
      stringOffset + e.nameOffset >= |strings| || 2 * (stringOffset + e.nameOffset) >= ADDRESS_SPACE
    ensures Symbol(first + [NUL] + after, stringOffset, e) == first
  {
    var strings := first + [NUL] + after;
    assert strings[0..] == strings;
    StringEndsAtNul(first, after);
  }

  predicate IsDirectory(name: string) { name != "" && name[|name| - 1] == '/' }

  function FunctionName(symbol: string): string { Word(symbol, {':'}) }

  function LineCalls(queued: seq<QueuedLine>): seq<Call> {
    if queued == [] then []
    else [LineCall(queued[0].address, queued[0].filename, queued[0].number)] + LineCalls(queued[1..])
  }

  // ----- one entry

  function Rank(mode: Mode): nat {
    match mode
    case Outside => 0
    case AfterDirectory(_) => 1
    case InUnit => 1
    case InFunction(_) => 2
  }

  datatype Effect = Effect(calls: seq<Call>, state: State)

  function Before(calls: seq<Call>, rest: Effect): Effect { rest.(calls := calls + rest.calls) }

  /** The first entry with a file name starts a unit. */
  function StartUnit(name: string, e: Entry, directory: string, st: State): Effect {
    if name == "" then Effect([], st.(mode := Outside))
    else Effect([StartCompilationUnit(name, e.value, directory)], st.(mode := InUnit, source := name))
  }

  function Step(s: Section, st: State, e: Entry): Effect
    decreases Rank(st.mode)
  {
    var name := Symbol(s.strings, st.stringOffset, e);
    match st.mode
    case Outside =>
      if e.kind == N_SO then
        if IsDirectory(name) then Effect([], st.(mode := AfterDirectory(name))) else StartUnit(name, e, "", st)
      else if e.kind == N_UNDF && s.unitized then Effect([], st.(stringOffset := st.nextOffset, nextOffset := e.value))
      else Effect([], st)
    case AfterDirectory(directory) =>
      if e.kind == N_SO then StartUnit(name, e, directory, st) else Step(s, st.(mode := Outside), e)
    case InUnit =>
      if e.kind == N_SO then
        if name == "" then Effect([EndCompilationUnit(e.value)], st.(mode := Outside, queued := []))
        else Before([EndCompilationUnit(0)], Step(s, st.(mode := Outside, queued := []), e))
      else if e.kind == N_FUN then
        Effect([StartFunction(FunctionName(name), e.value)] + LineCalls(st.queued),
               st.(mode := InFunction(e.value), queued := []))
      else if e.kind == N_SLINE then
        Effect([], st.(queued := st.queued + [QueuedLine(e.value, st.source, e.descriptor)]))
      else if e.kind == N_SOL then Effect([], st.(source := name))
      else Effect([], st)
    case InFunction(address) =>
      if e.kind == N_SO then Before([EndFunction(e.value)], Step(s, st.(mode := InUnit), e))
      else if e.kind == N_FUN then
        if name == "" then Effect([EndFunction(WrapAdd(address, e.value))], st.(mode := InUnit))
        else Before([EndFunction(e.value)], Step(s, st.(mode := InUnit), e))
      else if e.kind == N_SLINE then Effect([LineCall(WrapAdd(address, e.value), st.source, e.descriptor)], st)
      else if e.kind == N_SOL then Effect([], st.(source := name))
      else Effect([], st)
  }

  function AtEnd(mode: Mode): seq<Call> {
    match mode
    case Outside => []
    case AfterDirectory(_) => []
    case InUnit => [EndCompilationUnit(0)]
    case InFunction(_) => [EndFunction(0), EndCompilationUnit(0)]
  }

  /** All calls for the entries from k on. */
  function Calls(s: Section, st: State, k: nat): seq<Call>
    requires k <= |s.entries|
    decreases |s.entries| - k
  {
    if k == |s.entries| then AtEnd(st.mode)
    else
      var effect := Step(s, st, s.entries[k]);
      effect.calls + Calls(s, effect.state, k + 1)
  }

  // ----- the protocol: units hold functions, and functions hold lines

  datatype Place = Nowhere | InsideUnit | InsideFunction

  datatype Walk = Broken | At(place: Place)

  function StepTo(place: Place, call: Call): Walk {
    match call
    case StartCompilationUnit(_, _, _) => if place.Nowhere? then At(InsideUnit) else Broken
    case EndCompilationUnit(_) => if place.InsideUnit? then At(Nowhere) else Broken
    case StartFunction(_, _) => if place.InsideUnit? then At(InsideFunction) else Broken
    case EndFunction(_) => if place.InsideFunction? then At(InsideUnit) else Broken
    case LineCall(_, _, _) => if place.InsideFunction? then At(InsideFunction) else Broken
  }

  /** Where a series of calls leads. */
  function WalkTo(place: Place, calls: seq<Call>): Walk
    decreases |calls|
  {
    if calls == [] then At(place)
    else
      match StepTo(place, calls[0])
      case Broken => Broken
      case At(next) => WalkTo(next, calls[1..])
  }

  function PlaceOf(mode: Mode): Place {
    match mode
    case Outside => Nowhere
    case AfterDirectory(_) => Nowhere
    case InUnit => InsideUnit
    case InFunction(_) => InsideFunction
  }

  lemma {:induction false} WalkBoth(place: Place, a: seq<Call>, b: seq<Call>)
    ensures WalkTo(place, a + b) == if WalkTo(place, a).Broken? then Broken else WalkTo(WalkTo(place, a).place, b)
    decreases |a|
  {
    if a == [] {
      assert a + b == b;
    } else {
      assert (a + b)[1..] == a[1..] + b;
      var next := StepTo(place, a[0]);
      if next.At? {
        WalkBoth(next.place, a[1..], b);
      }
    }
  }

  lemma {:induction false} WalkOfLines(queued: seq<QueuedLine>)
    ensures WalkTo(InsideFunction, LineCalls(queued)) == At(InsideFunction)
  {
    if queued != [] {
      assert LineCalls(queued)[1..] == LineCalls(queued[1..]);
      WalkOfLines(queued[1..]);
    }
  }

  lemma {:induction false} WalkOfOne(place: Place, call: Call)
    ensures WalkTo(place, [call]) == StepTo(place, call)
  {
    assert [call][1..] == [];
  }

  /** Each entry's calls lead from the place of the mode before it to that of the mode behind it. */
  lemma {:induction false} StepFollowsProtocol(s: Section, st: State, e: Entry)
    ensures var effect := Step(s, st, e); WalkTo(PlaceOf(st.mode), effect.calls) == At(PlaceOf(effect.state.mode))
    decreases Rank(st.mode)
  {
    hide Symbol, FunctionName, IsDirectory, WalkTo;
    var effect, place := Step(s, st, e), PlaceOf(st.mode);
    WalkOfNone(place);
    var name := Symbol(s.strings, st.stringOffset, e);
    match st.mode
    case Outside =>
      WalkOfOne(place, StartCompilationUnit(name, e.value, ""));
    case AfterDirectory(directory) =>
      WalkOfOne(place, StartCompilationUnit(name, e.value, directory));
      StepFollowsProtocol(s, st.(mode := Outside), e);
    case InUnit =>
      WalkOfOne(place, EndCompilationUnit(e.value));
      WalkOfOne(place, EndCompilationUnit(0));
      StepFollowsProtocol(s, st.(mode := Outside, queued := []), e);
      WalkBoth(place, [EndCompilationUnit(0)], Step(s, st.(mode := Outside, queued := []), e).calls);
      WalkOfOne(place, StartFunction(FunctionName(name), e.value));
      WalkOfLines(st.queued);
      WalkBoth(place, [StartFunction(FunctionName(name), e.value)], LineCalls(st.queued));
    case InFunction(address) =>
      WalkOfOne(place, EndFunction(e.value));
      WalkOfOne(place, EndFunction(WrapAdd(address, e.value)));
      WalkOfOne(place, LineCall(WrapAdd(address, e.value), st.source, e.descriptor));
      StepFollowsProtocol(s, st.(mode := InUnit), e);
      WalkBoth(place, [EndFunction(e.value)], Step(s, st.(mode := InUnit), e).calls);
  }

  lemma {:induction false} WalkOfNone(place: Place)
    ensures WalkTo(place, []) == At(place)
  {
  }

  lemma {:induction false} WalkAtEnd(mode: Mode)
    ensures WalkTo(PlaceOf(mode), AtEnd(mode)) == At(Nowhere)
  {
    WalkOfOne(InsideUnit, EndCompilationUnit(0));
    WalkOfOne(InsideFunction, EndFunction(0));
    WalkBoth(InsideFunction, [EndFunction(0)], [EndCompilationUnit(0)]);
    assert [EndFunction(0)] + [EndCompilationUnit(0)] == [EndFunction(0), EndCompilationUnit(0)];
  }

  /** The calls for any section are properly nested, and close all that they open. */
  lemma {:induction false} CallsFollowProtocol(s: Section, st: State, k: nat)
    requires k <= |s.entries|
    ensures WalkTo(PlaceOf(st.mode), Calls(s, st, k)) == At(Nowhere)
    decreases |s.entries| - k
  {
    hide Step, WalkTo, AtEnd;
    if k == |s.entries| {
      WalkAtEnd(st.mode);
    } else {
      var effect := Step(s, st, s.entries[k]);
      StepFollowsProtocol(s, st, s.entries[k]);
      CallsFollowProtocol(s, effect.state, k + 1);
      WalkBoth(PlaceOf(st.mode), effect.calls, Calls(s, effect.state, k + 1));
    }
  }

  /** So is any beginning of them, where a handler may have stopped the reader. */
  lemma {:induction false} BeginningFollowsProtocol(calls: seq<Call>, all: seq<Call>)
    requires calls <= all && WalkTo(Nowhere, all).At?
    ensures WalkTo(Nowhere, calls).At?
  {
    assert all == calls + all[|calls|..];
    WalkBoth(Nowhere, calls, all[|calls|..]);
  }

  lemma {:induction false} CallsStep(s: Section, st: State, k: nat)
    requires k <= |s.entries|
    ensures k == |s.entries| ==> Calls(s, st, k) == AtEnd(st.mode)
    ensures k < |s.entries| ==>
      (var effect := Step(s, st, s.entries[k]); Calls(s, st, k) == effect.calls + Calls(s, effect.state, k + 1))
  {
  }
}
