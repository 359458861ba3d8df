/**
 The structure of a STABS section: units, the functions in them and their lines, each with the entries
 that stand for it.  The calls for a section are read off this structure without any mode or state.
 */
module StabsGrammar {
  import opened ByteCursors
  import opened CText
  import opened OrderedKeys
  import opened StabsStream
  import opened Words

  // ----- the structure

  /** The entry that starts a function, those inside, and one that ends it, if there is one just for this. */
  datatype FunctionTree = FunctionTree(name: string, head: Entry, body: seq<Entry>, tail: Option<Entry>)

  datatype Part = Loose(e: Entry) | Whole(f: FunctionTree)

  datatype UnitTree = UnitTree(directory: Option<Entry>, head: Entry, parts: seq<Part>, tail: Option<Entry>)

  /** Outside units there may be other entries, stray end markers, and directories with no unit behind them. */
  datatype Top = Other(e: Entry) | Marker(directory: Option<Entry>, e: Entry) | Alone(e: Entry) | Unit(u: UnitTree)

  function Few(e: Option<Entry>): seq<Entry> { if e.Some? then [e.value] else [] }

  function FunctionEntries(f: FunctionTree): seq<Entry> { [f.head] + (f.body + Few(f.tail)) }

  function PartEntries(p: Part): seq<Entry> { if p.Loose? then [p.e] else FunctionEntries(p.f) }

  function PartsEntries(ps: seq<Part>): seq<Entry> {
    if ps == [] then [] else PartEntries(ps[0]) + PartsEntries(ps[1..])
  }

  function UnitEntries(u: UnitTree): seq<Entry> {
    Few(u.directory) + ([u.head] + (PartsEntries(u.parts) + Few(u.tail)))
  }

  function TopEntries(t: Top): seq<Entry> {
    match t
    case Other(e) => [e]
    case Marker(directory, e) => Few(directory) + [e]
    case Alone(e) => [e]
    case Unit(u) => UnitEntries(u)
  }

  function TopsEntries(ts: seq<Top>): seq<Entry> { if ts == [] then [] else TopEntries(ts[0]) + TopsEntries(ts[1..]) }

  // ----- which structures there are; `rest` is what follows

  /** The part of a string before its first colon, or all of it if there is none. */
  predicate IsBeforeColon(name: string, symbol: string) {
    name <= symbol && ':' !in name && (|name| < |symbol| ==> symbol[|name|] == ':')
  }

  predicate IsInside(e: Entry) { e.kind != N_SO && e.kind != N_FUN }

  /** Where the strings of the unit begin. */
  type StringsAt = (string, Address)

  function Named(at: StringsAt, e: Entry): string { Symbol(at.0, at.1, e) }

  /** Without an end marker of its own a function ends where another begins, or a unit, or the section ends. */
  predicate IsFunctionTree(f: FunctionTree, rest: seq<Entry>, at: StringsAt) {
    && f.head.kind == N_FUN && IsBeforeColon(f.name, Named(at, f.head)) && (forall e <- f.body :: IsInside(e))
    && if f.tail.Some? then f.tail.value.kind == N_FUN && Named(at, f.tail.value) == ""
       else rest == [] || rest[0].kind == N_SO || (rest[0].kind == N_FUN && Named(at, rest[0]) != "")
  }

  predicate AreParts(ps: seq<Part>, rest: seq<Entry>, at: StringsAt) {
    ps == []
    || (AreParts(ps[1..], rest, at)
        && if ps[0].Loose? then IsInside(ps[0].e) else IsFunctionTree(ps[0].f, PartsEntries(ps[1..]) + rest, at))
  }

  predicate IsDirectoryEntry(e: Entry, at: StringsAt) { e.kind == N_SO && IsDirectory(Named(at, e)) }

  predicate IsUnitTree(u: UnitTree, rest: seq<Entry>, at: StringsAt) {
    && (if u.directory.Some? then IsDirectoryEntry(u.directory.value, at) else !IsDirectory(Named(at, u.head)))
    && u.head.kind == N_SO && Named(at, u.head) != "" && AreParts(u.parts, Few(u.tail) + rest, at)
    && if u.tail.Some? then u.tail.value.kind == N_SO && Named(at, u.tail.value) == ""
       else rest == [] || (rest[0].kind == N_SO && Named(at, rest[0]) != "")
  }

  predicate IsTop(t: Top, rest: seq<Entry>, at: StringsAt) {
    match t
    case Other(e) => e.kind != N_SO
    case Marker(directory, e) =>
      && (directory.Some? ==> IsDirectoryEntry(directory.value, at)) && e.kind == N_SO && Named(at, e) == ""
    case Alone(e) => IsDirectoryEntry(e, at) && (rest == [] || rest[0].kind != N_SO)
    case Unit(u) => IsUnitTree(u, rest, at)
  }

  /** A header entry says how long the strings of the unit are that follows: those of the next begin behind them. */
  function Offsets(t: Top, offset: Address, next: Address, unitized: bool): (Address, Address) {
    if t.Other? && t.e.kind == N_UNDF && unitized then (next, t.e.value) else (offset, next)
  }

  predicate AreTops(ts: seq<Top>, strings: string, unitized: bool, offset: Address, next: Address)
    decreases |ts|
  {
    ts == []
    || (IsTop(ts[0], TopsEntries(ts[1..]), (strings, offset))
        && var later := Offsets(ts[0], offset, next, unitized);
           AreTops(ts[1..], strings, unitized, later.0, later.1))
  }

  // ----- the calls

  /** The file that lines behind these entries belong to. */
  function FileAfter(es: seq<Entry>, file: string, at: StringsAt): string {
    if es == [] then file else FileAfter(es[1..], if es[0].kind == N_SOL then Named(at, es[0]) else file, at)
  }

  /** The lines of the entries inside a function; their values are offsets from its start. */
  function BodyLines(body: seq<Entry>, address: Address, file: string, at: StringsAt): seq<QueuedLine> {
    if body == [] then []
    else if body[0].kind == N_SLINE then
      [QueuedLine(WrapAdd(address, body[0].value), file, body[0].descriptor)] + BodyLines(body[1..], address, file, at)
    else BodyLines(body[1..], address, FileAfter([body[0]], file, at), at)
  }

  /** Lines before a function have addresses. */
  function LooseLine(e: Entry, file: string): seq<QueuedLine> {
    if e.kind == N_SLINE then [QueuedLine(e.value, file, e.descriptor)] else []
  }

  function EndOf(f: FunctionTree, rest: seq<Entry>): Address {
    if f.tail.Some? then WrapAdd(f.head.value, f.tail.value.value) else if rest == [] then 0 else rest[0].value
  }

  function FunctionCalls(f: FunctionTree, file: string, before: seq<QueuedLine>, rest: seq<Entry>,
      at: StringsAt): seq<Call> {
    [StartFunction(f.name, f.head.value)] + LineCalls(before + BodyLines(f.body, f.head.value, file, at))
    + [EndFunction(EndOf(f, rest))]
  }

  function PartsCalls(ps: seq<Part>, file: string, before: seq<QueuedLine>, rest: seq<Entry>,
      at: StringsAt): seq<Call> {
    if ps == [] then []
    else
      var p, more := ps[0], PartsEntries(ps[1..]) + rest;
      if p.Loose? then PartsCalls(ps[1..], FileAfter([p.e], file, at), before + LooseLine(p.e, file), rest, at)
      else FunctionCalls(p.f, file, before, more, at) + PartsCalls(ps[1..], FileAfter(p.f.body, file, at), [], rest, at)
  }

  function UnitCalls(u: UnitTree, rest: seq<Entry>, at: StringsAt): seq<Call> {
    var directory := if u.directory.Some? then Named(at, u.directory.value) else "";
    [StartCompilationUnit(Named(at, u.head), u.head.value, directory)]
    + (PartsCalls(u.parts, Named(at, u.head), [], Few(u.tail) + rest, at)
       + [EndCompilationUnit(if u.tail.Some? then u.tail.value.value else 0)])
  }

  function TopsCalls(ts: seq<Top>, strings: string, unitized: bool, offset: Address, next: Address): seq<Call>
    decreases |ts|
  {
    if ts == [] then []
    else
      var later := Offsets(ts[0], offset, next, unitized);
      (if ts[0].Unit? then UnitCalls(ts[0].u, TopsEntries(ts[1..]), (strings, offset)) else [])
      + TopsCalls(ts[1..], strings, unitized, later.0, later.1)
  }

  // ----- one pass over the entries gives these calls

  /** The calls for entries, wherever in the section they are. */
  function Run(s: Section, st: State, es: seq<Entry>): seq<Call>
    decreases |es|
  {
    if es == [] then AtEnd(st.mode)
    else
      var effect := Step(s, st, es[0]);
      effect.calls + Run(s, effect.state, es[1..])
  }

  lemma {:induction false} RunIsCalls(s: Section, st: State, k: nat)
    requires k <= |s.entries|
    ensures Calls(s, st, k) == Run(s, st, s.entries[k..])
    decreases |s.entries| - k
  {
    hide Step, AtEnd;
    if k < |s.entries| {
      RunIsCalls(s, Step(s, st, s.entries[k]).state, k + 1);
      assert s.entries[k..][1..] == s.entries[k + 1..];
    }
  }

  lemma {:induction false} RunFirst(s: Section, st: State, e: Entry, rest: seq<Entry>)
    ensures var effect := Step(s, st, e); Run(s, st, [e] + rest) == effect.calls + Run(s, effect.state, rest)
  {
    hide Step;
    assert ([e] + rest)[1..] == rest;
  }

  lemma {:induction false} LineCallsBoth(a: seq<QueuedLine>, b: seq<QueuedLine>)
    ensures LineCalls(a + b) == LineCalls(a) + LineCalls(b)
  {
    if a == [] {
      assert a + b == b;
    } else {
      assert (a + b)[1..] == a[1..] + b;
      LineCallsBoth(a[1..], b);
    }
  }

  lemma {:induction false} Regrouped<T>(a: seq<T>, b: seq<T>, c: seq<T>)
    ensures a + (b + c) == a + b + c
  {
  }

  /** The place of the strings in a state. */
  function At(s: Section, st: State): StringsAt { (s.strings, st.stringOffset) }

  lemma {:induction false} BeforeColonIsName(name: string, symbol: string)
    requires IsBeforeColon(name, symbol)
    ensures FunctionName(symbol) == name
  {
    if name == [] {
      assert symbol != [] ==> symbol[0] == ':';
    } else {
      assert name[0] in name && forall c <- name[1..] :: c in name;
      assert name[1..] <= symbol[1..];
      BeforeColonIsName(name[1..], symbol[1..]);
    }
  }

  lemma {:induction false} BodyStep(s: Section, st: State, address: Address, e: Entry)
    requires st.mode == InFunction(address) && IsInside(e)
    ensures Step(s, st, e) == Effect(LineCalls(BodyLines([e], address, st.source, At(s, st))),
                                     st.(source := FileAfter([e], st.source, At(s, st))))
  {
    hide Symbol, WrapAdd;
    assert [e][1..] == [];
    assert LineCalls([]) == [];
    var q := QueuedLine(WrapAdd(address, e.value), st.source, e.descriptor);
    assert [q][1..] == [];
    assert LineCalls([q]) == [LineCall(q.address, q.filename, q.number)];
  }

  lemma {:induction false} BodyLinesFirst(e: Entry, body: seq<Entry>, address: Address, file: string, at: StringsAt)
    ensures BodyLines([e] + body, address, file, at)
         == BodyLines([e], address, file, at) + BodyLines(body, address, FileAfter([e], file, at), at)
    ensures FileAfter([e] + body, file, at) == FileAfter(body, FileAfter([e], file, at), at)
  {
    hide Symbol, WrapAdd;
    assert ([e] + body)[1..] == body && [e][1..] == [];
  }

  lemma {:induction false} BodyRuns(s: Section, st: State, address: Address, body: seq<Entry>, rest: seq<Entry>)
    requires st.mode == InFunction(address) && forall e <- body :: IsInside(e)
    ensures Run(s, st, body + rest)
         == LineCalls(BodyLines(body, address, st.source, At(s, st)))
            + Run(s, st.(source := FileAfter(body, st.source, At(s, st))), rest)
    decreases |body|
  {
    if body == [] {
      assert body + rest == rest;
    } else {
      hide Run, Step, BodyLines, FileAfter, LineCalls;
      var e, at := body[0], At(s, st);
      var st' := st.(source := FileAfter([e], st.source, at));
      assert body == [e] + body[1..] && body + rest == [e] + (body[1..] + rest);
      RunFirst(s, st, e, body[1..] + rest);
      BodyStep(s, st, address, e);
      BodyRuns(s, st', address, body[1..], rest);
      BodyLinesFirst(e, body[1..], address, st.source, at);
      LineCallsBoth(BodyLines([e], address, st.source, at), BodyLines(body[1..], address, st'.source, at));
      Regrouped(LineCalls(BodyLines([e], address, st.source, at)),
                LineCalls(BodyLines(body[1..], address, st'.source, at)),
                Run(s, st'.(source := FileAfter(body[1..], st'.source, at)), rest));
    }
  }

  /** The end of a function. */
  lemma {:induction false} FunctionEnds(s: Section, st: State, f: FunctionTree, rest: seq<Entry>)
    requires st.mode == InFunction(f.head.value) && IsFunctionTree(f, rest, At(s, st))
    ensures Run(s, st, Few(f.tail) + rest) == [EndFunction(EndOf(f, rest))] + Run(s, st.(mode := InUnit), rest)
  {
    hide IsBeforeColon, Symbol, WrapAdd, IsDirectory, StartUnit, FunctionName, LineCalls;
    if f.tail.Some? {
      RunFirst(s, st, f.tail.value, rest);
    } else {
      assert Few(f.tail) + rest == rest;
      if rest == [] {
        assert [EndFunction(0), EndCompilationUnit(0)] == [EndFunction(0)] + [EndCompilationUnit(0)];
      } else {
        var effect := Step(s, st.(mode := InUnit), rest[0]);
        assert Step(s, st, rest[0]) == Before([EndFunction(rest[0].value)], effect);
        Regrouped([EndFunction(rest[0].value)], effect.calls, Run(s, effect.state, rest[1..]));
      }
    }
  }

  lemma {:induction false} FunctionRuns(s: Section, st: State, f: FunctionTree, rest: seq<Entry>)
    requires st.mode == InUnit && IsFunctionTree(f, rest, At(s, st))
    ensures Run(s, st, FunctionEntries(f) + rest)
         == FunctionCalls(f, st.source, st.queued, rest, At(s, st))
            + Run(s, st.(source := FileAfter(f.body, st.source, At(s, st)), queued := []), rest)
  {
    var at, behind := At(s, st), f.body + (Few(f.tail) + rest);
    var inside := st.(mode := InFunction(f.head.value), queued := []);
    var ending := inside.(source := FileAfter(f.body, st.source, at));
    var lines := BodyLines(f.body, f.head.value, st.source, at);
    var start, end := [StartFunction(f.name, f.head.value)], [EndFunction(EndOf(f, rest))];
    BeforeColonIsName(f.name, Named(at, f.head));
    FunctionStarts(s, st, f.head);
    hide Run, Step, IsBeforeColon, BodyLines, FileAfter, LineCalls, Symbol, EndOf;
    assert FunctionEntries(f) + rest == [f.head] + behind;
    RunFirst(s, st, f.head, behind);
    BodyRuns(s, inside, f.head.value, f.body, Few(f.tail) + rest);
    FunctionEnds(s, ending, f, rest);
    LineCallsBoth(st.queued, lines);
    var after := Run(s, ending.(mode := InUnit), rest);
    SameCalls(start, LineCalls(st.queued), LineCalls(lines), end, after);
  }

  lemma {:induction false} SameCalls<T>(a: seq<T>, b: seq<T>, c: seq<T>, d: seq<T>, e: seq<T>)
    ensures a + b + (c + (d + e)) == a + (b + c) + d + e
  {
  }

  lemma {:induction false} FunctionStarts(s: Section, st: State, e: Entry)
    requires st.mode == InUnit && e.kind == N_FUN
    ensures Step(s, st, e) == Effect(
      [StartFunction(FunctionName(Named(At(s, st), e)), e.value)] + LineCalls(st.queued),
      st.(mode := InFunction(e.value), queued := []))
  {
    hide FunctionName, Symbol, LineCalls;
  }

  lemma {:induction false} LooseRuns(s: Section, st: State, e: Entry, rest: seq<Entry>)
    requires st.mode == InUnit && IsInside(e)
    ensures Run(s, st, [e] + rest)
         == Run(s, st.(source := FileAfter([e], st.source, At(s, st)),
                        queued := st.queued + LooseLine(e, st.source)), rest)
  {
    hide FunctionName, Symbol, LineCalls;
    RunFirst(s, st, e, rest);
    hide Run;
    assert [e][1..] == [];
    assert st.queued + [] == st.queued;
    var effect := Step(s, st, e);
    assert effect.calls == [];
    assert [] + Run(s, effect.state, rest) == Run(s, effect.state, rest);
  }

  /** The state behind the parts of a unit. */
  ghost predicate IsBehind(st: State, st': State) { st' == st.(source := st'.source, queued := st'.queued) }

  lemma {:induction false} PartsRun(s: Section, st: State, ps: seq<Part>, rest: seq<Entry>) returns (st': State)
    requires st.mode == InUnit && AreParts(ps, rest, At(s, st))
    ensures IsBehind(st, st')
    ensures Run(s, st, PartsEntries(ps) + rest)
         == PartsCalls(ps, st.source, st.queued, rest, At(s, st)) + Run(s, st', rest)
    decreases |ps|
  {
    hide Run, FunctionCalls, FunctionEntries, FileAfter, LooseLine, IsFunctionTree, IsInside;
    var at := At(s, st);
    if ps == [] {
      st' := st;
      assert PartsEntries(ps) + rest == rest;
      assert [] + Run(s, st, rest) == Run(s, st, rest);
    } else {
      var more := PartsEntries(ps[1..]) + rest;
      Regrouped(PartEntries(ps[0]), PartsEntries(ps[1..]), rest);
      if ps[0].Loose? {
        LooseRuns(s, st, ps[0].e, more);
        st' := PartsRun(s, st.(source := FileAfter([ps[0].e], st.source, at),
                               queued := st.queued + LooseLine(ps[0].e, st.source)), ps[1..], rest);
      } else {
        var f := ps[0].f;
        FunctionRuns(s, st, f, more);
        st' := PartsRun(s, st.(source := FileAfter(f.body, st.source, at), queued := []), ps[1..], rest);
        Regrouped(FunctionCalls(f, st.source, st.queued, more, at),
                  PartsCalls(ps[1..], FileAfter(f.body, st.source, at), [], rest, at), Run(s, st', rest));
      }
    }
  }

  /** The end of a unit. */
  lemma {:induction false} UnitEnds(s: Section, st: State, u: UnitTree, rest: seq<Entry>)
    requires st.mode == InUnit && IsUnitTree(u, rest, At(s, st))
    ensures Run(s, st, Few(u.tail) + rest)
         == [EndCompilationUnit(if u.tail.Some? then u.tail.value.value else 0)]
            + Run(s, st.(mode := Outside, queued := []), rest)
  {
    hide Symbol, AreParts, IsDirectory, StartUnit;
    if u.tail.Some? {
      RunFirst(s, st, u.tail.value, rest);
    } else {
      assert Few(u.tail) + rest == rest;
      if rest == [] {
        assert [EndCompilationUnit(0)] + [] == [EndCompilationUnit(0)];
      } else {
        var effect := Step(s, st.(mode := Outside, queued := []), rest[0]);
        assert Step(s, st, rest[0]) == Before([EndCompilationUnit(0)], effect);
        Regrouped([EndCompilationUnit(0)], effect.calls, Run(s, effect.state, rest[1..]));
      }
    }
  }

  /** The start of a unit, with or without a directory. */
  lemma {:induction false} UnitStarts(s: Section, st: State, u: UnitTree, behind: seq<Entry>, rest: seq<Entry>)
    requires st.mode == Outside && IsUnitTree(u, rest, At(s, st))
    ensures var at := At(s, st);
      Run(s, st, Few(u.directory) + ([u.head] + behind))
        == [StartCompilationUnit(Named(at, u.head), u.head.value,
                                 if u.directory.Some? then Named(at, u.directory.value) else "")]
           + Run(s, st.(mode := InUnit, source := Named(at, u.head)), behind)
  {
    hide Symbol, AreParts, IsDirectory, Run;
    if u.directory.Some? {
      var middle := st.(mode := AfterDirectory(Named(At(s, st), u.directory.value)));
      RunFirst(s, st, u.directory.value, [u.head] + behind);
      assert [] + Run(s, middle, [u.head] + behind) == Run(s, middle, [u.head] + behind);
      RunFirst(s, middle, u.head, behind);
    } else {
      assert Few(u.directory) + ([u.head] + behind) == [u.head] + behind;
      RunFirst(s, st, u.head, behind);
    }
  }

  lemma {:induction false} UnitRuns(s: Section, st: State, u: UnitTree, rest: seq<Entry>) returns (st': State)
    requires st.mode == Outside && st.queued == [] && IsUnitTree(u, rest, At(s, st))
    ensures st' == st.(source := st'.source)
    ensures Run(s, st, UnitEntries(u) + rest) == UnitCalls(u, rest, At(s, st)) + Run(s, st', rest)
  {
    var at, tail := At(s, st), Few(u.tail) + rest;
    UnitStarts(s, st, u, PartsEntries(u.parts) + tail, rest);
    var inside := st.(mode := InUnit, source := Named(at, u.head));
    var ending := PartsRun(s, inside, u.parts, tail);
    UnitEnds(s, ending, u, rest);
    st' := ending.(mode := Outside, queued := []);
    hide Run, Symbol, PartsCalls, PartsEntries, IsDirectory;
    UnitInOrder(u, rest);
    var end := [EndCompilationUnit(if u.tail.Some? then u.tail.value.value else 0)];
    var calls := PartsCalls(u.parts, Named(at, u.head), [], tail, at);
    var start := [StartCompilationUnit(Named(at, u.head), u.head.value,
                                       if u.directory.Some? then Named(at, u.directory.value) else "")];
    UnitCallsInOrder(start, calls, end, Run(s, st', rest));
  }

  lemma {:induction false} UnitCallsInOrder<T>(a: seq<T>, b: seq<T>, c: seq<T>, d: seq<T>)
    ensures a + (b + (c + d)) == a + (b + c) + d
  {
  }

  lemma {:induction false} UnitInOrder(u: UnitTree, rest: seq<Entry>)
    ensures UnitEntries(u) + rest
         == Few(u.directory) + ([u.head] + (PartsEntries(u.parts) + (Few(u.tail) + rest)))
  {
    hide PartsEntries;
    Regrouped(PartsEntries(u.parts), Few(u.tail), rest);
    Regrouped([u.head], PartsEntries(u.parts) + Few(u.tail), rest);
    Regrouped(Few(u.directory), [u.head] + (PartsEntries(u.parts) + Few(u.tail)), rest);
  }

  /** What is outside units calls for nothing. */
  lemma {:induction false} OutsideRuns(s: Section, st: State, t: Top, rest: seq<Entry>)
    requires st.mode == Outside && !t.Unit? && IsTop(t, rest, At(s, st))
    ensures var later := Offsets(t, st.stringOffset, st.nextOffset, s.unitized);
      Run(s, st, TopEntries(t) + rest) == Run(s, st.(stringOffset := later.0, nextOffset := later.1), rest)
  {
    hide Symbol, IsDirectory;
    match t {
      case Other(e) => RunFirst(s, st, e, rest);
      case Marker(directory, e) =>
        if directory.Some? {
          var d := directory.value;
          assert [d] + [e] + rest == [d] + ([e] + rest);
          RunFirst(s, st, d, [e] + rest);
          RunFirst(s, st.(mode := AfterDirectory(Named(At(s, st), d))), e, rest);
        } else {
          assert [] + [e] + rest == [e] + rest;
          RunFirst(s, st, e, rest);
          EmptyIsNoDirectory();
        }
      case Alone(d) =>
        RunFirst(s, st, d, rest);
        var middle := st.(mode := AfterDirectory(Named(At(s, st), d)));
        if rest != [] {
          assert Step(s, middle, rest[0]) == Step(s, st, rest[0]);
        }
    }
  }

  lemma {:induction false} EmptyIsNoDirectory()
    ensures !IsDirectory("")
  {
  }

  lemma {:induction false} TopsRun(s: Section, st: State, ts: seq<Top>)
    requires st.mode == Outside && st.queued == []
    requires AreTops(ts, s.strings, s.unitized, st.stringOffset, st.nextOffset)
    ensures Run(s, st, TopsEntries(ts)) == TopsCalls(ts, s.strings, s.unitized, st.stringOffset, st.nextOffset)
    decreases |ts|
  {
    if ts != [] {
      hide Run, IsTop, TopEntries, UnitCalls;
      var rest, later := TopsEntries(ts[1..]), Offsets(ts[0], st.stringOffset, st.nextOffset, s.unitized);
      if ts[0].Unit? {
        UnitIsTop(ts[0], rest, At(s, st));
        var st' := UnitRuns(s, st, ts[0].u, rest);
        TopsRun(s, st', ts[1..]);
      } else {
        OutsideRuns(s, st, ts[0], rest);
        TopsRun(s, st.(stringOffset := later.0, nextOffset := later.1), ts[1..]);
        assert [] + TopsCalls(ts[1..], s.strings, s.unitized, later.0, later.1)
            == TopsCalls(ts[1..], s.strings, s.unitized, later.0, later.1);
      }
    }
  }

  lemma {:induction false} UnitIsTop(t: Top, rest: seq<Entry>, at: StringsAt)
    requires t.Unit? && IsTop(t, rest, at)
    ensures TopEntries(t) == UnitEntries(t.u) && IsUnitTree(t.u, rest, at)
  {
  }

  /** The calls for a section are those of its structure. */
  lemma {:induction false} CallsOfStructure(s: Section, ts: seq<Top>)
    requires s.entries == TopsEntries(ts) && AreTops(ts, s.strings, s.unitized, 0, 0)
    ensures Calls(s, START, 0) == TopsCalls(ts, s.strings, s.unitized, 0, 0)
  {
    hide Run, Calls, TopsCalls, TopsEntries, AreTops;
    RunIsCalls(s, START, 0);
    assert s.entries[0..] == s.entries;
    TopsRun(s, START, ts);
  }

  // ----- every section has a structure

  lemma {:induction false} NameIsBeforeColon(symbol: string)
    ensures IsBeforeColon(FunctionName(symbol), symbol)
  {
  }

  /** The entries up to the next function or unit. */
  function Insides(es: seq<Entry>): (body: seq<Entry>)
    ensures body <= es && forall e <- body :: IsInside(e)
    ensures |body| < |es| ==> !IsInside(es[|body|])
  {
    if es == [] || !IsInside(es[0]) then [] else [es[0]] + Insides(es[1..])
  }

  lemma {:induction false} FunctionExists(es: seq<Entry>, at: StringsAt) returns (f: FunctionTree, rest: seq<Entry>)
    requires es != [] && es[0].kind == N_FUN
    ensures FunctionEntries(f) + rest == es && IsFunctionTree(f, rest, at) && |rest| < |es|
  {
    hide IsBeforeColon, FunctionName, Symbol;
    var body := Insides(es[1..]);
    var behind := es[1 + |body|..];
    NameIsBeforeColon(Named(at, es[0]));
    var ends := behind != [] && behind[0].kind == N_FUN && Named(at, behind[0]) == "";
    f := FunctionTree(FunctionName(Named(at, es[0])), es[0], body, if ends then Some(behind[0]) else None);
    rest := if ends then behind[1..] else behind;
    assert behind != [] ==> behind[0] == es[1..][|body|];
    hide Insides, IsInside;
    FunctionInOrder(f, rest, es, behind);
  }

  lemma {:induction false} FunctionInOrder(f: FunctionTree, rest: seq<Entry>, es: seq<Entry>, behind: seq<Entry>)
    requires es != [] && f.head == es[0] && f.body <= es[1..] && behind == es[1 + |f.body|..]
    requires if f.tail.Some? then behind != [] && f.tail.value == behind[0] && rest == behind[1..] else rest == behind
    ensures FunctionEntries(f) + rest == es
  {
    assert Few(f.tail) + rest == behind;
    assert f.body + behind == es[1..];
    Regrouped(f.body, Few(f.tail), rest);
    Regrouped([f.head], f.body + Few(f.tail), rest);
  }

  /** The parts of a unit, up to the next entry that ends a unit or starts one. */
  lemma {:induction false} PartsExist(es: seq<Entry>, at: StringsAt) returns (ps: seq<Part>, rest: seq<Entry>)
    ensures PartsEntries(ps) + rest == es && AreParts(ps, rest, at)
    ensures rest == [] || rest[0].kind == N_SO
    decreases |es|
  {
    hide IsFunctionTree, FunctionEntries;
    if es == [] || es[0].kind == N_SO {
      ps, rest := [], es;
      assert [] + es == es;
    } else {
      var p, behind;
      if es[0].kind == N_FUN {
        var f;
        f, behind := FunctionExists(es, at);
        p := Whole(f);
      } else {
        p, behind := Loose(es[0]), es[1..];
      }
      var more;
      more, rest := PartsExist(behind, at);
      ps := [p] + more;
      assert ps[1..] == more;
      Regrouped(PartEntries(p), PartsEntries(more), rest);
    }
  }

  lemma {:induction false} UnitExists(directory: Option<Entry>, es: seq<Entry>, at: StringsAt)
    returns (u: UnitTree, rest: seq<Entry>)
    requires es != [] && es[0].kind == N_SO && Named(at, es[0]) != ""
    requires if directory.Some? then IsDirectoryEntry(directory.value, at) else !IsDirectory(Named(at, es[0]))
    ensures UnitEntries(u) + rest == Few(directory) + es && IsUnitTree(u, rest, at) && |rest| < |es|
  {
    hide Symbol, IsDirectory, AreParts, PartsEntries;
    var ps, behind := PartsExist(es[1..], at);
    var ends := behind != [] && Named(at, behind[0]) == "";
    u := UnitTree(directory, es[0], ps, if ends then Some(behind[0]) else None);
    rest := if ends then behind[1..] else behind;
    assert Few(u.tail) + rest == behind;
    UnitInOrder(u, rest);
    assert [es[0]] + es[1..] == es;
  }

  /** The first thing outside units, or the first unit. */
  lemma {:induction false} TopExists(es: seq<Entry>, at: StringsAt) returns (t: Top, rest: seq<Entry>)
    requires es != []
    ensures TopEntries(t) + rest == es && IsTop(t, rest, at) && |rest| < |es|
  {
    hide Symbol, IsDirectory, IsUnitTree, UnitEntries;
    rest := es[1..];
    assert [es[0]] + rest == es;
    if es[0].kind != N_SO {
      t := Other(es[0]);
    } else if Named(at, es[0]) == "" {
      t := Marker(None, es[0]);
      assert [] + [es[0]] == [es[0]];
    } else if !IsDirectory(Named(at, es[0])) {
      var u;
      u, rest := UnitExists(None, es, at);
      t := Unit(u);
      assert [] + es == es;
    } else if rest == [] || rest[0].kind != N_SO {
      t := Alone(es[0]);
    } else if Named(at, rest[0]) == "" {
      t := Marker(Some(es[0]), rest[0]);
      rest := rest[1..];
      assert [es[0]] + [es[1]] + es[2..] == es;
    } else {
      var u;
      u, rest := UnitExists(Some(es[0]), rest, at);
      t := Unit(u);
    }
  }

  lemma {:induction false} TopsExist(es: seq<Entry>, strings: string, unitized: bool, offset: Address, next: Address)
    returns (ts: seq<Top>)
    ensures TopsEntries(ts) == es && AreTops(ts, strings, unitized, offset, next)
    decreases |es|
  {
    hide IsTop, TopEntries;
    if es == [] {
      ts := [];
    } else {
      var t, rest := TopExists(es, (strings, offset));
      var later := Offsets(t, offset, next, unitized);
      var more := TopsExist(rest, strings, unitized, later.0, later.1);
      ts := [t] + more;
      assert ts[1..] == more;
    }
  }

  /** So for every section the calls are those of its structure. */
  lemma {:induction false} EverySectionHasStructure(s: Section) returns (ts: seq<Top>)
    ensures s.entries == TopsEntries(ts) && AreTops(ts, s.strings, s.unitized, 0, 0)
    ensures Calls(s, START, 0) == TopsCalls(ts, s.strings, s.unitized, 0, 0)
  {
    ts := TopsExist(s.entries, s.strings, s.unitized, 0, 0);
    CallsOfStructure(s, ts);
  }

  // ----- names

  /** The call starts the function of entry j, under the part of its string before the first colon. */
  ghost predicate Starts(s: Section, j: nat, call: Call)
    requires j < |s.entries|
  {
    var e := s.entries[j];
    e.kind == N_FUN && call.address == e.value
    && call.StartFunction? && exists offset: Address :: IsBeforeColon(call.name, Symbol(s.strings, offset, e))
  }

  lemma {:induction false} OthersStartNone(s: Section, st: State, e: Entry, call: Call)
    requires e.kind != N_FUN && call.StartFunction?
    ensures call !in Step(s, st, e).calls
    decreases Rank(st.mode)
  {
    hide Symbol, IsDirectory;
    match st.mode
    case Outside =>
    case AfterDirectory(_) => OthersStartNone(s, st.(mode := Outside), e, call);
    case InUnit => OthersStartNone(s, st.(mode := Outside, queued := []), e, call);
    case InFunction(_) => OthersStartNone(s, st.(mode := InUnit), e, call);
  }

  lemma {:induction false} StepStarts(s: Section, st: State, e: Entry, call: Call)
    requires call in Step(s, st, e).calls && call.StartFunction?
    ensures e.kind == N_FUN && call.address == e.value
    ensures IsBeforeColon(call.name, Symbol(s.strings, st.stringOffset, e))
    decreases Rank(st.mode)
  {
    hide Symbol, FunctionName, IsBeforeColon, IsDirectory;
    var name := Symbol(s.strings, st.stringOffset, e);
    NameIsBeforeColon(name);
    NoStartInLines(st.queued, call);
    if e.kind != N_FUN {
      OthersStartNone(s, st, e, call);
    } else if st.mode.InFunction? && name != "" {
      StepStarts(s, st.(mode := InUnit), e, call);
    }
  }

  lemma {:induction false} NoStartInLines(queued: seq<QueuedLine>, call: Call)
    requires call.StartFunction?
    ensures call !in LineCalls(queued)
  {
    if queued != [] {
      NoStartInLines(queued[1..], call);
    }
  }

  /** Every call that starts a function has the name that the entry of the function gives. */
  lemma {:induction false} StartsAreNamed(s: Section, st: State, k: nat, call: Call)
    requires k <= |s.entries| && call in Calls(s, st, k) && call.StartFunction?
    ensures exists j: nat :: k <= j < |s.entries| && Starts(s, j, call)
    decreases |s.entries| - k
  {
    hide Step, IsBeforeColon, Symbol;
    if k < |s.entries| {
      var effect := Step(s, st, s.entries[k]);
      if call in effect.calls {
        StepStarts(s, st, s.entries[k], call);
        assert Starts(s, k, call);
      } else {
        StartsAreNamed(s, effect.state, k + 1, call);
      }
    }
  }
}
