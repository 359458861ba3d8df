/**
 `LoadStabs`: a reader, the handler it drives, and the module the handler hands its functions to.
 */
module StabsLoaders {
  import opened ByteCursors
  import opened OrderedKeys
  import opened StabsBytes
  import opened StabsGrammar
  import opened StabsStream
  import opened StabsReaders
  import opened StabsToModules
  import opened Words

  /** What the handler holds behind the last entry of a section. */
  function CollectedFrom(s: Section): Collected {
    CollectAll(NOTHING, Calls(s, START, 0))
  }

  // ----- what is collected, in terms of the section's structure

  /** A function with its lines, unless it begins below the start of its unit. */
  function KeptFunction(f: FunctionTree, base: Address, file: string, before: seq<QueuedLine>,
      at: StringsAt): seq<Function>
  {
    if f.head.value < base then []
    else [Function(f.name, f.head.value, 0, LinesOf(before + BodyLines(f.body, f.head.value, file, at)))]
  }

  function PartsFunctions(ps: seq<Part>, base: Address, file: string, before: seq<QueuedLine>,
      at: StringsAt): seq<Function>
  {
    if ps == [] then []
    else if ps[0].Loose? then
      PartsFunctions(ps[1..], base, FileAfter([ps[0].e], file, at), before + LooseLine(ps[0].e, file), at)
    else
      KeptFunction(ps[0].f, base, file, before, at)
      + PartsFunctions(ps[1..], base, FileAfter(ps[0].f.body, file, at), [], at)
  }

  /** Where functions begin and end, but for ends at zero. */
  function PartsBoundaries(ps: seq<Part>, rest: seq<Entry>): seq<Address> {
    if ps == [] then []
    else
      var more := PartsBoundaries(ps[1..], rest);
      if ps[0].Loose? then more
      else [ps[0].f.head.value] + Boundary(EndOf(ps[0].f, PartsEntries(ps[1..]) + rest)) + more
  }

  function UnitFunctions(u: UnitTree, at: StringsAt): seq<Function> {
    PartsFunctions(u.parts, u.head.value, Named(at, u.head), [], at)
  }

  function UnitBoundaries(u: UnitTree, rest: seq<Entry>): seq<Address> {
    [u.head.value] + PartsBoundaries(u.parts, Few(u.tail) + rest)
    + Boundary(if u.tail.Some? then u.tail.value.value else 0)
  }

  /** All functions of a section with their lines. */
  function TopsFunctions(ts: seq<Top>, strings: string, unitized: bool, offset: Address, next: Address): seq<Function>
    decreases |ts|
  {
    if ts == [] then []
    else
      var later := Offsets(ts[0], offset, next, unitized);
      (if ts[0].Unit? then UnitFunctions(ts[0].u, (strings, offset)) else [])
      + TopsFunctions(ts[1..], strings, unitized, later.0, later.1)
  }

  /** All addresses at which something begins or ends. */
  function TopsBoundaries(ts: seq<Top>): seq<Address> {
    if ts == [] then []
    else (if ts[0].Unit? then UnitBoundaries(ts[0].u, TopsEntries(ts[1..])) else []) + TopsBoundaries(ts[1..])
  }

  lemma {:induction false} CollectBoth(c: Collected, a: seq<Call>, b: seq<Call>)
    ensures CollectAll(c, a + b) == CollectAll(CollectAll(c, a), b)
    decreases |a|
  {
    hide Collect;
    if a == [] {
      assert a + b == b;
    } else {
      assert (a + b)[1..] == a[1..] + b;
      CollectBoth(Collect(c, a[0]), a[1..], b);
    }
  }

  lemma {:induction false} CollectJust(c: Collected, call: Call)
    ensures CollectAll(c, [call]) == Collect(c, call)
  {
    hide Collect;
    assert [call][1..] == [];
  }

  /** More functions and more boundaries. */
  function Grown(c: Collected, fs: seq<Function>, bs: seq<Address>): Collected {
    c.(functions := c.functions + fs, boundaries := c.boundaries + bs)
  }

  lemma {:induction false} GrownTwice(c: Collected, fs: seq<Function>, bs: seq<Address>, fs': seq<Function>,
      bs': seq<Address>)
    ensures Grown(Grown(c, fs, bs), fs', bs') == Grown(c, fs + fs', bs + bs') && Grown(c, [], []) == c
  {
  }

  lemma {:induction false} CollectTree(c: Collected, f: FunctionTree, file: string, before: seq<QueuedLine>,
      rest: seq<Entry>, at: StringsAt)
    requires c.current.None?
    ensures CollectAll(c, FunctionCalls(f, file, before, rest, at))
         == Grown(c, KeptFunction(f, c.base, file, before, at), [f.head.value] + Boundary(EndOf(f, rest)))
  {
    hide CollectAll, LineCalls, BodyLines, EndOf, LinesOf;
    CollectFunction(c, f.name, f.head.value, before + BodyLines(f.body, f.head.value, file, at), EndOf(f, rest));
    assert c.boundaries + [f.head.value] + Boundary(EndOf(f, rest))
        == c.boundaries + ([f.head.value] + Boundary(EndOf(f, rest)));
  }

  lemma {:induction false} CollectParts(c: Collected, ps: seq<Part>, file: string, before: seq<QueuedLine>,
      rest: seq<Entry>, at: StringsAt)
    requires c.current.None?
    ensures CollectAll(c, PartsCalls(ps, file, before, rest, at))
         == Grown(c, PartsFunctions(ps, c.base, file, before, at), PartsBoundaries(ps, rest))
    decreases |ps|
  {
    hide FunctionCalls, KeptFunction, EndOf, FileAfter, LooseLine, Grown, Boundary;
    if ps == [] {
      GrownTwice(c, [], [], [], []);
    } else if ps[0].Loose? {
      CollectParts(c, ps[1..], FileAfter([ps[0].e], file, at), before + LooseLine(ps[0].e, file), rest, at);
    } else {
      hide CollectAll;
      var f, more := ps[0].f, PartsEntries(ps[1..]) + rest;
      var kept, ends := KeptFunction(f, c.base, file, before, at), [f.head.value] + Boundary(EndOf(f, more));
      CollectTree(c, f, file, before, more, at);
      GrownIsOutside(c, kept, ends);
      CollectParts(Grown(c, kept, ends), ps[1..], FileAfter(f.body, file, at), [], rest, at);
      CollectBoth(c, FunctionCalls(f, file, before, more, at),
                  PartsCalls(ps[1..], FileAfter(f.body, file, at), [], rest, at));
      GrownTwice(c, kept, ends, PartsFunctions(ps[1..], c.base, FileAfter(f.body, file, at), [], at),
                 PartsBoundaries(ps[1..], rest));
    }
  }

  lemma {:induction false} GrownIsOutside(c: Collected, fs: seq<Function>, bs: seq<Address>)
    ensures Grown(c, fs, bs).current == c.current && Grown(c, fs, bs).base == c.base
  {
  }

  /** The handler is outside units. */
  predicate IsIdle(c: Collected) { c == NOTHING.(functions := c.functions, boundaries := c.boundaries) }

  lemma {:induction false} GrownIsIdle(c: Collected, fs: seq<Function>, bs: seq<Address>)
    ensures IsIdle(c) ==> IsIdle(Grown(c, fs, bs))
    ensures CollectAll(c, []) == c && Grown(c, [], []) == c
  {
  }

  lemma {:induction false} CollectUnit(c: Collected, u: UnitTree, rest: seq<Entry>, at: StringsAt)
    requires IsIdle(c)
    ensures CollectAll(c, UnitCalls(u, rest, at)) == Grown(c, UnitFunctions(u, at), UnitBoundaries(u, rest))
  {
    hide CollectAll, PartsCalls, PartsFunctions, PartsBoundaries, Named;
    var directory := if u.directory.Some? then Named(at, u.directory.value) else "";
    var start, end := StartCompilationUnit(Named(at, u.head), u.head.value, directory),
      EndCompilationUnit(if u.tail.Some? then u.tail.value.value else 0);
    var calls := PartsCalls(u.parts, Named(at, u.head), [], Few(u.tail) + rest, at);
    CollectBoth(c, [start], calls + [end]);
    CollectJust(c, start);
    var inside := Collect(c, start);
    CollectBoth(inside, calls, [end]);
    CollectParts(inside, u.parts, Named(at, u.head), [], Few(u.tail) + rest, at);
    CollectJust(CollectAll(inside, calls), end);
  }

  lemma {:induction false} CollectTops(c: Collected, ts: seq<Top>, strings: string, unitized: bool,
      offset: Address, next: Address)
    requires IsIdle(c)
    ensures CollectAll(c, TopsCalls(ts, strings, unitized, offset, next))
         == Grown(c, TopsFunctions(ts, strings, unitized, offset, next), TopsBoundaries(ts))
    decreases |ts|
  {
    hide UnitCalls, UnitFunctions, UnitBoundaries, CollectAll, Grown, IsIdle, TopEntries;
    GrownIsIdle(c, [], []);
    if ts != [] {
      var later, at := Offsets(ts[0], offset, next, unitized), (strings, offset);
      var more := TopsCalls(ts[1..], strings, unitized, later.0, later.1);
      var fs, bs := TopsFunctions(ts[1..], strings, unitized, later.0, later.1), TopsBoundaries(ts[1..]);
      if ts[0].Unit? {
        var u, rest := ts[0].u, TopsEntries(ts[1..]);
        var grown := Grown(c, UnitFunctions(u, at), UnitBoundaries(u, rest));
        CollectUnit(c, u, rest, at);
        CollectBoth(c, UnitCalls(u, rest, at), more);
        GrownIsIdle(c, UnitFunctions(u, at), UnitBoundaries(u, rest));
        CollectTops(grown, ts[1..], strings, unitized, later.0, later.1);
        GrownTwice(c, UnitFunctions(u, at), UnitBoundaries(u, rest), fs, bs);
      } else {
        assert [] + more == more && [] + fs == fs && [] + bs == bs;
        CollectTops(c, ts[1..], strings, unitized, later.0, later.1);
      }
    }
  }

  /** What is collected from the bytes of a section with some structure. */
  lemma {:induction false} CollectedFromStructure(ts: seq<Top>, tail: seq<Byte>, strings: string,
      bigEndian: bool, valueSize: ValueSize, unitized: bool)
    requires AreTops(ts, strings, unitized, 0, 0) && |tail| < EntrySize(valueSize)
    requires forall e <- TopsEntries(ts) :: IsEntry(e, valueSize)
    ensures var stabs := SectionBytes(TopsEntries(ts), bigEndian, valueSize) + tail;
      CollectedFrom(Section(Entries(stabs, bigEndian, valueSize), strings, unitized))
        == NOTHING.(functions := TopsFunctions(ts, strings, unitized, 0, 0), boundaries := TopsBoundaries(ts))
  {
    hide AreTops, Entries, Calls, CollectAll, TopsCalls, TopsFunctions, TopsBoundaries, IsEntry, SectionBytes,
      TopsEntries;
    EntriesOfBytes(TopsEntries(ts), tail, bigEndian, valueSize);
    CallsOfStructure(Section(TopsEntries(ts), strings, unitized), ts);
    CollectTops(NOTHING, ts, strings, unitized, 0, 0);
    assert [] + TopsFunctions(ts, strings, unitized, 0, 0) == TopsFunctions(ts, strings, unitized, 0, 0);
    assert [] + TopsBoundaries(ts) == TopsBoundaries(ts);
  }

  /** Every section has a structure, and what is collected from it are its functions and boundaries. */
  lemma {:induction false} CollectedFromAny(s: Section) returns (ts: seq<Top>)
    ensures s.entries == TopsEntries(ts) && AreTops(ts, s.strings, s.unitized, 0, 0)
    ensures CollectedFrom(s) == NOTHING.(
      functions := TopsFunctions(ts, s.strings, s.unitized, 0, 0), boundaries := TopsBoundaries(ts))
  {
    hide AreTops, Calls, CollectAll, TopsCalls, TopsFunctions, TopsBoundaries, TopsEntries;
    ts := EverySectionHasStructure(s);
    CollectTops(NOTHING, ts, s.strings, s.unitized, 0, 0);
    assert [] + TopsFunctions(ts, s.strings, s.unitized, 0, 0) == TopsFunctions(ts, s.strings, s.unitized, 0, 0);
    assert [] + TopsBoundaries(ts) == TopsBoundaries(ts);
  }

  // ----- the loader

  lemma {:induction false} NoneRefused(calls: seq<Call>, all: seq<Call>)
    ensures !Refused((calls: seq<Call>) => true, calls, all)
  {
  }

  /**
   Read the symbols of any section.  The handler refuses no call and its assertions hold at each, so
   reading succeeds, and the module has just the functions of the section, with sound sizes.
   */
  method LoadStabs(stabs: seq<Byte>, strings: string, bigEndian: bool, valueSize: ValueSize, unitized: bool)
    returns (ok: bool, functions: seq<Function>)
    ensures ok
    ensures var c := CollectedFrom(Section(Entries(stabs, bigEndian, valueSize), strings, unitized));
      && HaveSoundSizes(BoundarySet(c.boundaries), functions)
      && exists sorted ::
           && SortedFunctions(sorted) && multiset(sorted) == multiset(c.functions)
           && functions == FinishedAll(BoundarySet(c.boundaries), sorted)
  {
    hide Calls, Entries, CollectAll, WalkTo, HaveSoundSizes, FinishedAll, SortedFunctions, Accepted, Refused;
    var record := new Handler((calls: seq<Call>) => true);
    var reader := new StabsReader(stabs, strings, bigEndian, valueSize, unitized, record);
    ok := reader.Process();
    NoneRefused(record.calls, Calls(reader.Stab(), START, 0));
    var handler := new StabsToModule();
    handler.Receive(record.calls);
    handler.Finalize();
    functions := handler.moduleFunctions;
    assert [] + functions == functions;
  }
}
