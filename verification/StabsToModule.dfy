/**
 `StabsToModule`: the handler that collects functions and lines, whose assertions say that the calls
 come properly nested, and the pass that gives functions and lines their sizes.
 */
module StabsToModules {
  import opened OrderedKeys
  import opened StabsStream
  import opened Words

  /** `Module::Line`. */
  datatype Line = Line(address: Address, size: Address, file: string, number: nat)

  /** `Module::Function`. */
  datatype Function = Function(name: string, address: Address, size: Address, lines: seq<Line>)

  const FALLBACK_SIZE: Address := 0x10000000

  // ----- sorting, as `std::sort` and `std::stable_sort` are specified

  predicate SortedFunctions(fs: seq<Function>) { forall i, j :: 0 <= i < j < |fs| ==> fs[i].address <= fs[j].address }

  predicate SortedLines(ls: seq<Line>) { forall i, j :: 0 <= i < j < |ls| ==> ls[i].address <= ls[j].address }

  /** Put a line behind all that do not have a higher address. */
  function InsertLine(ls: seq<Line>, l: Line): (r: seq<Line>)
    ensures multiset(r) == multiset(ls) + multiset{l}
  {
    if ls == [] || l.address < ls[0].address then [l] + ls
    else
      assert ls == [ls[0]] + ls[1..];
      [ls[0]] + InsertLine(ls[1..], l)
  }

  function SortLines(ls: seq<Line>): (r: seq<Line>)
    ensures multiset(r) == multiset(ls)
  {
    if ls == [] then []
    else
      assert ls == ls[..|ls| - 1] + [ls[|ls| - 1]];
      InsertLine(SortLines(ls[..|ls| - 1]), ls[|ls| - 1])
  }

  lemma {:induction false} InsertLineSorts(ls: seq<Line>, l: Line)
    requires SortedLines(ls)
    ensures SortedLines(InsertLine(ls, l))
  {
    if ls != [] && l.address >= ls[0].address {
      InsertLineSorts(ls[1..], l);
      var r := InsertLine(ls[1..], l);
      forall k | 0 <= k < |r| ensures ls[0].address <= r[k].address {
        assert r[k] in multiset(r);
        assert r[k] == l || r[k] in ls[1..];
      }
    }
  }

  lemma {:induction false} SortLinesSorts(ls: seq<Line>)
    ensures SortedLines(SortLines(ls))
  {
    if ls != [] {
      SortLinesSorts(ls[..|ls| - 1]);
      InsertLineSorts(SortLines(ls[..|ls| - 1]), ls[|ls| - 1]);
    }
  }

  function OneLineAt(l: Line, address: Address): seq<Line> { if l.address == address then [l] else [] }

  /** The lines at one address. */
  function LinesAt(ls: seq<Line>, address: Address): seq<Line> {
    if ls == [] then [] else OneLineAt(ls[0], address) + LinesAt(ls[1..], address)
  }

  lemma {:induction false} LinesAtMore(l: Line, ls: seq<Line>, address: Address)
    ensures LinesAt([l] + ls, address) == OneLineAt(l, address) + LinesAt(ls, address)
  {
    assert ([l] + ls)[1..] == ls;
  }

  lemma {:induction false} Regrouped<T>(a: seq<T>, b: seq<T>, c: seq<T>)
    ensures a + (b + c) == a + b + c
  {
  }

  lemma {:induction false} FirstAndRest<T>(s: seq<T>)
    requires s != []
    ensures [s[0]] + s[1..] == s
  {
  }

  lemma {:induction false} LinesAtBoth(a: seq<Line>, b: seq<Line>, address: Address)
    ensures LinesAt(a + b, address) == LinesAt(a, address) + LinesAt(b, address)
  {
    if a == [] {
      assert a + b == b;
    } else {
      hide OneLineAt, LinesAt;
      LinesAtBoth(a[1..], b, address);
      LinesAtMore(a[0], a[1..] + b, address);
      LinesAtMore(a[0], a[1..], address);
      FirstAndRest(a);
      Regrouped([a[0]], a[1..], b);
      Regrouped(OneLineAt(a[0], address), LinesAt(a[1..], address), LinesAt(b, address));
    }
  }

  lemma {:induction false} NoLinesAt(ls: seq<Line>, address: Address)
    requires forall k :: 0 <= k < |ls| ==> address < ls[k].address
    ensures LinesAt(ls, address) == []
  {
    if ls != [] {
      NoLinesAt(ls[1..], address);
    }
  }

  lemma {:induction false} InsertBehind(ls: seq<Line>, l: Line)
    requires ls != [] && l.address >= ls[0].address
    ensures InsertLine(ls, l) == [ls[0]] + InsertLine(ls[1..], l)
  {
  }

  lemma {:induction false} InsertLineIsStable(ls: seq<Line>, l: Line, address: Address)
    requires SortedLines(ls)
    ensures LinesAt(InsertLine(ls, l), address) == LinesAt(ls, address) + OneLineAt(l, address)
  {
    if ls == [] || l.address < ls[0].address {
      LinesAtMore(l, ls, address);
      if l.address == address {
        NoLinesAt(ls, address);
      }
    } else {
      InsertLineIsStable(ls[1..], l, address);
      InsertBehind(ls, l);
      LinesAtMore(ls[0], InsertLine(ls[1..], l), address);
      hide LinesAt, OneLineAt, InsertLine;
      LinesAtMore(ls[0], ls[1..], address);
      FirstAndRest(ls);
      Regrouped(OneLineAt(ls[0], address), LinesAt(ls[1..], address), OneLineAt(l, address));
    }
  }

  /** Sorting is stable: lines at the same address stay in their order. */
  lemma {:induction false} SortLinesIsStable(ls: seq<Line>, address: Address)
    ensures LinesAt(SortLines(ls), address) == LinesAt(ls, address)
  {
    hide InsertLine, SortedLines, OneLineAt;
    if ls != [] {
      var before, last := ls[..|ls| - 1], ls[|ls| - 1];
      SortLinesIsStable(before, address);
      SortLinesSorts(before);
      InsertLineIsStable(SortLines(before), last, address);
      LinesAtBoth(before, [last], address);
      LinesAtMore(last, [], address);
      assert before + [last] == ls;
    }
  }

  // ----- sizes

  /** Each line but the last reaches to the next one; the last to the end of the function. */
  function Sized(ls: seq<Line>, end: Address): (r: seq<Line>)
    ensures |r| == |ls|
  {
    if ls == [] then []
    else
      var next := if |ls| == 1 then end else ls[1].address;
      [ls[0].(size := WrapSub(next, ls[0].address))] + Sized(ls[1..], end)
  }

  function Sum(ls: seq<Line>): nat {
    if ls == [] then 0 else ls[0].size + Sum(ls[1..])
  }

  /**
   Sorted lines cover the addresses from the first of them to the end of the function without gap or
   overlap, unless the last line begins behind the end; then their sizes add up to one round of the
   address space too many.
   */
  lemma {:induction false} SizesAddUp(ls: seq<Line>, end: Address)
    requires ls != [] && SortedLines(ls)
    ensures var last := ls[|ls| - 1].address;
      Sum(Sized(ls, end)) == end - ls[0].address + if last <= end then 0 else ADDRESS_SPACE
  {
    if |ls| == 1 {
      assert Sized(ls[1..], end) == [];
      assert Sized(ls, end)[1..] == [];
    } else {
      SizesAddUp(ls[1..], end);
      assert Sized(ls, end)[1..] == Sized(ls[1..], end);
    }
  }

  // ----- finished functions

  /** The first boundary behind an address: `std::upper_bound` on the sorted boundaries. */
  function NextBoundary(bs: set<Address>, address: Address): (r: Option<Address>)
    ensures r.Some? ==> r.value in bs && address < r.value && forall x <- bs :: address < x ==> r.value <= x
    ensures r.None? ==> forall x <- bs :: x <= address
  {
    if address + 1 == ADDRESS_SPACE then None else LowerBound(bs, address + 1)
  }

  /** The size of a function at an address. */
  function SizeAt(bs: set<Address>, address: Address): Address {
    match NextBoundary(bs, address)
    case Some(b) => b - address
    case None => FALLBACK_SIZE
  }

  function Finished(bs: set<Address>, f: Function): Function {
    var size := SizeAt(bs, f.address);
    f.(size := size, lines := Sized(SortLines(f.lines), WrapAdd(f.address, size)))
  }

  function FinishedAll(bs: set<Address>, fs: seq<Function>): (r: seq<Function>)
    ensures |r| == |fs|
  {
    if fs == [] then [] else [Finished(bs, fs[0])] + FinishedAll(bs, fs[1..])
  }

  function BoundarySet(bs: seq<Address>): set<Address> { set b | b in bs }

  /**
   The sizes of functions are sound when every function's address is a boundary.  A function does not
   reach past the end of the address space unless it has the fallback size and begins too near to it.
   */
  lemma {:induction false} SizesAreSound(bs: set<Address>, f: Function, g: Function)
    requires f.address in bs && g.address in bs
    ensures Finished(bs, f).size > 0
    ensures f.address < g.address ==> f.address + Finished(bs, f).size <= g.address
    ensures NextBoundary(bs, f.address).None? && NextBoundary(bs, g.address).None? ==> f.address == g.address
    ensures NextBoundary(bs, f.address).None? <==> forall b <- bs :: b <= f.address
    ensures f.address + Finished(bs, f).size <= ADDRESS_SPACE
       <==> NextBoundary(bs, f.address).Some? || f.address <= ADDRESS_SPACE - FALLBACK_SIZE
  {
    hide SortLines, Sized;
  }

  /**
   Finished functions have sizes, those at different addresses are apart, each ends at a boundary if
   there is one behind it, and those without one, which have the fallback size, are at one address.
   */
  ghost predicate HaveSoundSizes(bs: set<Address>, fs: seq<Function>) {
    && (forall f <- fs :: f.size > 0)
    && (forall f <- fs, g <- fs :: f.address < g.address ==> f.address + f.size <= g.address)
    && (forall f <- fs :: NextBoundary(bs, f.address).Some? ==> f.address + f.size in bs)
    && (forall f <- fs :: NextBoundary(bs, f.address).None? ==> f.size == FALLBACK_SIZE)
    && (forall f <- fs, g <- fs :: NextBoundary(bs, f.address).None? && NextBoundary(bs, g.address).None? ==>
          f.address == g.address)
  }

  lemma {:induction false} FinishedFrom(bs: set<Address>, fs: seq<Function>, g: Function)
    requires g in FinishedAll(bs, fs)
    ensures exists f <- fs :: g == Finished(bs, f)
  {
    hide Finished;
    if g != Finished(bs, fs[0]) {
      FinishedFrom(bs, fs[1..], g);
      var f :| f in fs[1..] && g == Finished(bs, f);
      assert f in fs;
    } else {
      assert fs[0] in fs;
    }
  }

  lemma {:induction false} SizeIsSound(bs: set<Address>, fs: seq<Function>, g: Function)
    requires (forall f <- fs :: f.address in bs) && g in FinishedAll(bs, fs)
    ensures g.address in bs && g.size == SizeAt(bs, g.address)
  {
    hide SizeAt, SortLines, Sized;
    FinishedFrom(bs, fs, g);
  }

  lemma {:induction false} FinishedAreSound(bs: set<Address>, fs: seq<Function>)
    requires forall f <- fs :: f.address in bs
    ensures HaveSoundSizes(bs, FinishedAll(bs, fs))
  {
    hide FinishedAll;
    forall g | g in FinishedAll(bs, fs) ensures g.address in bs && g.size == SizeAt(bs, g.address) {
      SizeIsSound(bs, fs, g);
    }
  }

  /** The lines of a finished function are its lines in order, and their sizes add up to the rest of the function. */
  lemma {:induction false} LineSizesAreSound(bs: set<Address>, f: Function)
    requires f.lines != []
    ensures var g := Finished(bs, f);
      var first, last, end := g.lines[0].address, g.lines[|g.lines| - 1].address, WrapAdd(g.address, g.size);
      && SortedLines(g.lines)
      && multiset(SortLines(f.lines)) == multiset(f.lines) && |g.lines| == |SortLines(f.lines)|
      && (forall i :: 0 <= i < |g.lines| ==> g.lines[i] == SortLines(f.lines)[i].(size := g.lines[i].size))
      && Sum(g.lines) == end - first + if last <= end then 0 else ADDRESS_SPACE
  {
    hide SortLines, Sized, SizeOf, SizeAt, SortedLines, Sum;
    var sorted := SortLines(f.lines);
    assert multiset(sorted) == multiset(f.lines);
    assert f.lines[0] in multiset(sorted);
    SortLinesSorts(f.lines);
    var end := WrapAdd(f.address, SizeAt(bs, f.address));
    SizesAddUp(sorted, end);
    forall i | 0 <= i < |sorted| ensures Sized(sorted, end)[i] == sorted[i].(size := SizeOf(sorted, end, i)) {
      SizedAt(sorted, end, i);
    }
    SizedIsSorted(sorted, end);
  }

  lemma {:induction false} SizedIsSorted(ls: seq<Line>, end: Address)
    requires SortedLines(ls)
    ensures SortedLines(Sized(ls, end))
  {
    hide SizeOf;
    forall i | 0 <= i < |ls| ensures Sized(ls, end)[i].address == ls[i].address {
      SizedAt(ls, end, i);
    }
  }

  /** The size of line k. */
  function SizeOf(ls: seq<Line>, end: Address, k: nat): Address
    requires k < |ls|
  {
    WrapSub(if k + 1 < |ls| then ls[k + 1].address else end, ls[k].address)
  }

  lemma {:induction false} SizedAt(ls: seq<Line>, end: Address, k: nat)
    requires k < |ls|
    ensures Sized(ls, end)[k] == ls[k].(size := SizeOf(ls, end, k))
  {
    hide WrapSub;
    if k > 0 {
      SizedAt(ls[1..], end, k - 1);
      assert ls[1..][k - 1] == ls[k];
      assert SizeOf(ls[1..], end, k - 1) == SizeOf(ls, end, k);
    }
  }

  // ----- sorting functions

  function InsertFunction(fs: seq<Function>, f: Function): (r: seq<Function>)
    ensures multiset(r) == multiset(fs) + multiset{f}
  {
    if fs == [] || f.address < fs[0].address then [f] + fs
    else
      assert fs == [fs[0]] + fs[1..];
      [fs[0]] + InsertFunction(fs[1..], f)
  }

  lemma {:induction false} InsertFunctionSorts(fs: seq<Function>, f: Function)
    requires SortedFunctions(fs)
    ensures SortedFunctions(InsertFunction(fs, f))
  {
    if fs != [] && f.address >= fs[0].address {
      InsertFunctionSorts(fs[1..], f);
      var r := InsertFunction(fs[1..], f);
      forall k | 0 <= k < |r| ensures fs[0].address <= r[k].address {
        assert r[k] in multiset(r);
        assert r[k] == f || r[k] in fs[1..];
      }
    }
  }

  method SortFunctions(fs: seq<Function>) returns (sorted: seq<Function>)
    ensures SortedFunctions(sorted) && multiset(sorted) == multiset(fs)
  {
    sorted := [];
    assert fs[..0] == [];
    for i := 0 to |fs|
      invariant SortedFunctions(sorted) && multiset(sorted) == multiset(fs[..i])
    {
      assert fs[..i + 1] == fs[..i] + [fs[i]];
      InsertFunctionSorts(sorted, fs[i]);
      sorted := InsertFunction(sorted, fs[i]);
    }
    assert fs[..|fs|] == fs;
  }

  // ----- what the calls collect

  /** The handler's fields; a file is named by its name. */
  datatype Collected = Collected(
    inUnit: bool, base: Address, current: Option<Function>, functions: seq<Function>, boundaries: seq<Address>)

  const NOTHING: Collected := Collected(false, 0, None, [], [])

  function Boundary(address: Address): seq<Address> { if address != 0 then [address] else [] }

  /** One call; one that does not fit the protocol changes nothing. */
  function Collect(c: Collected, call: Call): Collected {
    match call
    case StartCompilationUnit(name, address, _) =>
      c.(inUnit := true, base := address, boundaries := c.boundaries + [address])
    case EndCompilationUnit(address) =>
      c.(inUnit := false, base := 0, boundaries := c.boundaries + Boundary(address))
    case StartFunction(name, address) =>
      c.(current := Some(Function(name, address, 0, [])), boundaries := c.boundaries + [address])
    case EndFunction(address) =>
      if c.current.None? then c
      else c.(functions := c.functions + (if c.current.value.address >= c.base then [c.current.value] else []),
              current := None, boundaries := c.boundaries + Boundary(address))
    case LineCall(address, name, number) =>
      if c.current.None? then c
      else
        var f := c.current.value;
        c.(current := Some(f.(lines := f.lines + [Line(address, 0, name, number)])))
  }

  function CollectAll(c: Collected, calls: seq<Call>): Collected
    decreases |calls|
  {
    if calls == [] then c else CollectAll(Collect(c, calls[0]), calls[1..])
  }

  function LinesOf(queued: seq<QueuedLine>): seq<Line> {
    if queued == [] then []
    else [Line(queued[0].address, 0, queued[0].filename, queued[0].number)] + LinesOf(queued[1..])
  }

  /** The handler after some more lines of its current function. */
  function WithLines(c: Collected, lines: seq<Line>): Collected
    requires c.current.Some?
  {
    c.(current := Some(c.current.value.(lines := c.current.value.lines + lines)))
  }

  lemma {:induction false} WithNoLines(c: Collected)
    requires c.current.Some?
    ensures WithLines(c, []) == c
  {
    assert c.current.value.lines + [] == c.current.value.lines;
  }

  lemma {:induction false} WithMoreLines(c: Collected, line: Line, lines: seq<Line>)
    requires c.current.Some?
    ensures WithLines(WithLines(c, [line]), lines) == WithLines(c, [line] + lines)
  {
    var before := c.current.value.lines;
    assert before + [line] + lines == before + ([line] + lines);
  }

  lemma {:induction false} CollectOne(c: Collected, call: Call, rest: seq<Call>)
    ensures CollectAll(c, [call] + rest) == CollectAll(Collect(c, call), rest)
  {
    assert ([call] + rest)[1..] == rest;
  }

  lemma {:induction false} CollectLine(c: Collected, line: QueuedLine)
    requires c.current.Some?
    ensures Collect(c, LineCall(line.address, line.filename, line.number))
         == WithLines(c, [Line(line.address, 0, line.filename, line.number)])
  {
  }

  lemma {:induction false} CollectLines(c: Collected, queued: seq<QueuedLine>, rest: seq<Call>)
    requires c.current.Some?
    ensures CollectAll(c, LineCalls(queued) + rest) == CollectAll(WithLines(c, LinesOf(queued)), rest)
    decreases |queued|
  {
    hide Collect, CollectAll, WithLines;
    if queued == [] {
      assert LineCalls(queued) + rest == rest;
      WithNoLines(c);
    } else {
      var line := Line(queued[0].address, 0, queued[0].filename, queued[0].number);
      var call := LineCall(queued[0].address, queued[0].filename, queued[0].number);
      assert LineCalls(queued) + rest == [call] + (LineCalls(queued[1..]) + rest);
      CollectOne(c, call, LineCalls(queued[1..]) + rest);
      CollectLine(c, queued[0]);
      StillCurrent(c, [line]);
      CollectLines(WithLines(c, [line]), queued[1..], rest);
      WithMoreLines(c, line, LinesOf(queued[1..]));
    }
  }

  lemma {:induction false} StillCurrent(c: Collected, lines: seq<Line>)
    requires c.current.Some?
    ensures WithLines(c, lines).current.Some?
  {
  }

  /**
   A function with its lines is collected as one, unless it begins below the start of its unit; its
   start is a boundary either way, and so is its end if it has one.
   */
  lemma {:induction false} CollectFunction(c: Collected, name: string, address: Address,
      queued: seq<QueuedLine>, end: Address)
    requires c.current.None?
    ensures CollectAll(c, [StartFunction(name, address)] + LineCalls(queued) + [EndFunction(end)])
         == c.(functions := c.functions +
               (if address >= c.base then [Function(name, address, 0, LinesOf(queued))] else []),
               boundaries := c.boundaries + [address] + Boundary(end))
  {
    hide LineCalls, LinesOf;
    var calls := [StartFunction(name, address)] + LineCalls(queued) + [EndFunction(end)];
    assert calls[1..] == LineCalls(queued) + [EndFunction(end)];
    var begun := c.(current := Some(Function(name, address, 0, [])), boundaries := c.boundaries + [address]);
    CollectLines(begun, queued, [EndFunction(end)]);
    assert [] + LinesOf(queued) == LinesOf(queued);
    assert [EndFunction(end)][1..] == [];
  }

  // ----- the handler

  class StabsToModule {
    var inCompilationUnit: bool
    var compUnitBaseAddress: Address
    var currentFunction: Option<Function>
    var currentSourceFile: Option<string>
    var functions: seq<Function>
    var boundaries: seq<Address>
    var moduleFunctions: seq<Function>

    ghost function Contents(): Collected
      reads this
    {
      Collected(inCompilationUnit, compUnitBaseAddress, currentFunction, functions, boundaries)
    }

    ghost function Where(): Place
      reads this
    {
      if currentFunction.Some? then InsideFunction else if inCompilationUnit then InsideUnit else Nowhere
    }

    /** Functions are inside units, units have a file, and the address of every function is a boundary. */
    ghost predicate Valid()
      reads this
    {
      && (currentFunction.Some? ==> inCompilationUnit && currentFunction.value.address in boundaries)
      && (inCompilationUnit ==> currentSourceFile.Some?)
      && (forall f <- functions :: f.address in boundaries)
    }

    constructor ()
      ensures Valid() && Contents() == NOTHING && moduleFunctions == []
    {
      inCompilationUnit, compUnitBaseAddress, currentFunction, currentSourceFile := false, 0, None, None;
      functions, boundaries, moduleFunctions := [], [], [];
    }

    method StartCompilationUnit(name: string, address: Address, buildDirectory: string)
      requires Valid() && !inCompilationUnit
      modifies this
      ensures Valid() && moduleFunctions == old(moduleFunctions) && currentSourceFile == Some(name)
      ensures Contents() == Collect(old(Contents()), Call.StartCompilationUnit(name, address, buildDirectory))
    {
      inCompilationUnit := true;
      currentSourceFile := Some(name);
      compUnitBaseAddress := address;
      boundaries := boundaries + [address];
    }

    method EndCompilationUnit(address: Address)
      requires Valid() && inCompilationUnit && currentFunction.None?
      modifies this
      ensures Valid() && moduleFunctions == old(moduleFunctions) && currentSourceFile == None
      ensures Contents() == Collect(old(Contents()), Call.EndCompilationUnit(address))
    {
      inCompilationUnit := false;
      compUnitBaseAddress := 0;
      currentSourceFile := None;
      if address != 0 {
        boundaries := boundaries + [address];
      }
    }

    method StartFunction(name: string, address: Address)
      requires Valid() && inCompilationUnit && currentFunction.None?
      modifies this
      ensures Valid() && moduleFunctions == old(moduleFunctions) && currentSourceFile == old(currentSourceFile)
      ensures Contents() == Collect(old(Contents()), Call.StartFunction(name, address))
    {
      currentFunction := Some(Function(name, address, 0, []));
      boundaries := boundaries + [address];
    }

    method EndFunction(address: Address)
      requires Valid() && currentFunction.Some?
      modifies this
      ensures Valid() && moduleFunctions == old(moduleFunctions) && currentSourceFile == old(currentSourceFile)
      ensures Contents() == Collect(old(Contents()), Call.EndFunction(address))
    {
      if currentFunction.value.address >= compUnitBaseAddress {
        functions := functions + [currentFunction.value];
      }
      currentFunction := None;
      if address != 0 {
        boundaries := boundaries + [address];
      }
    }

    method AddLine(address: Address, name: string, number: nat)
      requires Valid() && currentFunction.Some? && currentSourceFile.Some?
      modifies this
      ensures Valid() && moduleFunctions == old(moduleFunctions) && currentSourceFile == Some(name)
      ensures Contents() == Collect(old(Contents()), LineCall(address, name, number))
    {
      if Some(name) != currentSourceFile {
        currentSourceFile := Some(name);
      }
      var f := currentFunction.value;
      currentFunction := Some(f.(lines := f.lines + [Line(address, 0, currentSourceFile.value, number)]));
    }

    /** Take the calls of a reader: what each of the functions above asserts holds every time. */
    method Receive(calls: seq<Call>)
      requires Valid() && Where() == Nowhere && WalkTo(Nowhere, calls).At?
      modifies this
      ensures Valid() && Where() == WalkTo(Nowhere, calls).place && moduleFunctions == old(moduleFunctions)
      ensures Contents() == CollectAll(old(Contents()), calls)
    {
      assert calls[0..] == calls;
      for i := 0 to |calls|
        invariant Valid() && WalkTo(Where(), calls[i..]) == WalkTo(Nowhere, calls)
          && moduleFunctions == old(moduleFunctions)
        invariant CollectAll(Contents(), calls[i..]) == CollectAll(old(Contents()), calls)
      {
        assert calls[i..][1..] == calls[i + 1..];
        ReceiveOne(calls[i]);
      }
    }

    method ReceiveOne(call: Call)
      requires Valid() && StepTo(Where(), call).At?
      modifies this
      ensures Valid() && At(Where()) == StepTo(old(Where()), call) && moduleFunctions == old(moduleFunctions)
      ensures Contents() == Collect(old(Contents()), call)
    {
      match call {
        case StartCompilationUnit(name, address, directory) => StartCompilationUnit(name, address, directory);
        case EndCompilationUnit(address) => EndCompilationUnit(address);
        case StartFunction(name, address) => StartFunction(name, address);
        case EndFunction(address) => EndFunction(address);
        case LineCall(address, name, number) => AddLine(address, name, number);
      }
    }

    /** Give all functions and lines their sizes, and hand the functions to the module in order of address. */
    method Finalize()
      requires Valid()
      modifies this
      ensures Valid() && functions == [] && boundaries == old(boundaries)
      ensures exists sorted ::
                && SortedFunctions(sorted) && multiset(sorted) == multiset(old(functions))
                && moduleFunctions == old(moduleFunctions) + FinishedAll(BoundarySet(old(boundaries)), sorted)
      ensures |moduleFunctions| >= |old(moduleFunctions)|
      ensures HaveSoundSizes(BoundarySet(old(boundaries)), moduleFunctions[|old(moduleFunctions)|..])
    {
      hide Finished, SortLines, Sized, FinishedAll, HaveSoundSizes;
      var sorted := SortFunctions(functions);
      ghost var bs := BoundarySet(boundaries);
      var finished := FinishFunctions(sorted, boundaries);
      forall f | f in sorted ensures f.address in bs {
        assert f in multiset(sorted);
      }
      FinishedAreSound(bs, sorted);
      moduleFunctions := moduleFunctions + finished;
      functions := [];
      assert moduleFunctions[|old(moduleFunctions)|..] == finished;
    }
  }

  /** The loop of Finalize. */
  method FinishFunctions(sorted: seq<Function>, boundaries: seq<Address>) returns (finished: seq<Function>)
    ensures finished == FinishedAll(BoundarySet(boundaries), sorted)
  {
    hide Finished, BoundarySet;
    ghost var bs := BoundarySet(boundaries);
    finished := [];
    assert sorted[0..] == sorted;
    for i := 0 to |sorted|
      invariant finished + FinishedAll(bs, sorted[i..]) == FinishedAll(bs, sorted)
    {
      var f := FinishFunction(sorted[i], boundaries);
      assert sorted[i..][1..] == sorted[i + 1..];
      assert finished + ([f] + FinishedAll(bs, sorted[i + 1..])) == finished + [f] + FinishedAll(bs, sorted[i + 1..]);
      finished := finished + [f];
    }
    assert finished + [] == finished;
  }

  /** One round of the loop in Finalize. */
  method FinishFunction(f: Function, boundaries: seq<Address>) returns (g: Function)
    ensures g == Finished(BoundarySet(boundaries), f)
  {
    hide SortLines, Sized, WrapSub, NextBoundary;
    var bs := set b | b in boundaries;
    var boundary := NextBoundary(bs, f.address);
    var size := if boundary.Some? then boundary.value - f.address else FALLBACK_SIZE;
    var lines := SortLines(f.lines);
    if lines != [] {
      var end := WrapAdd(f.address, size);
      ghost var sorted := lines;
      var last := |lines| - 1;
      for i := 0 to last
        invariant |lines| == |sorted| && forall k :: i <= k <= last ==> lines[k] == sorted[k]
        invariant forall k :: 0 <= k < i ==> lines[k] == sorted[k].(size := SizeOf(sorted, end, k))
      {
        lines := lines[i := lines[i].(size := WrapSub(lines[i + 1].address, lines[i].address))];
      }
      lines := lines[last := lines[last].(size := WrapSub(end, lines[last].address))];
      forall k | 0 <= k < |sorted| ensures lines[k] == Sized(sorted, end)[k] {
        SizedAt(sorted, end, k);
      }
      assert lines == Sized(sorted, end);
    }
    return f.(size := size, lines := lines);
  }
}
