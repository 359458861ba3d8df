/**
 Writing call frame information as STACK CFI records, loading the records, and looking for the rules
 in force at an address gives the rules that the stack frame entry means there.
 */
module CfiTranslation {
  import opened CText
  import opened CfiRules
  import opened CfiFrameInfos
  import opened CfiText
  import opened CfiRecords
  import opened OrderedKeys
  import opened RangeMaps
  import opened SourceLineResolver
  import opened SymbolFile
  import opened SymbolLines
  import opened SymbolParsing
  import opened Words

  // ----- what an entry means

  /** The change at c is the last one for a name up to address x. */
  ghost predicate IsLastChange(e: StackFrameEntry, name: string, x: Address, c: Address) {
    && c in e.ruleChanges && c <= x && name in e.ruleChanges[c]
    && forall c' <- e.ruleChanges :: c < c' <= x ==> name !in e.ruleChanges[c']
  }

  /** Start with the initial rules and apply the changes for all addresses up to and including x. */
  ghost function RuleInForce(e: StackFrameEntry, name: string, x: Address): Option<string> {
    if c :| IsLastChange(e, name, x, c) then Some(e.ruleChanges[c][name])
    else if name in e.initialRules then Some(e.initialRules[name])
    else None
  }

  lemma {:induction false} LastChangeExists(e: StackFrameEntry, name: string, x: Address, c: Address)
    requires c in e.ruleChanges && c <= x && name in e.ruleChanges[c]
    ensures exists last :: IsLastChange(e, name, x, last)
  {
    var keys := set k: Address | k in e.ruleChanges && k <= x && name in e.ruleChanges[k];
    assert c in keys;
    AddressOrder();
    var last := LeastInOrder(keys, AddressAtLeast);
    assert forall k <- keys :: AddressAtLeast(last, k);
    forall c' | c' in e.ruleChanges && last < c' <= x ensures name !in e.ruleChanges[c'] {
      assert c' in keys <==> name in e.ruleChanges[c'];
    }
    assert IsLastChange(e, name, x, last);
  }

  // ----- entries that can be written

  predicate Covers(e: StackFrameEntry, x: Address) { e.address <= x < e.address + e.size }

  /** None of the entry's maps is empty, and all can be printed. */
  predicate HasWrittenMaps(e: StackFrameEntry) {
    IsWrittenMap(e.initialRules) && forall c <- e.ruleChanges :: IsWrittenMap(e.ruleChanges[c])
  }

  /** The entry's range does not wrap around and holds all its changes; none of its maps is empty. */
  predicate IsLoadable(e: StackFrameEntry) {
    && e.address + e.size <= ADDRESS_SPACE
    && HasWrittenMaps(e)
    && forall c <- e.ruleChanges :: Covers(e, c)
  }

  /** The load address is inside the entry's range, behind its first byte. */
  predicate Across(e: StackFrameEntry, load: Address) { e.address < load < e.address + e.size }

  /** The entries whose ranges find a place in the tables. */
  predicate IsKept(e: StackFrameEntry, load: Address) { e.size > 0 && !Across(e, load) }

  predicate Apart(a: StackFrameEntry, b: StackFrameEntry) {
    a.address + a.size <= b.address || b.address + b.size <= a.address
  }

  predicate AreLoadable(es: seq<StackFrameEntry>) {
    && (forall e <- es :: IsLoadable(e))
    && (forall i, j :: 0 <= i < j < |es| ==> Apart(es[i], es[j]))
  }

  function Base(e: StackFrameEntry, load: Address): Address { WrapSub(e.address, load) }

  function Last(e: StackFrameEntry, load: Address): Address {
    WrapSub(WrapAdd(e.address, WrapSub(e.size, 1)), load)
  }

  lemma {:induction false} ThereAndBack(x: Address, load: Address)
    ensures WrapAdd(WrapSub(x, load), load) == x && WrapSub(WrapAdd(x, load), load) == x
  {
  }

  /** Relative to the load address such an entry is still one range, with its addresses in their order. */
  lemma {:induction false} RelativeRange(e: StackFrameEntry, load: Address, x: Address)
    requires IsLoadable(e) && IsKept(e, load)
    ensures Fits(Base(e, load), e.size) && High(Base(e, load), e.size) == Last(e, load)
    ensures Covers(e, x) <==> Base(e, load) <= WrapSub(x, load) <= Last(e, load)
    ensures Covers(e, x) ==> WrapSub(x, load) == Base(e, load) + (x - e.address)
    ensures WrapAdd(WrapSub(x, load), load) == x
  {
    hide HasWrittenMaps;
  }

  /** The range of any other entry is empty, or wraps around relative to the load address. */
  lemma {:induction false} RelativeWrap(e: StackFrameEntry, load: Address)
    requires IsLoadable(e) && !IsKept(e, load)
    ensures !Fits(Base(e, load), e.size)
  {
    hide HasWrittenMaps;
  }

  lemma {:induction false} RelativeApart(a: StackFrameEntry, b: StackFrameEntry, load: Address)
    requires IsLoadable(a) && IsLoadable(b) && IsKept(a, load) && IsKept(b, load) && Apart(a, b)
    ensures Last(a, load) < Base(b, load) || Last(b, load) < Base(a, load)
  {
    hide HasWrittenMaps, IsWrittenMap;
  }

  // ----- the tables after loading

  ghost function AddDeltas(delta: map<Address, string>, order: seq<Address>, changes: map<Address, RuleMap>,
      load: Address): map<Address, string>
    requires forall c <- order :: c in changes
    decreases |order|
  {
    if order == [] then delta
    else AddDeltas(delta[WrapSub(order[0], load) := RuleMapText(changes[order[0]])], order[1..], changes, load)
  }

  ghost function AddEntry(tables: Tables, e: StackFrameEntry, load: Address): (r: Tables)
    requires Disjoint(tables.initial)
    ensures Disjoint(r.initial)
  {
    Tables(StoreInitial(tables.initial, Base(e, load), e.size, RuleMapText(e.initialRules)),
           AddDeltas(tables.delta, AddressesInOrder(e.ruleChanges), e.ruleChanges, load))
  }

  ghost function AddAll(es: seq<StackFrameEntry>, load: Address): (r: Tables)
    ensures Disjoint(r.initial)
  {
    if es == [] then EMPTY.tables else AddEntry(AddAll(es[..|es| - 1], load), es[|es| - 1], load)
  }

  lemma {:induction false} EnterDeltaLines(loader: Loader, order: seq<Address>, changes: map<Address, RuleMap>,
      load: Address)
    requires Disjoint(loader.tables.initial) && forall c <- order :: c in changes && IsWrittenMap(changes[c])
    ensures Clear(loader, DeltaLines(order, changes, load), loader.(tables := loader.tables.(
      delta := AddDeltas(loader.tables.delta, order, changes, load))))
    ensures StackLines(DeltaLines(order, changes, load)) == DeltaLines(order, changes, load)
    decreases |order|
  {
    hide DeltaLine, EnterLine, Clear, IsWrittenMap, RuleMapText, Disjoint;
    var lines := DeltaLines(order, changes, load);
    if order == [] {
      ClearNone(loader);
    } else {
      assert order[0] in order;
      EnterDeltaLine(loader, order[0], changes[order[0]], load);
      ClearOne(loader, lines[0]);
      var middle := EnterLine(loader, lines[0]).loader;
      EnterDeltaLines(middle, order[1..], changes, load);
      ClearBoth(loader, [lines[0]], middle, DeltaLines(order[1..], changes, load), loader.(tables := loader.tables.(
        delta := AddDeltas(loader.tables.delta, order, changes, load))));
      assert lines[1..] == DeltaLines(order[1..], changes, load);
    }
  }

  lemma {:induction false} EnterEntry(loader: Loader, e: StackFrameEntry, load: Address)
    requires Disjoint(loader.tables.initial) && HasWrittenMaps(e)
    ensures Clear(loader, EntryLines(e, load), loader.(tables := AddEntry(loader.tables, e, load)))
    ensures StackLines(EntryLines(e, load)) == EntryLines(e, load)
  {
    hide InitLine, DeltaLines, EnterLine, Clear, IsWrittenMap, RuleMapText, StoreInitial, Disjoint;
    var order := AddressesInOrder(e.ruleChanges);
    var deltas := DeltaLines(order, e.ruleChanges, load);
    EnterInitLine(loader, e, load);
    ClearOne(loader, InitLine(e, load));
    var middle := EnterLine(loader, InitLine(e, load)).loader;
    EnterDeltaLines(middle, order, e.ruleChanges, load);
    ClearBoth(loader, [InitLine(e, load)], middle, deltas, loader.(tables := AddEntry(loader.tables, e, load)));
    assert EntryLines(e, load)[1..] == deltas;
  }

  lemma {:induction false} EnterAll(loader: Loader, es: seq<StackFrameEntry>, load: Address)
    requires loader.tables == EMPTY.tables && forall e <- es :: HasWrittenMaps(e)
    ensures Clear(loader, CfiLines(es, load), loader.(tables := AddAll(es, load)))
    ensures StackLines(CfiLines(es, load)) == CfiLines(es, load)
    decreases |es|
  {
    hide EntryLines, Clear, HasWrittenMaps, AddEntry, StackLines;
    if es == [] {
      ClearNone(loader);
      StackLinesOfNone();
    } else {
      var before, e := es[..|es| - 1], es[|es| - 1];
      EnterAll(loader, before, load);
      var middle := loader.(tables := AddAll(before, load));
      EnterEntry(middle, e, load);
      ClearBoth(loader, CfiLines(before, load), middle, EntryLines(e, load),
                loader.(tables := AddAll(es, load)));
      StackLinesBoth(CfiLines(before, load), EntryLines(e, load));
    }
  }

  lemma {:induction false} StackLinesOfNone()
    ensures StackLines([]) == []
  {
  }

  lemma {:induction false} DeltaLinesArePieces(e: StackFrameEntry, order: seq<Address>, load: Address)
    requires HasWrittenMaps(e) && forall c <- order :: c in e.ruleChanges
    ensures ArePieces(DeltaLines(order, e.ruleChanges, load))
    decreases |order|
  {
    hide IsPiece, IsWrittenMap, DeltaLine;
    if order != [] {
      assert order[0] in order;
      LinesArePieces(e, order[0], e.ruleChanges[order[0]], load);
      DeltaLinesArePieces(e, order[1..], load);
    }
  }

  lemma {:induction false} CfiLinesArePieces(es: seq<StackFrameEntry>, load: Address)
    requires forall e <- es :: HasWrittenMaps(e)
    ensures ArePieces(CfiLines(es, load))
    decreases |es|
  {
    hide IsPiece, IsWrittenMap, InitLine;
    if es != [] {
      var e := es[|es| - 1];
      CfiLinesArePieces(es[..|es| - 1], load);
      LinesArePieces(e, 0, e.initialRules, load);
      DeltaLinesArePieces(e, AddressesInOrder(e.ruleChanges), load);
    }
  }

  lemma {:induction false} BodyOfText(text: string)
    requires NUL !in text
    ensures Scrubbed(Body(text + [NUL])) == text && NUL !in Body(text + [NUL])
  {
    assert (text + [NUL])[..|text|] == text;
  }

  /**
   The lines of a symbol file with these entries: theirs are the only ones that start with STACK, but there
   may be any others before, between and behind them, as long as not too many are wrong.
   */
  ghost predicate IsSymbolFile(lines: seq<string>, es: seq<StackFrameEntry>, load: Address) {
    ArePieces(lines) && StackLines(lines) == CfiLines(es, load) && ErrorsIn(EMPTY, lines) <= MAX_ERRORS
  }

  /** The entries alone are such a file. */
  lemma {:induction false} CfiLinesAreFile(es: seq<StackFrameEntry>, load: Address)
    requires forall e <- es :: HasWrittenMaps(e)
    ensures IsSymbolFile(CfiLines(es, load), es, load)
  {
    hide CfiLines, HasWrittenMaps, AddAll;
    CfiLinesArePieces(es, load);
    EnterAll(EMPTY, es, load);
  }

  /** Loading the text of a file enters each of its entries. */
  lemma {:induction false} LoadText(lines: seq<string>, es: seq<StackFrameEntry>, load: Address)
    requires IsSymbolFile(lines, es, load) && forall e <- es :: HasWrittenMaps(e)
    ensures Loaded(EMPTY, Text(lines) + [NUL]).tables == AddAll(es, load)
  {
    hide CfiLines, HasWrittenMaps, AddAll, Tokens, Text, Body, Scrubbed, EnterLine, EnterLines, IsPiece, StackLines,
      After, ErrorsIn;
    LinesOfText(lines);
    BodyOfText(Text(lines));
    AllLinesRead(EMPTY, lines, 0);
    TablesOfStackLines(EMPTY, EMPTY, lines);
    EnterAll(EMPTY, es, load);
  }

  lemma {:induction false} DeltaAt(delta: map<Address, string>, order: seq<Address>,
      changes: map<Address, RuleMap>, load: Address, k: Address)
    requires forall c <- order :: c in changes
    ensures var d, c := AddDeltas(delta, order, changes, load), WrapAdd(k, load);
      if c in order then k in d && d[k] == RuleMapText(changes[c])
      else (k in d <==> k in delta) && (k in d ==> d[k] == delta[k])
    decreases |order|
  {
    hide RuleMapText;
    if order != [] {
      DeltaAt(delta[WrapSub(order[0], load) := RuleMapText(changes[order[0]])], order[1..], changes, load, k);
    }
  }

  /** The initial rules in the tables are those of the entries that are kept. */
  ghost predicate HoldsInitial(ranges: Ranges<string>, es: seq<StackFrameEntry>, load: Address) {
    && (forall e <- es :: IsKept(e, load) ==>
          Last(e, load) in ranges && ranges[Last(e, load)] == Range(Base(e, load), RuleMapText(e.initialRules)))
    && (forall h <- ranges :: exists e <- es :: IsKept(e, load) && Last(e, load) == h)
  }

  /** The changes in the tables are those of the entries. */
  ghost predicate HoldsDeltas(delta: map<Address, string>, es: seq<StackFrameEntry>, load: Address) {
    && (forall k: Address, e <- es :: WrapAdd(k, load) in e.ruleChanges ==>
          k in delta && delta[k] == RuleMapText(e.ruleChanges[WrapAdd(k, load)]))
    && (forall k <- delta :: exists e <- es :: WrapAdd(k, load) in e.ruleChanges)
  }

  lemma {:induction false} InitialOfOneMore(ranges: Ranges<string>, before: seq<StackFrameEntry>,
      e: StackFrameEntry, load: Address)
    requires Disjoint(ranges) && HoldsInitial(ranges, before, load) && IsLoadable(e)
    requires forall d <- before :: IsLoadable(d) && Apart(d, e)
    ensures HoldsInitial(StoreInitial(ranges, Base(e, load), e.size, RuleMapText(e.initialRules)), before + [e], load)
  {
    hide IsLoadable, IsKept, RuleMapText, Base, Last, Disjoint, Apart, Overlaps;
    if IsKept(e, load) {
      RelativeRange(e, load, e.address);
      forall d <- before | IsKept(d, load)
        ensures Base(d, load) <= Last(d, load) && (Last(d, load) < Base(e, load) || Last(e, load) < Base(d, load))
      {
        RelativeApart(d, e, load);
        RelativeRange(d, load, d.address);
      }
      NoOverlap(ranges, before, e, load);
    } else {
      RelativeWrap(e, load);
    }
  }

  lemma {:induction false} NoOverlap(ranges: Ranges<string>, before: seq<StackFrameEntry>, e: StackFrameEntry,
      load: Address)
    requires HoldsInitial(ranges, before, load)
    requires forall d <- before :: IsKept(d, load) ==>
      Last(d, load) < Base(e, load) || Last(e, load) < Base(d, load)
    ensures !Overlaps(ranges, Base(e, load), Last(e, load))
  {
    hide RuleMapText, Base, Last, IsKept;
  }

  lemma {:induction false} AllButLast(es: seq<StackFrameEntry>)
    requires AreLoadable(es) && es != []
    ensures var before, e := es[..|es| - 1], es[|es| - 1];
      && AreLoadable(before) && IsLoadable(e) && before + [e] == es
      && forall d <- before :: IsLoadable(d) && Apart(d, e)
  {
    hide IsLoadable, Apart;
    assert es[|es| - 1] in es && forall d <- es[..|es| - 1] :: d in es;
  }

  lemma {:induction false} InitialOfAll(es: seq<StackFrameEntry>, load: Address)
    requires AreLoadable(es)
    ensures HoldsInitial(AddAll(es, load).initial, es, load)
    decreases |es|
  {
    assert HoldsInitial(map[], [], load);
    hide IsLoadable, IsKept, RuleMapText, AddDeltas, StoreInitial, Base, Last, Disjoint, AreLoadable,
      Apart, HoldsInitial;
    if es != [] {
      var before, e := es[..|es| - 1], es[|es| - 1];
      AllButLast(es);
      InitialOfAll(before, load);
      InitialOfOneMore(AddAll(before, load).initial, before, e, load);
    }
  }

  lemma {:induction false} ChangesApart(d: StackFrameEntry, e: StackFrameEntry, c: Address)
    requires IsLoadable(d) && IsLoadable(e) && Apart(d, e) && c in d.ruleChanges
    ensures c !in e.ruleChanges && Covers(d, c)
  {
    hide HasWrittenMaps;
  }

  lemma {:induction false} DeltasOfOneMore(delta: map<Address, string>, before: seq<StackFrameEntry>,
      e: StackFrameEntry, load: Address)
    requires HoldsDeltas(delta, before, load) && IsLoadable(e)
    requires forall d <- before :: IsLoadable(d) && Apart(d, e)
    ensures HoldsDeltas(AddDeltas(delta, AddressesInOrder(e.ruleChanges), e.ruleChanges, load), before + [e], load)
  {
    hide RuleMapText, AddDeltas, IsLoadable, Apart, WrapAdd;
    var order := AddressesInOrder(e.ruleChanges);
    var all := AddDeltas(delta, order, e.ruleChanges, load);
    forall k: Address, d | d in before + [e] && WrapAdd(k, load) in d.ruleChanges
      ensures k in all && all[k] == RuleMapText(d.ruleChanges[WrapAdd(k, load)])
    {
      DeltaAt(delta, order, e.ruleChanges, load, k);
      if d != e {
        assert d in before;
        ChangesApart(d, e, WrapAdd(k, load));
      }
    }
    forall k | k in all ensures exists d <- before + [e] :: WrapAdd(k, load) in d.ruleChanges {
      DeltaAt(delta, order, e.ruleChanges, load, k);
      assert e in before + [e];
      if k in delta {
        var d :| d in before && WrapAdd(k, load) in d.ruleChanges;
        assert d in before + [e];
      }
    }
  }

  lemma {:induction false} DeltasOfAll(es: seq<StackFrameEntry>, load: Address)
    requires AreLoadable(es)
    ensures HoldsDeltas(AddAll(es, load).delta, es, load)
    decreases |es|
  {
    assert HoldsDeltas(map[], [], load);
    hide IsLoadable, RuleMapText, AddDeltas, StoreInitial, Disjoint, AreLoadable, Apart, HoldsDeltas;
    if es != [] {
      var before, e := es[..|es| - 1], es[|es| - 1];
      AllButLast(es);
      DeltasOfAll(before, load);
      DeltasOfOneMore(AddAll(before, load).delta, before, e, load);
    }
  }

  // ----- the rules found

  /** The table's changes from lo up to an address are those of one entry. */
  ghost predicate HoldsEntry(delta: map<Address, string>, e: StackFrameEntry, load: Address, lo: int,
      address: Address) {
    forall k <- delta :: lo <= k <= address ==>
      WrapAdd(k, load) in e.ruleChanges && delta[k] == RuleMapText(e.ruleChanges[WrapAdd(k, load)])
  }

  /** The last change for a name in the table, from lo up to an address. */
  ghost predicate IsLastDelta(delta: map<Address, string>, e: StackFrameEntry, load: Address, lo: int,
      address: Address, name: string, k: Address) {
    && k in delta && lo <= k <= address
    && WrapAdd(k, load) in e.ruleChanges && name in e.ruleChanges[WrapAdd(k, load)]
    && forall k' <- delta :: k < k' <= address && WrapAdd(k', load) in e.ruleChanges ==>
         name !in e.ruleChanges[WrapAdd(k', load)]
  }

  ghost predicate IsFirst(delta: map<Address, string>, lo: int, at: Option<Address>) {
    && (at.Some? ==> at.value in delta && lo <= at.value)
    && (forall k <- delta :: lo <= k ==> at.Some? && at.value <= k)
  }

  /** Applying the table's changes in their order leaves the last one for each name in force. */
  lemma {:induction false} ChangedRules(delta: map<Address, string>, e: StackFrameEntry, load: Address, lo: int,
      at: Option<Address>, address: Address, rules: Rules, name: string)
    requires IsLoadable(e) && HoldsEntry(delta, e, load, lo, address) && IsFirst(delta, lo, at)
    ensures var r := Changed(delta, at, address, rules);
      && (Separate(rules) ==> Separate(r))
      && (forall k :: IsLastDelta(delta, e, load, lo, address, name, k) ==>
            Lookup(r, name) == Some(e.ruleChanges[WrapAdd(k, load)][name]))
      && ((forall k <- delta :: lo <= k <= address && WrapAdd(k, load) in e.ruleChanges ==>
             name !in e.ruleChanges[WrapAdd(k, load)])
          ==> Lookup(r, name) == Lookup(rules, name))
    decreases if at.Some? then ADDRESS_SPACE - at.value else 0
  {
    hide Lookup, Separate, ParseRules, RuleMapText, IsWrittenMap, WrapAdd;
    if at.Some? && at.value <= address {
      var c := WrapAdd(at.value, load);
      ReadMapText(e.ruleChanges[c], rules, name);
      var next := ParseRules(delta[at.value], rules).rules;
      ChangedRules(delta, e, load, at.value + 1, Next(delta.Keys, at.value), address, next, name);
      var r := Changed(delta, at, address, rules);
      forall k | IsLastDelta(delta, e, load, lo, address, name, k)
        ensures Lookup(r, name) == Some(e.ruleChanges[WrapAdd(k, load)][name])
      {
        if k != at.value {
          assert IsLastDelta(delta, e, load, at.value + 1, address, name, k);
        }
      }
    }
  }

  /** The changes in the table at the entry's addresses are its own. */
  lemma {:induction false} IsOneOf(es: seq<StackFrameEntry>, e: StackFrameEntry)
    requires AreLoadable(es) && e in es
    ensures IsLoadable(e)
  {
  }

  lemma {:induction false} EntryDeltas(delta: map<Address, string>, es: seq<StackFrameEntry>,
      e: StackFrameEntry, load: Address, x: Address)
    requires AreLoadable(es) && e in es && IsKept(e, load) && Covers(e, x) && HoldsDeltas(delta, es, load)
    ensures HoldsEntry(delta, e, load, Base(e, load), WrapSub(x, load))
  {
    hide RuleMapText, HasWrittenMaps, AreLoadable, WrapAdd, WrapSub, Apart, IsKept;
    forall k | k in delta && Base(e, load) <= k <= WrapSub(x, load)
      ensures WrapAdd(k, load) in e.ruleChanges && delta[k] == RuleMapText(e.ruleChanges[WrapAdd(k, load)])
    {
      var c := WrapAdd(k, load);
      var d :| d in es && c in d.ruleChanges;
      IsOneOf(es, d);
      IsOneOf(es, e);
      RelativeRange(e, load, x);
      RelativeRange(e, load, c);
      ThereAndBack(k, load);
      CoveredOnce(es, d, e, c);
    }
  }

  lemma {:induction false} ApartAt(es: seq<StackFrameEntry>, i: nat, j: nat)
    requires AreLoadable(es)
    ensures i < j < |es| ==> Apart(es[i], es[j])
  {
  }

  lemma {:induction false} CoveredOnce(es: seq<StackFrameEntry>, d: StackFrameEntry, e: StackFrameEntry, x: Address)
    requires AreLoadable(es) && d in es && e in es && Covers(d, x) && Covers(e, x)
    ensures d == e
  {
    hide HasWrittenMaps, IsWrittenMap;
    var i: nat :| i < |es| && es[i] == d;
    var j: nat :| j < |es| && es[j] == e;
    ApartAt(es, i, j);
    ApartAt(es, j, i);
  }

  /** What the last change in the table is in the entry. */
  lemma {:induction false} LastDelta(delta: map<Address, string>, es: seq<StackFrameEntry>, e: StackFrameEntry,
      load: Address, x: Address, name: string, c: Address)
    requires AreLoadable(es) && e in es && IsKept(e, load) && Covers(e, x) && HoldsDeltas(delta, es, load)
    requires IsLastChange(e, name, x, c)
    ensures WrapAdd(WrapSub(c, load), load) == c
    ensures IsLastDelta(delta, e, load, Base(e, load), WrapSub(x, load), name, WrapSub(c, load))
  {
    hide RuleMapText, IsWrittenMap;
    var k := WrapSub(c, load);
    RelativeRange(e, load, x);
    RelativeRange(e, load, c);
    forall k' | k' in delta && k < k' <= WrapSub(x, load) && WrapAdd(k', load) in e.ruleChanges
      ensures name !in e.ruleChanges[WrapAdd(k', load)]
    {
      RelativeRange(e, load, WrapAdd(k', load));
      assert WrapSub(WrapAdd(k', load), load) == k';
    }
  }

  /**
   At every address that an entry covers, and for every name, the rule found is the one in force by
   the entry's own meaning.
   */
  lemma {:induction false} FoundInEntry(es: seq<StackFrameEntry>, load: Address, e: StackFrameEntry, x: Address,
      name: string)
    requires AreLoadable(es) && e in es && IsKept(e, load) && Covers(e, x)
    ensures var found := Found(AddAll(es, load), WrapSub(x, load));
      found.Some? && Separate(found.value) && Lookup(found.value, name) == RuleInForce(e, name, x)
  {
    hide Lookup, Separate, ParseRules, RuleMapText, AddAll, Changed, IsLastDelta, HoldsEntry,
      HoldsDeltas, IsWrittenMap, Base, Last;
    var tables, a := AddAll(es, load), WrapSub(x, load);
    InitialOfAll(es, load);
    DeltasOfAll(es, load);
    RelativeRange(e, load, x);
    assert Contains(tables.initial, Last(e, load), a);
    assert IsWrittenMap(e.initialRules);
    ReadMapText(e.initialRules, NO_RULES, name);
    NothingInForce(name);
    var first := ParseRules(RuleMapText(e.initialRules), NO_RULES).rules;
    EntryDeltas(tables.delta, es, e, load, x);
    var at := LowerBound(tables.delta.Keys, Base(e, load));
    assert IsFirst(tables.delta, Base(e, load), at);
    ChangedRules(tables.delta, e, load, Base(e, load), at, a, first, name);
    if c :| IsLastChange(e, name, x, c) {
      LastDelta(tables.delta, es, e, load, x, name, RuleChange(e, name, x));
    } else {
      NoDelta(tables.delta, e, load, x, name);
    }
  }

  lemma {:induction false} NothingInForce(name: string)
    ensures Separate(NO_RULES) && Lookup(NO_RULES, name) == None
  {
  }

  /** The address of the last change, as RuleInForce picks it. */
  ghost function RuleChange(e: StackFrameEntry, name: string, x: Address): (c: Address)
    requires exists c :: IsLastChange(e, name, x, c)
    ensures IsLastChange(e, name, x, c)
    ensures RuleInForce(e, name, x) == Some(e.ruleChanges[c][name])
  {
    var c :| IsLastChange(e, name, x, c);
    assert forall c' :: IsLastChange(e, name, x, c') ==> c' == c;
    c
  }

  lemma {:induction false} NoDelta(delta: map<Address, string>, e: StackFrameEntry, load: Address, x: Address,
      name: string)
    requires IsLoadable(e) && IsKept(e, load) && Covers(e, x) && !exists c :: IsLastChange(e, name, x, c)
    ensures forall k <- delta :: Base(e, load) <= k <= WrapSub(x, load) && WrapAdd(k, load) in e.ruleChanges ==>
              name !in e.ruleChanges[WrapAdd(k, load)]
  {
    hide HasWrittenMaps, IsWrittenMap, IsLastChange;
    forall k | k in delta && Base(e, load) <= k <= WrapSub(x, load) && WrapAdd(k, load) in e.ruleChanges
      ensures name !in e.ruleChanges[WrapAdd(k, load)]
    {
      var c := WrapAdd(k, load);
      RelativeRange(e, load, x);
      RelativeRange(e, load, c);
      assert WrapSub(c, load) == k;
      if name in e.ruleChanges[c] {
        LastChangeExists(e, name, x, c);
      }
    }
  }

  lemma {:induction false} NothingFound(es: seq<StackFrameEntry>, load: Address, x: Address)
    requires AreLoadable(es) && forall e <- es :: !(IsKept(e, load) && Covers(e, x))
    ensures Found(AddAll(es, load), WrapSub(x, load)) == None
  {
    hide RuleMapText, AddAll, IsWrittenMap, ParseRules, Changed, Last, Base, IsKept;
    InitialOfAll(es, load);
    var ranges := AddAll(es, load).initial;
    forall h | h in ranges ensures !Contains(ranges, h, WrapSub(x, load)) {
      var e :| e in es && IsKept(e, load) && Last(e, load) == h;
      RelativeRange(e, load, x);
    }
  }

  /**
   The meaning of call frame information is kept: after the entries are written and the file is
   loaded, rules are found at an address iff an entry covers it that does not reach across the load
   address, and then they are those in force there in that entry.
   */
  lemma {:induction false} TranslationKeepsMeaning(lines: seq<string>, es: seq<StackFrameEntry>, load: Address,
      x: Address)
    requires AreLoadable(es) && IsSymbolFile(lines, es, load)
    ensures var found := Found(Loaded(EMPTY, Text(lines) + [NUL]).tables, WrapSub(x, load));
      && (found.Some? <==> exists e <- es :: Covers(e, x) && !Across(e, load))
      && (found.Some? ==> Separate(found.value))
      && (forall e <- es, name :: Covers(e, x) && !Across(e, load) ==>
            found.Some? && Lookup(found.value, name) == RuleInForce(e, name, x))
  {
    assert forall e <- es :: HasWrittenMaps(e);
    assert forall e <- es :: IsKept(e, load) && Covers(e, x) <==> Covers(e, x) && !Across(e, load);
    hide Loaded, Found, Text, IsSymbolFile, IsLoadable, IsKept, Apart, Lookup, RuleInForce, AddAll,
      Separate, Covers, Across;
    LoadText(lines, es, load);
    forall e, name | e in es && Covers(e, x) && !Across(e, load)
      ensures var found := Found(AddAll(es, load), WrapSub(x, load));
        found.Some? && Separate(found.value) && Lookup(found.value, name) == RuleInForce(e, name, x)
    {
      FoundInEntry(es, load, e, x, name);
    }
    if e :| e in es && Covers(e, x) && !Across(e, load) {
      FoundInEntry(es, load, e, x, "");
    } else {
      NothingFound(es, load, x);
    }
  }

  /** An entry that reaches across the load address is lost, whatever other entries there are. */
  lemma {:induction false} StraddlingEntryIsLost(lines: seq<string>, es: seq<StackFrameEntry>, load: Address,
      e: StackFrameEntry, x: Address)
    requires AreLoadable(es) && IsSymbolFile(lines, es, load) && e in es && Across(e, load) && Covers(e, x)
    ensures Found(Loaded(EMPTY, Text(lines) + [NUL]).tables, WrapSub(x, load)) == None
  {
    hide Loaded, Found, Text, IsSymbolFile, IsLoadable, Apart;
    TranslationKeepsMeaning(lines, es, load, x);
    if d :| d in es && Covers(d, x) && !Across(d, load) {
      CoveredOnce(es, d, e, x);
      assert false;
    }
  }
}
