/**
 `StabsReader`: nested loops over the entries of a STABS section that drive a handler.
 */
module StabsReaders {
  import opened ByteCursors
  import opened CText
  import opened StabsStream
  import opened Words

  // ----- entries

  class EntryIterator {
    const valueSize: ValueSize
    const cursor: ByteCursor
    var atEnd: bool
    var index: nat
    var entry: Entry

    /** The iterator is at entry `index`, or at the end. */
    ghost predicate Valid()
      reads this, cursor
    {
      && cursor.Valid()
      && atEnd == !cursor.complete
      && (atEnd <==> index >= Count(cursor.buffer, valueSize))
      && (atEnd ==> cursor.here == |cursor.buffer|)
      && (!atEnd ==> cursor.here == (index + 1) * EntrySize(valueSize)
                     && entry == EntryAt(cursor.buffer, cursor.bigEndian, valueSize, index))
    }

    constructor (buffer: seq<Byte>, bigEndian: bool, valueSize: ValueSize)
      ensures Valid() && index == 0 && fresh(cursor)
      ensures cursor.buffer == buffer && cursor.bigEndian == bigEndian && this.valueSize == valueSize
    {
      this.valueSize := valueSize;
      cursor := new ByteCursor(buffer, bigEndian);
      atEnd, index := false, 0;
      entry := Entry(0, 0, 0, 0, 0);
      new;
      Fetch(0);
    }

    /** Read the entry at k, where the cursor is. */
    method Fetch(ghost k: nat)
      requires cursor.Valid()
      requires if cursor.complete then cursor.here == k * EntrySize(valueSize) else cursor.here == |cursor.buffer|
      requires !cursor.complete ==> k >= Count(cursor.buffer, valueSize)
      modifies this`atEnd, this`entry, cursor
      ensures cursor.Valid() && atEnd == !cursor.complete
      ensures atEnd <==> k >= Count(cursor.buffer, valueSize)
      ensures atEnd ==> cursor.here == |cursor.buffer|
      ensures !atEnd ==> cursor.here == (k + 1) * EntrySize(valueSize)
                         && entry == EntryAt(cursor.buffer, cursor.bigEndian, valueSize, k)
    {
      hide Number;
      EntryFits(cursor.buffer, valueSize, k);
      ghost var whole := cursor.complete && (k + 1) * EntrySize(valueSize) <= |cursor.buffer|;
      ghost var at := cursor.here;
      var nameOffset := cursor.Read(4, false, 8);
      var kind := cursor.Read(1, false, 1);
      var other := cursor.Read(1, false, 1);
      var descriptor := cursor.Read(2, false, 2);
      var value := cursor.Read(valueSize, false, 8);
      assert cursor.complete <==> whole;
      ValueFits(cursor.buffer, cursor.bigEndian, valueSize, at);
      entry := Entry(nameOffset, kind, other, descriptor, value % ADDRESS_SPACE);
      atEnd := !cursor.complete;
    }

    method Next()
      requires Valid()
      modifies this, cursor
      ensures Valid() && index == old(index) + 1
    {
      hide EntryAt;
      assert !atEnd || index + 1 >= Count(cursor.buffer, valueSize);
      Fetch(index + 1);
      index := index + 1;
    }
  }

  lemma {:induction false} ValueFits(bytes: seq<Byte>, bigEndian: bool, valueSize: ValueSize, at: nat)
    ensures at + 8 + valueSize <= |bytes| ==>
      (var v := Number(bytes[at + 8..at + 8 + valueSize], bigEndian); v < ADDRESS_SPACE && v % ADDRESS_SPACE == v)
  {
    if at + 8 + valueSize <= |bytes| {
      EightBytes(Number(bytes[at + 8..at + 8 + valueSize], bigEndian), valueSize);
    }
  }

  // ----- the handler

  /**
   A handler that may refuse to go on after any call, depending on all the calls so far; it keeps a
   record of them.
   */
  class Handler {
    const accepts: seq<Call> -> bool
    var calls: seq<Call>

    constructor (accepts: seq<Call> -> bool)
      ensures this.accepts == accepts && calls == []
    {
      this.accepts, calls := accepts, [];
    }

    method Make(call: Call) returns (ok: bool)
      modifies this
      ensures calls == old(calls) + [call] && ok == accepts(calls)
    {
      calls := calls + [call];
      return accepts(calls);
    }
  }

  /** All calls were accepted. */
  ghost predicate Accepted(accepts: seq<Call> -> bool, calls: seq<Call>) {
    forall n :: 0 < n <= |calls| ==> accepts(calls[..n])
  }

  /** All calls but the last were accepted, and they are a beginning of what the section calls for. */
  ghost predicate Refused(accepts: seq<Call> -> bool, calls: seq<Call>, all: seq<Call>) {
    calls != [] && calls <= all && Accepted(accepts, calls[..|calls| - 1]) && !accepts(calls)
  }

  /** All calls so far were accepted, and `rest` is still to come. */
  ghost predicate OnTrack(accepts: seq<Call> -> bool, calls: seq<Call>, rest: seq<Call>, all: seq<Call>) {
    calls + rest == all && Accepted(accepts, calls)
  }

  lemma {:induction false} OneCall(accepts: seq<Call> -> bool, calls: seq<Call>, call: Call, rest: seq<Call>,
      all: seq<Call>)
    requires OnTrack(accepts, calls, [call] + rest, all)
    ensures if accepts(calls + [call]) then OnTrack(accepts, calls + [call], rest, all)
            else Refused(accepts, calls + [call], all)
  {
    var more := calls + [call];
    assert more + rest == all;
    assert more[..|more| - 1] == calls;
    if accepts(more) {
      forall n | 0 < n <= |more| ensures accepts(more[..n]) {
        if n == |more| {
          assert more[..n] == more;
        } else {
          assert more[..n] == calls[..n];
        }
      }
    }
  }

  // ----- the reader

  class StabsReader {
    const entries: EntryIterator
    const strings: string
    const unitized: bool
    const handler: Handler
    var stringOffset: Address
    var nextCuStringOffset: Address
    var currentSourceFile: string
    var queuedLines: seq<QueuedLine>

    ghost predicate Valid()
      reads this, entries, entries.cursor
    {
      entries.Valid()
    }

    ghost function Stab(): Section
      reads this, entries, entries.cursor
    {
      Section(Entries(entries.cursor.buffer, entries.cursor.bigEndian, entries.valueSize), strings, unitized)
    }

    ghost function StateIn(mode: Mode): State
      reads this
    {
      State(mode, stringOffset, nextCuStringOffset, currentSourceFile, queuedLines)
    }

    /** The calls for the rest of the section, in some mode. */
    ghost function Rest(mode: Mode): seq<Call>
      requires Valid() && entries.index <= Count(entries.cursor.buffer, entries.valueSize)
      reads this, entries, entries.cursor
    {
      Calls(Stab(), StateIn(mode), entries.index)
    }

    ghost predicate Follows(mode: Mode, all: seq<Call>)
      reads this, entries, entries.cursor, handler
    {
      && Valid() && entries.index <= Count(entries.cursor.buffer, entries.valueSize)
      && OnTrack(handler.accepts, handler.calls, Rest(mode), all)
    }

    constructor (stab: seq<Byte>, strings: string, bigEndian: bool, valueSize: ValueSize, unitized: bool,
        handler: Handler)
      ensures Valid() && this.handler == handler && entries.index == 0
      ensures Stab() == Section(Entries(stab, bigEndian, valueSize), strings, unitized)
      ensures StateIn(Outside) == START && fresh(entries) && fresh(entries.cursor)
    {
      entries := new EntryIterator(stab, bigEndian, valueSize);
      this.strings, this.unitized, this.handler := strings, unitized, handler;
      stringOffset, nextCuStringOffset, currentSourceFile, queuedLines := 0, 0, "", [];
    }

    /** What the next entry, in the given state, calls for. */
    lemma NextFrom(st: State)
      requires Valid() && entries.index <= Count(entries.cursor.buffer, entries.valueSize)
      ensures entries.atEnd ==> Calls(Stab(), st, entries.index) == AtEnd(st.mode)
      ensures !entries.atEnd ==>
        (var effect := Step(Stab(), st, entries.entry);
         Calls(Stab(), st, entries.index) == effect.calls + Calls(Stab(), effect.state, entries.index + 1))
    {
      hide Step, AtEnd;
      CallsStep(Stab(), st, entries.index);
    }

    lemma NextCalls(mode: Mode)
      requires Valid() && entries.index <= Count(entries.cursor.buffer, entries.valueSize)
      ensures entries.atEnd ==> Rest(mode) == AtEnd(mode)
      ensures !entries.atEnd ==>
        (var effect := Step(Stab(), StateIn(mode), entries.entry);
         Rest(mode) == effect.calls + Calls(Stab(), effect.state, entries.index + 1))
    {
      hide Step, AtEnd, Calls, Entries;
      NextFrom(StateIn(mode));
    }

    method SymbolString() returns (name: string)
      ensures name == Symbol(strings, stringOffset, entries.entry)
    {
      hide Offset, CString;
      var offset := Offset(stringOffset, entries.entry);
      if 2 * offset >= ADDRESS_SPACE || offset >= |strings| {
        offset := 0;
      }
      return CString(strings[offset..]);
    }

    method Process() returns (ok: bool)
      requires Valid() && entries.index == 0 && StateIn(Outside) == START && handler.calls == []
      modifies this, entries, entries.cursor, handler
      ensures Valid() && Stab() == old(Stab())
      ensures ok ==> handler.calls == Calls(Stab(), START, 0) && Accepted(handler.accepts, handler.calls)
      ensures ok ==> entries.index == |Stab().entries|
      ensures !ok ==> Refused(handler.accepts, handler.calls, Calls(Stab(), START, 0))
      ensures if ok then WalkTo(Nowhere, handler.calls) == At(Nowhere) else WalkTo(Nowhere, handler.calls).At?
    {
      hide Calls, Step, Symbol, Entries, Accepted, WalkTo;
      ghost var all := Calls(Stab(), START, 0);
      CallsFollowProtocol(Stab(), START, 0);
      assert [] + all == all;
      assert Accepted(handler.accepts, []) by {
        NothingRefused(handler.accepts);
      }
      while !entries.atEnd
        invariant Follows(Outside, all) && Stab() == old(Stab())
        decreases |Stab().entries| - entries.index
      {
        if entries.entry.kind == N_SO {
          var more := ProcessCompilationUnit(all);
          if !more {
            BeginningFollowsProtocol(handler.calls, all);
            return false;
          }
        } else if entries.entry.kind == N_UNDF && unitized {
          OtherEntry(all);
          stringOffset := nextCuStringOffset;
          nextCuStringOffset := entries.entry.value;
          entries.Next();
        } else {
          OtherEntry(all);
          entries.Next();
        }
      }
      NextCalls(Outside);
      assert handler.calls + [] == handler.calls;
      return true;
    }

    /** An entry outside units that does not start one. */
    lemma OtherEntry(all: seq<Call>)
      requires Follows(Outside, all) && !entries.atEnd && entries.entry.kind != N_SO
      ensures Rest(Outside) == Calls(Stab(),
        if entries.entry.kind == N_UNDF && unitized
        then StateIn(Outside).(stringOffset := nextCuStringOffset, nextOffset := entries.entry.value)
        else StateIn(Outside), entries.index + 1)
    {
      hide Calls, Symbol, Entries;
      NextCalls(Outside);
      var effect := Step(Stab(), StateIn(Outside), entries.entry);
      assert effect.calls + Calls(Stab(), effect.state, entries.index + 1)
          == Calls(Stab(), effect.state, entries.index + 1);
    }

    method ProcessCompilationUnit(ghost all: seq<Call>) returns (ok: bool)
      requires Follows(Outside, all) && !entries.atEnd && entries.entry.kind == N_SO
      modifies this, entries, entries.cursor, handler
      ensures Valid() && Stab() == old(Stab())
      ensures ok ==> Follows(Outside, all) && entries.index > old(entries.index)
      ensures !ok ==> Refused(handler.accepts, handler.calls, all)
    {
      hide *;
      var more, started := OpenUnit(all);
      if !more || !started {
        return more;
      }
      more := ProcessUnitBody(all);
      if !more {
        return false;
      }
      ok := EndUnit(all);
    }

    /** The first part of ProcessCompilationUnit, up to the start of the unit, if one starts. */
    method OpenUnit(ghost all: seq<Call>) returns (ok: bool, started: bool)
      requires Follows(Outside, all) && !entries.atEnd && entries.entry.kind == N_SO
      modifies this, entries, entries.cursor, handler
      ensures Valid() && Stab() == old(Stab())
      ensures ok ==> Follows(if started then InUnit else Outside, all) && entries.index > old(entries.index)
      ensures !ok ==> Refused(handler.accepts, handler.calls, all)
    {
      hide Calls, Step, Symbol, Entries, Accepted, OnTrack, Refused, IsDirectory;
      var buildDirectory := "";
      var name := SymbolString();
      ghost var mode := Outside;
      if IsDirectory(name) {
        buildDirectory := name;
        DirectoryEntry(all);
        entries.Next();
        mode := AfterDirectory(name);
      }
      assert Follows(mode, all);
      if entries.atEnd || entries.entry.kind != N_SO {
        NoUnit(mode);
        return true, false;
      }
      ok, started := OpenNamedUnit(mode, buildDirectory, all);
    }

    /** The entry with the name of the unit's file; without a name it starts no unit. */
    method OpenNamedUnit(ghost mode: Mode, buildDirectory: string, ghost all: seq<Call>)
      returns (ok: bool, started: bool)
      requires Follows(mode, all) && !entries.atEnd && entries.entry.kind == N_SO
      requires if mode.Outside? then buildDirectory == "" && !IsDirectory(Symbol(strings, stringOffset, entries.entry))
               else mode == AfterDirectory(buildDirectory)
      modifies this, entries, entries.cursor, handler
      ensures Valid() && Stab() == old(Stab())
      ensures ok ==> Follows(if started then InUnit else Outside, all) && entries.index > old(entries.index)
      ensures !ok ==> Refused(handler.accepts, handler.calls, all)
    {
      hide Calls, Step, Symbol, Entries, Accepted, OnTrack, Refused, IsDirectory;
      var name := SymbolString();
      UnitEntry(mode, buildDirectory);
      if name == "" {
        entries.Next();
        return true, false;
      }
      currentSourceFile := name;
      var call := StartCompilationUnit(name, entries.entry.value, buildDirectory);
      ghost var rest := Calls(Stab(), StateIn(InUnit), entries.index + 1);
      OneCall(handler.accepts, handler.calls, call, rest, all);
      var more := handler.Make(call);
      if !more {
        return false, false;
      }
      entries.Next();
      return true, true;
    }

    /** The last part of ProcessCompilationUnit. */
    method EndUnit(ghost all: seq<Call>) returns (ok: bool)
      requires Follows(InUnit, all) && (entries.atEnd || entries.entry.kind == N_SO)
      modifies this, entries, entries.cursor, handler
      ensures Valid() && Stab() == old(Stab())
      ensures ok ==> Follows(Outside, all) && entries.index >= old(entries.index)
      ensures !ok ==> Refused(handler.accepts, handler.calls, all)
    {
      hide Calls, Step, Symbol, Entries, Accepted, OnTrack, Refused;
      var endingAddress := 0;
      EndOfUnit();
      ghost var rest := Calls(Stab(), StateIn(Outside).(queued := []),
        entries.index + if !entries.atEnd && Symbol(strings, stringOffset, entries.entry) == "" then 1 else 0);
      if !entries.atEnd {
        var name := SymbolString();
        if name == "" {
          endingAddress := entries.entry.value;
          entries.Next();
        }
      }
      OneCall(handler.accepts, handler.calls, EndCompilationUnit(endingAddress), rest, all);
      var more := handler.Make(EndCompilationUnit(endingAddress));
      if !more {
        return false;
      }
      queuedLines := [];
      return true;
    }

    lemma DirectoryEntry(all: seq<Call>)
      requires Follows(Outside, all) && !entries.atEnd && entries.entry.kind == N_SO
      requires IsDirectory(Symbol(strings, stringOffset, entries.entry))
      ensures Rest(Outside)
           == Calls(Stab(), StateIn(AfterDirectory(Symbol(strings, stringOffset, entries.entry))), entries.index + 1)
    {
      hide Calls, Symbol, Entries, IsDirectory;
      NextCalls(Outside);
      var rest := Calls(Stab(),
                        StateIn(AfterDirectory(Symbol(strings, stringOffset, entries.entry))), entries.index + 1);
      assert [] + rest == rest;
    }

    /** Without a file name there is no unit, whether or not there was a directory. */
    lemma NoUnit(mode: Mode)
      requires Valid() && entries.index <= Count(entries.cursor.buffer, entries.valueSize)
      requires mode.Outside? || mode.AfterDirectory?
      requires entries.atEnd || entries.entry.kind != N_SO
      ensures Rest(mode) == Rest(Outside)
    {
      hide Calls, Symbol, Entries;
      NextCalls(mode);
      NextCalls(Outside);
    }

    lemma UnitEntry(mode: Mode, buildDirectory: string)
      requires Valid() && !entries.atEnd && entries.entry.kind == N_SO
      requires if mode.Outside? then buildDirectory == "" && !IsDirectory(Symbol(strings, stringOffset, entries.entry))
               else mode == AfterDirectory(buildDirectory)
      ensures var name := Symbol(strings, stringOffset, entries.entry);
        Rest(mode) ==
          if name == "" then Calls(Stab(), StateIn(Outside), entries.index + 1)
          else [StartCompilationUnit(name, entries.entry.value, buildDirectory)]
               + Calls(Stab(), StateIn(InUnit).(source := name), entries.index + 1)
    {
      hide Calls, Symbol, Entries, IsDirectory;
      NextCalls(mode);
      var rest := Calls(Stab(), StateIn(Outside), entries.index + 1);
      assert [] + rest == rest;
    }

    /** At the end of a unit: an N_SO entry without a name ends it, and one with a name starts the next. */
    lemma EndOfUnit()
      requires Valid() && entries.index <= Count(entries.cursor.buffer, entries.valueSize)
      requires entries.atEnd || entries.entry.kind == N_SO
      ensures var marker := !entries.atEnd && Symbol(strings, stringOffset, entries.entry) == "";
        Rest(InUnit) == [EndCompilationUnit(if marker then entries.entry.value else 0)]
          + Calls(Stab(), StateIn(Outside).(queued := []), entries.index + if marker then 1 else 0)
    {
      hide Calls, Symbol, Entries, StartUnit, IsDirectory;
      NextCalls(InUnit);
      var after := StateIn(Outside).(queued := []);
      NextFrom(after);
      if entries.atEnd {
        assert [EndCompilationUnit(0)] + [] == [EndCompilationUnit(0)];
      } else {
        var effect := Step(Stab(), after, entries.entry);
        var rest := Calls(Stab(), effect.state, entries.index + 1);
        assert [EndCompilationUnit(0)] + effect.calls + rest == [EndCompilationUnit(0)] + (effect.calls + rest);
      }
    }

    /** The loop over the entries of a unit, up to the next N_SO. */
    method ProcessUnitBody(ghost all: seq<Call>) returns (ok: bool)
      requires Follows(InUnit, all)
      modifies this, entries, entries.cursor, handler
      ensures Valid() && Stab() == old(Stab())
      ensures ok ==> Follows(InUnit, all) && entries.index >= old(entries.index)
      ensures ok ==> entries.atEnd || entries.entry.kind == N_SO
      ensures !ok ==> Refused(handler.accepts, handler.calls, all)
    {
      hide Calls, Step, Symbol, Entries, Accepted, OnTrack;
      while !entries.atEnd && entries.entry.kind != N_SO
        invariant Follows(InUnit, all) && Stab() == old(Stab()) && entries.index >= old(entries.index)
        decreases |Stab().entries| - entries.index
      {
        if entries.entry.kind == N_FUN {
          var more := ProcessFunction(all);
          if !more {
            return false;
          }
        } else {
          UnitLine();
          if entries.entry.kind == N_SLINE {
            queuedLines := queuedLines + [QueuedLine(entries.entry.value, currentSourceFile, entries.entry.descriptor)];
          } else if entries.entry.kind == N_SOL {
            currentSourceFile := SymbolString();
          }
          entries.Next();
        }
      }
      return true;
    }

    /** An entry of a unit that starts no function and ends nothing. */
    lemma UnitLine()
      requires Valid() && !entries.atEnd && entries.entry.kind != N_SO && entries.entry.kind != N_FUN
      ensures var e, st := entries.entry, StateIn(InUnit);
        Rest(InUnit) == Calls(Stab(),
          if e.kind == N_SLINE then st.(queued := queuedLines + [QueuedLine(e.value, currentSourceFile, e.descriptor)])
          else if e.kind == N_SOL then st.(source := Symbol(strings, stringOffset, e))
          else st, entries.index + 1)
    {
      hide Calls, Symbol, Entries;
      NextCalls(InUnit);
      var effect := Step(Stab(), StateIn(InUnit), entries.entry);
      var rest := Calls(Stab(), effect.state, entries.index + 1);
      assert [] + rest == rest;
    }

    method ProcessFunction(ghost all: seq<Call>) returns (ok: bool)
      requires Follows(InUnit, all) && !entries.atEnd && entries.entry.kind == N_FUN
      modifies this, entries, entries.cursor, handler
      ensures Valid() && Stab() == old(Stab())
      ensures ok ==> Follows(InUnit, all) && entries.index > old(entries.index)
      ensures !ok ==> Refused(handler.accepts, handler.calls, all)
    {
      hide Calls, Step, Symbol, Entries, Accepted, OnTrack, Refused, LineCalls, FunctionName;
      var functionAddress := entries.entry.value;
      var stabString := SymbolString();
      var name := FunctionName(stabString);
      FunctionEntry();
      ghost var lines := LineCalls(queuedLines);
      ghost var rest := Calls(Stab(), StateIn(InFunction(functionAddress)).(queued := []), entries.index + 1);
      OneCall(handler.accepts, handler.calls, StartFunction(name, functionAddress), lines + rest, all);
      var more := handler.Make(StartFunction(name, functionAddress));
      if !more {
        return false;
      }
      entries.Next();
      more := ReportQueuedLines(rest, all);
      if !more {
        return false;
      }
      queuedLines := [];
      more := ProcessFunctionBody(functionAddress, all);
      if !more {
        return false;
      }
      ok := CloseFunction(functionAddress, all);
    }

    /** The last part of ProcessFunction. */
    method CloseFunction(functionAddress: Address, ghost all: seq<Call>) returns (ok: bool)
      requires Follows(InFunction(functionAddress), all)
      requires entries.atEnd || entries.entry.kind == N_SO || entries.entry.kind == N_FUN
      modifies this, entries, entries.cursor, handler
      ensures Valid() && Stab() == old(Stab())
      ensures ok ==> Follows(InUnit, all) && entries.index >= old(entries.index)
      ensures !ok ==> Refused(handler.accepts, handler.calls, all)
    {
      hide Calls, Step, Symbol, Entries, Accepted, OnTrack, Refused;
      var endingAddress := 0;
      EndOfFunction(functionAddress);
      ghost var rest := Calls(Stab(), StateIn(InUnit), entries.index + if TerminatesFunction() then 1 else 0);
      if !entries.atEnd {
        if entries.entry.kind == N_FUN {
          var symbolName := SymbolString();
          if symbolName == "" {
            endingAddress := WrapAdd(functionAddress, entries.entry.value);
            entries.Next();
          } else {
            endingAddress := entries.entry.value;
          }
        } else {
          endingAddress := entries.entry.value;
        }
      }
      OneCall(handler.accepts, handler.calls, EndFunction(endingAddress), rest, all);
      ok := handler.Make(EndFunction(endingAddress));
    }

    lemma FunctionEntry()
      requires Valid() && !entries.atEnd && entries.entry.kind == N_FUN
      ensures Rest(InUnit)
           == [StartFunction(FunctionName(Symbol(strings, stringOffset, entries.entry)), entries.entry.value)]
              + (LineCalls(queuedLines)
                 + Calls(Stab(), StateIn(InFunction(entries.entry.value)).(queued := []), entries.index + 1))
    {
      hide Calls, Symbol, Entries, LineCalls, FunctionName;
      NextCalls(InUnit);
      var start := [StartFunction(FunctionName(Symbol(strings, stringOffset, entries.entry)), entries.entry.value)];
      var lines := LineCalls(queuedLines);
      var rest := Calls(Stab(), StateIn(InFunction(entries.entry.value)).(queued := []), entries.index + 1);
      assert start + lines + rest == start + (lines + rest);
    }

    /** Report the lines that came before the function. */
    method ReportQueuedLines(ghost rest: seq<Call>, ghost all: seq<Call>) returns (ok: bool)
      requires OnTrack(handler.accepts, handler.calls, LineCalls(queuedLines) + rest, all)
      modifies handler
      ensures if ok then OnTrack(handler.accepts, handler.calls, rest, all)
              else Refused(handler.accepts, handler.calls, all)
    {
      hide OnTrack, Refused;
      assert queuedLines[0..] == queuedLines;
      for i := 0 to |queuedLines|
        invariant OnTrack(handler.accepts, handler.calls, LineCalls(queuedLines[i..]) + rest, all)
      {
        var line := queuedLines[i];
        var call := LineCall(line.address, line.filename, line.number);
        assert queuedLines[i..][1..] == queuedLines[i + 1..];
        assert LineCalls(queuedLines[i..]) + rest == [call] + (LineCalls(queuedLines[i + 1..]) + rest);
        OneCall(handler.accepts, handler.calls, call, LineCalls(queuedLines[i + 1..]) + rest, all);
        var more := handler.Make(call);
        if !more {
          return false;
        }
      }
      assert LineCalls([]) + rest == rest;
      return true;
    }

    /** The loop over the entries of a function, up to the next N_SO or N_FUN. */
    method ProcessFunctionBody(functionAddress: Address, ghost all: seq<Call>) returns (ok: bool)
      requires Follows(InFunction(functionAddress), all)
      modifies this, entries, entries.cursor, handler
      ensures Valid() && Stab() == old(Stab())
      ensures ok ==> Follows(InFunction(functionAddress), all) && entries.index >= old(entries.index)
      ensures ok ==> entries.atEnd || entries.entry.kind == N_SO || entries.entry.kind == N_FUN
      ensures !ok ==> Refused(handler.accepts, handler.calls, all)
    {
      hide Calls, Step, Symbol, Entries, Accepted, OnTrack, Refused;
      while !entries.atEnd
        invariant Follows(InFunction(functionAddress), all) && Stab() == old(Stab())
          && entries.index >= old(entries.index)
        decreases |Stab().entries| - entries.index
      {
        if entries.entry.kind == N_SO || entries.entry.kind == N_FUN {
          break;
        }
        var more := ProcessFunctionEntry(functionAddress, all);
        if !more {
          return false;
        }
      }
      return true;
    }

    /** One entry of a function that neither ends it nor starts another. */
    method ProcessFunctionEntry(functionAddress: Address, ghost all: seq<Call>) returns (ok: bool)
      requires Follows(InFunction(functionAddress), all)
      requires !entries.atEnd && entries.entry.kind != N_SO && entries.entry.kind != N_FUN
      modifies this, entries, entries.cursor, handler
      ensures Valid() && Stab() == old(Stab())
      ensures ok ==> Follows(InFunction(functionAddress), all) && entries.index > old(entries.index)
      ensures !ok ==> Refused(handler.accepts, handler.calls, all)
    {
      hide Calls, Step, Symbol, Entries, Accepted, OnTrack, Refused;
      FunctionLine(functionAddress);
      if entries.entry.kind == N_SLINE {
        var more := ReportLine(functionAddress, all);
        if !more {
          return false;
        }
      } else if entries.entry.kind == N_SOL {
        currentSourceFile := SymbolString();
      }
      entries.Next();
      return true;
    }

    /** Report the line of an entry inside a function. */
    method ReportLine(functionAddress: Address, ghost all: seq<Call>) returns (ok: bool)
      requires Valid() && !entries.atEnd
      requires OnTrack(handler.accepts, handler.calls,
        [LineCall(WrapAdd(functionAddress, entries.entry.value), currentSourceFile, entries.entry.descriptor)]
        + Calls(Stab(), StateIn(InFunction(functionAddress)), entries.index + 1), all)
      modifies handler
      ensures if ok
              then OnTrack(handler.accepts, handler.calls,
                           Calls(Stab(), StateIn(InFunction(functionAddress)), entries.index + 1), all)
              else Refused(handler.accepts, handler.calls, all)
    {
      hide Calls, OnTrack, Refused, Entries, WrapAdd;
      var lineAddress := WrapAdd(functionAddress, entries.entry.value);
      var call := LineCall(lineAddress, currentSourceFile, entries.entry.descriptor);
      ghost var rest := Calls(Stab(), StateIn(InFunction(functionAddress)), entries.index + 1);
      OneCall(handler.accepts, handler.calls, call, rest, all);
      ok := handler.Make(call);
    }

    lemma FunctionLine(address: Address)
      requires Valid() && !entries.atEnd && entries.entry.kind != N_SO && entries.entry.kind != N_FUN
      ensures var e, st := entries.entry, StateIn(InFunction(address));
        Rest(InFunction(address)) ==
          if e.kind == N_SLINE then [LineCall(WrapAdd(address, e.value), currentSourceFile, e.descriptor)]
                                    + Calls(Stab(), st, entries.index + 1)
          else Calls(Stab(), if e.kind == N_SOL then st.(source := Symbol(strings, stringOffset, e)) else st,
                     entries.index + 1)
    {
      hide Calls, Symbol, Entries;
      NextCalls(InFunction(address));
      var effect := Step(Stab(), StateIn(InFunction(address)), entries.entry);
      var rest := Calls(Stab(), effect.state, entries.index + 1);
      assert [] + rest == rest;
    }

    /** An N_FUN entry without a name ends a function. */
    ghost predicate TerminatesFunction()
      reads this, entries
    {
      !entries.atEnd && entries.entry.kind == N_FUN && Symbol(strings, stringOffset, entries.entry) == ""
    }

    /** At the end of a function: another function's entry, or that of a unit, is looked at again. */
    lemma EndOfFunction(address: Address)
      requires Valid() && entries.index <= Count(entries.cursor.buffer, entries.valueSize)
      requires entries.atEnd || entries.entry.kind == N_SO || entries.entry.kind == N_FUN
      ensures Rest(InFunction(address))
           == [EndFunction(if entries.atEnd then 0
                           else if TerminatesFunction() then WrapAdd(address, entries.entry.value)
                           else entries.entry.value)]
              + Calls(Stab(), StateIn(InUnit), entries.index + if TerminatesFunction() then 1 else 0)
    {
      hide Calls, Symbol, Entries, StartUnit, IsDirectory, LineCalls, FunctionName;
      NextCalls(InFunction(address));
      NextCalls(InUnit);
      if entries.atEnd {
        assert [EndFunction(0), EndCompilationUnit(0)] == [EndFunction(0)] + [EndCompilationUnit(0)];
      } else if !TerminatesFunction() {
        var effect := Step(Stab(), StateIn(InUnit), entries.entry);
        var rest := Calls(Stab(), effect.state, entries.index + 1);
        assert [EndFunction(entries.entry.value)] + effect.calls + rest
            == [EndFunction(entries.entry.value)] + (effect.calls + rest);
      }
    }
  }

  lemma {:induction false} NothingRefused(accepts: seq<Call> -> bool)
    ensures Accepted(accepts, [])
  {
  }
}
