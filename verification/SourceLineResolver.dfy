/**
 The part of basic_source_line_resolver.cc that reads symbol files, entering STACK CFI records into its
 tables, and finds the rules in force at an address.
 */
module SourceLineResolver {
  import opened CText
  import opened CfiRules
  import opened CfiFrameInfos
  import opened HexNumbers
  import opened OrderedKeys
  import opened RangeMaps
  import opened SymbolParsing
  import opened Words

  const MAX_ERRORS := 100

  /** `cfi_initial_rules_` and `cfi_delta_rules_`. */
  datatype Tables = Tables(initial: Ranges<string>, delta: map<Address, string>)

  /** What loading keeps: the tables, the addresses of public symbols, and whether lines have a function. */
  datatype Loader = Loader(tables: Tables, publics: set<Address>, inFunction: bool)

  const EMPTY: Loader := Loader(Tables(map[], map[]), {}, false)

  ghost function StoreInitial(ranges: Ranges<string>, base: Address, size: Address, rules: string): (r: Ranges<string>)
    requires Disjoint(ranges)
    ensures Disjoint(r)
  {
    if Fits(base, size) && !Overlaps(ranges, base, High(base, size)) then ranges[High(base, size) := Range(base, rules)]
    else ranges
  }

  datatype Read = Read(ok: bool, tables: Tables)

  /** The fields of a STACK CFI record, behind the word CFI. */
  datatype Record = Bad | Init(base: string, size: string, rules: string) | Delta(address: string, rules: string)

  function Fields(text: string): Record {
    var first := Strtok(text, FIELD_BREAKS);
    if first.None? then Bad
    else if first.value.text == "INIT" then
      var address := Strtok(first.value.cursor, FIELD_BREAKS);
      if address.None? then Bad
      else
        var size := Strtok(address.value.cursor, FIELD_BREAKS);
        if size.None? then Bad
        else
          var rules := Strtok(size.value.cursor, LINE_BREAKS);
          if rules.None? then Bad else Init(address.value.text, size.value.text, rules.value.text)
    else
      var rules := Strtok(first.value.cursor, LINE_BREAKS);
      if rules.None? then Bad else Delta(first.value.text, rules.value.text)
  }

  ghost function Enter(tables: Tables, record: Record): (r: Read)
    requires Disjoint(tables.initial)
    ensures Disjoint(r.tables.initial)
  {
    match record
    case Bad => Read(false, tables)
    case Init(base, size, rules) =>
      Read(true, tables.(initial := StoreInitial(tables.initial, StrToUL(base), StrToUL(size), rules)))
    case Delta(address, rules) =>
      Read(true, tables.(delta := tables.delta[StrToUL(address) := rules]))
  }

  const STACK: string := "STACK "

  function SkipSpace(s: string): string { SkipBreaks(s, {' '}) }

  /** `WindowsFrameInfo::ParseFromString` takes the record: eleven fields, the first of which is a known type. */
  predicate IsWindowsRecord(text: string) {
    var t := Tokenized(text, 11);
    t.Some? && StrToL(t.value[0], 16) % 0x1_0000_0000 < 5
  }

  /** A line that starts with STACK; only records for CFI have a place in the tables. */
  ghost function EnterStack(tables: Tables, line: string): (r: Read)
    requires STACK <= line && Disjoint(tables.initial)
    ensures Disjoint(r.tables.initial)
  {
    var text := SkipSpace(line[|STACK|..]);
    var platform := Word(text, FIELD_BREAKS);
    var rest := if |platform| < |text| then text[|platform| + 1..] else [];
    if platform == "CFI" then Enter(tables, Fields(rest))
    else Read(platform == "WIN" && IsWindowsRecord(rest), tables)
  }

  datatype LineRead = LineRead(ok: bool, loader: Loader)

  /** A PUBLIC record; the address zero is taken but not stored, and no other may be stored twice. */
  function EnterPublic(loader: Loader, symbol: Option<PublicRecord>): LineRead {
    if symbol.None? then LineRead(false, loader)
    else if symbol.value.address == 0 then LineRead(true, loader)
    else if symbol.value.address in loader.publics then LineRead(false, loader)
    else LineRead(true, loader.(publics := loader.publics + {symbol.value.address}))
  }

  /** One line. */
  ghost function EnterLine(loader: Loader, line: string): (r: LineRead)
    requires Disjoint(loader.tables.initial)
    ensures Disjoint(r.loader.tables.initial)
  {
    if FILE <= line then LineRead(FileOf(line[|FILE|..]).Some?, loader)
    else if STACK <= line then
      var read := EnterStack(loader.tables, line);
      LineRead(read.ok, loader.(tables := read.tables))
    else if FUNC <= line then
      var ok := FunctionOf(line[|FUNC|..]).Some?;
      LineRead(ok, loader.(inFunction := ok))
    else if PUBLIC <= line then EnterPublic(loader.(inFunction := false), PublicOf(line[|PUBLIC|..]))
    else if MODULE <= line || INFO <= line then LineRead(true, loader)
    else LineRead(loader.inFunction && LineOf(line).Some?, loader)
  }

  /** The loop over the lines: it gives up when there are too many errors. */
  ghost function EnterLines(loader: Loader, lines: seq<string>, errors: nat): (r: Loader)
    requires Disjoint(loader.tables.initial)
    ensures Disjoint(r.tables.initial)
    decreases |lines|
  {
    if lines == [] then loader
    else
      var read := EnterLine(loader, lines[0]);
      var errors' := if read.ok then errors else errors + 1;
      if errors' > MAX_ERRORS then read.loader else EnterLines(read.loader, lines[1..], errors')
  }

  lemma {:induction false} NothingToLoad(loader: Loader)
    requires Disjoint(loader.tables.initial)
    ensures Loaded(loader, "") == loader.(inFunction := false)
  {
  }

  lemma {:induction false} EnterNoLines(loader: Loader, line: Option<Token>, errors: nat)
    requires Disjoint(loader.tables.initial)
    ensures line.None? ==> EnterLines(loader, Remaining(line, LINE_BREAKS), errors) == loader
  {
  }

  lemma {:induction false} EnterOneLine(loader: Loader, lines: seq<string>, errors: nat)
    requires Disjoint(loader.tables.initial) && lines != []
    ensures var read := EnterLine(loader, lines[0]);
      var errors' := if read.ok then errors else errors + 1;
      EnterLines(loader, lines, errors)
        == if errors' > MAX_ERRORS then read.loader else EnterLines(read.loader, lines[1..], errors')
  {
  }

  /** The buffer without its last character, which becomes a NUL, and without the NULs before that. */
  function Body(buffer: string): string {
    if buffer == "" then ""
    else StripNuls(buffer[..|buffer| - 1])
  }

  function StripNuls(s: string): (r: string)
    ensures r <= s
    ensures NUL !in s ==> r == s
    decreases |s|
  {
    if s != "" && s[|s| - 1] == NUL then StripNuls(s[..|s| - 1]) else s
  }

  /** NULs in the middle become underscores. */
  function Scrubbed(s: string): (r: string)
    ensures NUL !in s ==> r == s
  {
    seq(|s|, i requires 0 <= i < |s| => if s[i] == NUL then '_' else s[i])
  }

  ghost function Loaded(loader: Loader, buffer: string): (r: Loader)
    requires Disjoint(loader.tables.initial)
    ensures Disjoint(r.tables.initial)
  {
    var body := Body(buffer);
    var lines := Tokens(Scrubbed(body), LINE_BREAKS);
    EnterLines(loader.(inFunction := false), lines, if NUL in body then 1 else 0).(inFunction := false)
  }

  // ----- the rules in force

  /** The key behind k. */
  function Next(keys: set<Address>, k: Address): (r: Option<Address>)
    ensures r.Some? ==> r.value in keys && k < r.value && forall k' <- keys :: k < k' ==> r.value <= k'
    ensures r.None? ==> forall k' <- keys :: k' <= k
  {
    if k + 1 == ADDRESS_SPACE then None else LowerBound(keys, k + 1)
  }

  /** Parse the changes from one position in the table up to an address, on top of the given rules. */
  function Changed(delta: map<Address, string>, at: Option<Address>, address: Address, rules: Rules): Rules
    requires at.Some? ==> at.value in delta
    decreases if at.Some? then ADDRESS_SPACE - at.value else 0
  {
    if at.None? || at.value > address then rules
    else Changed(delta, Next(delta.Keys, at.value), address, ParseRules(delta[at.value], rules).rules)
  }

  ghost function Found(tables: Tables, address: Address): Option<Rules>
    requires Disjoint(tables.initial)
  {
    var range := Retrieved(tables.initial, address);
    if range.None? then None
    else
      var first := ParseRules(range.value.entry, NO_RULES);
      if !first.ok then None
      else Some(Changed(tables.delta, LowerBound(tables.delta.Keys, range.value.base), address, first.rules))
  }

  // ----- the program

  /** `BasicSourceLineResolver::Module`, with its tables for call frame information. */
  class Module {
    const cfiInitialRules: RangeMap<string>
    var cfiDeltaRules: map<Address, string>
    var publicSymbols: set<Address>

    ghost function Rules(): Tables
      reads this, cfiInitialRules
    {
      Tables(cfiInitialRules.ranges, cfiDeltaRules)
    }

    ghost function Contents(): Loader
      reads this, cfiInitialRules
    {
      Loader(Rules(), publicSymbols, false)
    }

    constructor ()
      ensures Contents() == EMPTY && fresh(cfiInitialRules)
    {
      cfiInitialRules := new RangeMap();
      cfiDeltaRules, publicSymbols := map[], {};
    }

    method ParseCFIFrameInfo(stackInfoLine: string) returns (ok: bool)
      requires Disjoint(cfiInitialRules.ranges)
      modifies this, cfiInitialRules
      ensures Disjoint(cfiInitialRules.ranges)
      ensures Read(ok, Rules()) == Enter(old(Rules()), Fields(stackInfoLine)) && publicSymbols == old(publicSymbols)
    {
      hide Strtok, StrToUL, Disjoint, Overlaps;
      var initOrAddress := Strtok(stackInfoLine, FIELD_BREAKS);
      if initOrAddress.None? {
        return false;
      }
      if initOrAddress.value.text == "INIT" {
        var addressField := Strtok(initOrAddress.value.cursor, FIELD_BREAKS);
        if addressField.None? {
          return false;
        }
        var sizeField := Strtok(addressField.value.cursor, FIELD_BREAKS);
        if sizeField.None? {
          return false;
        }
        var initialRules := Strtok(sizeField.value.cursor, LINE_BREAKS);
        if initialRules.None? {
          return false;
        }
        var address, size := StrToUL(addressField.value.text), StrToUL(sizeField.value.text);
        var stored := cfiInitialRules.StoreRange(address, size, initialRules.value.text);
        return true;
      }
      var deltaRules := Strtok(initOrAddress.value.cursor, LINE_BREAKS);
      if deltaRules.None? {
        return false;
      }
      cfiDeltaRules := cfiDeltaRules[StrToUL(initOrAddress.value.text) := deltaRules.value.text];
      return true;
    }

    method ParseStackInfo(stackInfoLine: string) returns (ok: bool)
      requires STACK <= stackInfoLine && Disjoint(cfiInitialRules.ranges)
      modifies this, cfiInitialRules
      ensures Disjoint(cfiInitialRules.ranges)
      ensures Read(ok, Rules()) == EnterStack(old(Rules()), stackInfoLine) && publicSymbols == old(publicSymbols)
    {
      hide Enter, Fields, Disjoint;
      var text := SkipSpace(stackInfoLine[|STACK|..]);
      var platform := Word(text, FIELD_BREAKS);
      var rest := if |platform| < |text| then text[|platform| + 1..] else [];
      if platform == "CFI" {
        ok := ParseCFIFrameInfo(rest);
      } else if platform == "WIN" {
        return IsWindowsRecord(rest);
      } else {
        return false;
      }
    }

    /** One round of the loop in LoadMapFromMemory. */
    method EnterRecord(line: string, inFunction: bool) returns (ok: bool, nowInFunction: bool)
      requires Disjoint(cfiInitialRules.ranges)
      modifies this, cfiInitialRules
      ensures Disjoint(cfiInitialRules.ranges)
      ensures LineRead(ok, Contents().(inFunction := nowInFunction))
           == EnterLine(old(Contents()).(inFunction := inFunction), line)
    {
      hide EnterStack, Disjoint, FileOf, FunctionOf, LineOf, PublicOf;
      nowInFunction := inFunction;
      if FILE <= line {
        var file := ParseFile(line);
        return file.Some?, inFunction;
      } else if STACK <= line {
        ok := ParseStackInfo(line);
      } else if FUNC <= line {
        var record := ParseFunction(line);
        return record.Some?, record.Some?;
      } else if PUBLIC <= line {
        nowInFunction := false;
        var symbol := ParsePublicSymbol(line);
        ok := StorePublicSymbol(symbol);
      } else if MODULE <= line || INFO <= line {
        return true, inFunction;
      } else if !inFunction {
        return false, inFunction;
      } else {
        var record := ParseLine(line);
        return record.Some?, inFunction;
      }
    }

    /** The rest of ParsePublicSymbol. */
    method StorePublicSymbol(symbol: Option<PublicRecord>) returns (ok: bool)
      modifies this`publicSymbols
      ensures LineRead(ok, Contents()) == EnterPublic(old(Contents()), symbol)
    {
      if symbol.None? {
        return false;
      }
      var address := symbol.value.address;
      if address == 0 {
        return true;
      }
      ok := address !in publicSymbols;
      publicSymbols := publicSymbols + {address};
      assert !ok ==> publicSymbols == old(publicSymbols);
    }

    method LoadMapFromMemory(buffer: string)
      requires Disjoint(cfiInitialRules.ranges)
      modifies this, cfiInitialRules
      ensures Disjoint(cfiInitialRules.ranges)
      ensures Contents() == Loaded(old(Contents()), buffer)
    {
      hide Strtok, EnterLine, EnterLines, Tokens, Remaining, Disjoint, Body, Scrubbed;
      var inFunction := false;
      if buffer == "" {
        NothingToLoad(Contents());
        return;
      }
      ghost var whole := Loaded(Contents(), buffer);
      var body := Body(buffer);
      var errors := if NUL in body then 1 else 0;
      var line := Strtok(Scrubbed(body), LINE_BREAKS);
      RemainingFrom(Scrubbed(body), LINE_BREAKS);
      while line.Some?
        invariant Disjoint(cfiInitialRules.ranges) && errors <= MAX_ERRORS
        invariant EnterLines(Contents().(inFunction := inFunction), Remaining(line, LINE_BREAKS), errors)
                    .(inFunction := false) == whole
        decreases Remaining(line, LINE_BREAKS)
      {
        RemainingStep(line, LINE_BREAKS);
        EnterOneLine(Contents().(inFunction := inFunction), Remaining(line, LINE_BREAKS), errors);
        RemainingFrom(line.value.cursor, LINE_BREAKS);
        var ok;
        ok, inFunction := EnterRecord(line.value.text, inFunction);
        if !ok {
          errors := errors + 1;
        }
        if errors > MAX_ERRORS {
          return;
        }
        line := Strtok(line.value.cursor, LINE_BREAKS);
      }
      EnterNoLines(Contents().(inFunction := inFunction), line, errors);
    }

    /** The rules at an address relative to the module, or null if no STACK CFI INIT record covers it. */
    method FindCFIFrameInfo(address: Address) returns (rules: CFIFrameInfo?)
      requires Disjoint(cfiInitialRules.ranges)
      ensures Found(Rules(), address) == if rules == null then None else Some(rules.Contents())
    {
      hide ParseRules, Disjoint;
      var range := cfiInitialRules.RetrieveRange(address);
      if range.None? {
        return null;
      }
      var info := new CFIFrameInfo();
      var parser := new CFIRuleParser(info);
      var ok := parser.Parse(range.value.entry);
      if !ok {
        return null;
      }
      var at := LowerBound(cfiDeltaRules.Keys, range.value.base);
      while at.Some? && at.value <= address
        invariant at.Some? ==> at.value in cfiDeltaRules
        invariant Found(Rules(), address) == Some(Changed(cfiDeltaRules, at, address, info.Contents()))
        decreases if at.Some? then ADDRESS_SPACE - at.value else 0
      {
        var deltaParser := new CFIRuleParser(info);
        ok := deltaParser.Parse(cfiDeltaRules[at.value]);
        at := Next(cfiDeltaRules.Keys, at.value);
      }
      return info;
    }
  }
}
